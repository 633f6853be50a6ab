/**
  The in-memory tag list and the helpers the add/delete handlers use
  (chat/chat.go:278-285, 303-373). Case folding is abstracted as a key
  function `fold`: two tags are equal under folding when their keys agree,
  which makes it an equivalence without fixing the Unicode details.
 */
module TagList {
  import opened Wrappers

  type CaseKey = string -> string

  /** Some tag in `tags` equals `s` up to case. */
  ghost predicate HasCaseMatch(tags: seq<string>, s: string, fold: CaseKey) {
    exists i :: 0 <= i < |tags| && fold(tags[i]) == fold(s)
  }

  /** No two tags of the list are equal up to case. */
  ghost predicate CaseDistinct(tags: seq<string>, fold: CaseKey) {
    forall i, j :: 0 <= i < j < |tags| ==> fold(tags[i]) != fold(tags[j])
  }

  /** `contains`: the scan for a case-insensitive match. */
  function Contains(tags: seq<string>, s: string, fold: CaseKey): (r: bool)
    ensures r <==> HasCaseMatch(tags, s, fold)
    decreases |tags|
  {
    if |tags| == 0 then false
    else if fold(s) == fold(tags[0]) then true
    else
      var r := Contains(tags[1..], s, fold);
      assert HasCaseMatch(tags, s, fold) ==> HasCaseMatch(tags[1..], s, fold) by {
        if HasCaseMatch(tags, s, fold) {
          var i :| 0 <= i < |tags| && fold(tags[i]) == fold(s);
          assert tags[1..][i - 1] == tags[i];
        }
      }
      assert HasCaseMatch(tags[1..], s, fold) ==> HasCaseMatch(tags, s, fold) by {
        if HasCaseMatch(tags[1..], s, fold) {
          var i :| 0 <= i < |tags[1..]| && fold(tags[1..][i]) == fold(s);
          assert tags[i + 1] == tags[1..][i];
        }
      }
      r
  }

  /** The list the add handler writes to storage; None when the tag is already present and storage is not called. */
  function PendingAdd(tags: seq<string>, newtag: string, fold: CaseKey): (p: Option<seq<string>>)
    ensures p.None? <==> HasCaseMatch(tags, newtag, fold)
    ensures p.Some? ==> p.value == tags + [newtag]
  {
    if Contains(tags, newtag, fold) then None else Some(tags + [newtag])
  }

  /**
    The add handler's effect on the in-memory list, given whether the storage
    update succeeded: the list only ever grows by `newtag` at the end, it grows
    exactly when no tag matched up to case and storage accepted the new list,
    and after an accepted update `newtag` is present up to case.
   */
  function AddTag(tags: seq<string>, newtag: string, fold: CaseKey, storageOk: bool): (r: seq<string>)
    ensures r == tags || r == tags + [newtag]
    ensures r != tags <==> !HasCaseMatch(tags, newtag, fold) && storageOk
    ensures r != tags ==> PendingAdd(tags, newtag, fold) == Some(r)
    ensures storageOk ==> HasCaseMatch(r, newtag, fold)
  {
    match PendingAdd(tags, newtag, fold)
    case None => tags
    case Some(pending) =>
      if storageOk then
        assert pending[|tags|] == newtag;
        pending
      else tags
  }

  /** Adding keeps the list free of case-duplicates. */
  lemma AddTagKeepsDistinct(tags: seq<string>, newtag: string, fold: CaseKey, storageOk: bool)
    requires CaseDistinct(tags, fold)
    ensures CaseDistinct(AddTag(tags, newtag, fold, storageOk), fold)
  {
    var r := AddTag(tags, newtag, fold, storageOk);
    if r != tags {
      forall i, j | 0 <= i < j < |r|
        ensures fold(r[i]) != fold(r[j])
      {
        if j == |tags| {
          assert r[i] == tags[i];
        }
      }
    }
  }

  /** Adding the same tag again (or any case variant of it) after an accepted add changes nothing. */
  lemma AddTagIdempotent(tags: seq<string>, newtag: string, variant: string, fold: CaseKey, ok2: bool)
    requires fold(variant) == fold(newtag)
    ensures AddTag(AddTag(tags, newtag, fold, true), variant, fold, ok2) == AddTag(tags, newtag, fold, true)
  {
    var r := AddTag(tags, newtag, fold, true);
    var i :| 0 <= i < |r| && fold(r[i]) == fold(newtag);
    assert fold(r[i]) == fold(variant);
  }

  /** The position of the first element equal to `v`. */
  function FirstIndex(s: seq<string>, v: string): (i: nat)
    requires v in s
    ensures i < |s| && s[i] == v
    ensures forall k :: 0 <= k < i ==> s[k] != v
    decreases |s|
  {
    if s[0] == v then 0 else 1 + FirstIndex(s[1..], v)
  }

  /**
    `removeElement`: drop the first element equal to `value`, keeping the rest
    in order; with no match the list is returned unchanged.
   */
  function RemoveElement(s: seq<string>, value: string): (r: seq<string>)
    ensures value !in s ==> r == s
    ensures |r| == if value in s then |s| - 1 else |s|
    decreases |s|
  {
    if |s| == 0 then s
    else if s[0] == value then s[1..]
    else [s[0]] + RemoveElement(s[1..], value)
  }

  /** With a match, the result is the list with its first match cut out. */
  lemma {:induction false} RemoveElementShape(s: seq<string>, value: string)
    requires value in s
    ensures RemoveElement(s, value) == s[..FirstIndex(s, value)] + s[FirstIndex(s, value) + 1..]
    decreases |s|
  {
    if s[0] != value {
      assert value in s[1..] by {
        var k :| 0 <= k < |s| && s[k] == value;
        assert s[1..][k - 1] == value;
      }
      var i := FirstIndex(s[1..], value);
      RemoveElementShape(s[1..], value);
      assert [s[0]] + (s[1..][..i] + s[1..][i + 1..]) == s[..i + 1] + s[i + 2..];
    }
  }

  /** Removal takes away exactly one copy of `value`, if there is one, and nothing else. */
  lemma RemoveElementMultiset(s: seq<string>, value: string)
    ensures multiset(RemoveElement(s, value)) == multiset(s) - multiset{value}
  {
    if value in s {
      var i := FirstIndex(s, value);
      var a, b := s[..i], s[i + 1..];
      assert s == a + [value] + b;
      RemoveElementShape(s, value);
      calc {
        multiset(RemoveElement(s, value));
        multiset(a + b);
        multiset(a) + multiset(b);
        multiset(a) + multiset{value} + multiset(b) - multiset{value};
        multiset(s) - multiset{value};
      }
    } else {
      assert value !in multiset(s);
      assert multiset(s) - multiset{value} == multiset(s);
    }
  }

  /** Removing keeps the list free of case-duplicates. */
  lemma RemoveElementKeepsDistinct(s: seq<string>, value: string, fold: CaseKey)
    requires CaseDistinct(s, fold)
    ensures CaseDistinct(RemoveElement(s, value), fold)
  {
    if value in s {
      var n := FirstIndex(s, value);
      var r := RemoveElement(s, value);
      RemoveElementShape(s, value);
      forall i, j | 0 <= i < j < |r|
        ensures fold(r[i]) != fold(r[j])
      {
        var i' := if i < n then i else i + 1;
        var j' := if j < n then j else j + 1;
        assert r[i] == s[i'] && r[j] == s[j'];
      }
    }
  }

  /**
    The delete handler's effect on the in-memory list: the first exact match is
    removed only when storage accepted the shortened list, otherwise nothing
    changes. Matching is exact, not up to case.
   */
  function DeleteTag(tags: seq<string>, delTag: string, storageOk: bool): (r: seq<string>)
    ensures !storageOk ==> r == tags
    ensures storageOk ==> r == RemoveElement(tags, delTag)
    ensures storageOk && delTag in tags ==> r == tags[..FirstIndex(tags, delTag)] + tags[FirstIndex(tags, delTag) + 1..]
    ensures multiset(r) == if storageOk then multiset(tags) - multiset{delTag} else multiset(tags)
    ensures delTag !in tags ==> r == tags
  {
    var pending := RemoveElement(tags, delTag);
    RemoveElementMultiset(tags, delTag);
    assert delTag in tags ==> pending == tags[..FirstIndex(tags, delTag)] + tags[FirstIndex(tags, delTag) + 1..] by {
      if delTag in tags {
        RemoveElementShape(tags, delTag);
      }
    }
    if storageOk then pending else tags
  }
}
