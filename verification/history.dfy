/**
  The history replay of `sendInitialMsgs` (chat/chat.go:86-115): the latest
  messages come back newest first and are swapped in place into oldest-first
  order before being sent to the new connection only. No watermark is touched.
 */
module History {
  import opened Wrappers
  import opened Messages

  /** `r` holds the elements of `s` in reverse order. */
  ghost predicate IsReverseOf<T>(r: seq<T>, s: seq<T>) {
    |r| == |s| && forall k :: 0 <= k < |s| ==> r[k] == s[|s| - 1 - k]
  }

  /** Reversal is symmetric: reversing back gives the original. */
  lemma ReverseSymmetric<T>(r: seq<T>, s: seq<T>)
    requires IsReverseOf(r, s)
    ensures IsReverseOf(s, r)
  {
    forall k | 0 <= k < |r|
      ensures s[k] == r[|r| - 1 - k]
    {
      assert r[|s| - 1 - k] == s[|s| - 1 - (|s| - 1 - k)];
    }
  }

  /** Reversing a newest-first list gives an oldest-first one. */
  lemma ReverseOfNewestFirst(r: seq<Message>, s: seq<Message>)
    requires IsReverseOf(r, s) && NewestFirst(s)
    ensures OldestFirst(r)
  {
    forall i, j | 0 <= i < j < |r|
      ensures r[i].ts <= r[j].ts
    {
      assert r[i] == s[|s| - 1 - i] && r[j] == s[|s| - 1 - j];
    }
  }

  /** The two-index swap loop: `i` and `j` walk inwards until they meet. */
  method ReverseInPlace<T>(s: seq<T>) returns (r: seq<T>)
    ensures IsReverseOf(r, s)
    ensures multiset(r) == multiset(s)
  {
    r := s;
    var i: int, j: int := 0, |s| - 1;
    while i < j
      invariant 0 <= i && j == |s| - 1 - i && i <= j + 1
      invariant |r| == |s|
      invariant multiset(r) == multiset(s)
      invariant forall k :: 0 <= k < i ==> r[k] == s[|s| - 1 - k] && r[|s| - 1 - k] == s[k]
      invariant forall k :: i <= k <= j ==> r[k] == s[k]
    {
      r := r[i := r[j]][j := r[i]];
      i, j := i + 1, j - 1;
    }
  }

  /** The search hits as messages, in search (newest-first) order. */
  function ReplayAll(hits: seq<Hit>): seq<Message> {
    seq(|hits|, i requires 0 <= i < |hits| => ReplayMessage(hits[i]))
  }

  /**
    The frames sent to a new connection: nothing when the search returned nil,
    otherwise one message per hit, in reverse (oldest-first) order.
   */
  method SendInitialMsgs(search: Option<seq<Hit>>) returns (frames: seq<Message>)
    ensures search.None? ==> frames == []
    ensures search.Some? ==> |frames| == |search.value|
    ensures search.Some? ==> forall k :: 0 <= k < |frames| ==>
      frames[k] == ReplayMessage(search.value[|frames| - 1 - k])
    ensures search.Some? ==> multiset(frames) == multiset(ReplayAll(search.value))
    ensures search.Some? && NewestFirst(ReplayAll(search.value)) ==> OldestFirst(frames)
  {
    frames := [];
    if search.Some? {
      var hits := search.value;
      var msgs: seq<Message> := [];
      var n := 0;
      while n < |hits|
        invariant 0 <= n <= |hits|
        invariant |msgs| == n
        invariant forall k :: 0 <= k < n ==> msgs[k] == ReplayMessage(hits[k])
      {
        msgs := msgs + [ReplayMessage(hits[n])];
        n := n + 1;
      }
      assert msgs == ReplayAll(hits);
      frames := ReverseInPlace(msgs);
      if NewestFirst(msgs) {
        ReverseOfNewestFirst(frames, msgs);
      }
    }
  }
}
