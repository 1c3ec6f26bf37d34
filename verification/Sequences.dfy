/** Order-preserving subsequences. */
module Sequences {

  /** `a` is obtained from `b` by deleting elements. */
  ghost predicate IsSubsequence<T(!new)>(a: seq<T>, b: seq<T>) {
    if a == [] then true
    else if b == [] then false
    else if Last(a) == Last(b) then IsSubsequence(Front(a), Front(b))
    else IsSubsequence(a, Front(b))
  }

  function Last<T>(s: seq<T>): T
    requires s != []
  {
    s[|s| - 1]
  }

  function Front<T>(s: seq<T>): seq<T>
    requires s != []
  {
    s[..|s| - 1]
  }

  function Without<T>(s: seq<T>, k: nat): seq<T>
    requires k < |s|
  {
    s[..k] + s[k + 1..]
  }

  /** Increasing positions in `b` at which the elements of `a` stand. */
  ghost predicate IsEmbedding<T>(at: seq<nat>, a: seq<T>, b: seq<T>) {
    && |at| == |a|
    && (forall i | 0 <= i < |at| :: at[i] < |b| && b[at[i]] == a[i])
    && (forall i, j | 0 <= i < j < |at| :: at[i] < at[j])
  }

  lemma {:induction false} EmbeddingOf<T(!new)>(a: seq<T>, b: seq<T>) returns (at: seq<nat>)
    requires IsSubsequence(a, b)
    ensures IsEmbedding(at, a, b)
    decreases |b|
  {
    if a == [] {
      at := [];
    } else if Last(a) == Last(b) {
      at := EmbeddingOf(Front(a), Front(b));
      at := at + [|b| - 1];
    } else {
      at := EmbeddingOf(a, Front(b));
    }
  }

  lemma {:induction false} EmbeddedIsSubsequence<T(!new)>(at: seq<nat>, a: seq<T>, b: seq<T>)
    requires IsEmbedding(at, a, b)
    ensures IsSubsequence(a, b)
    decreases |b|
  {
    if a != [] {
      var n := |a| - 1;
      assert at[n] < |b|;
      if Last(a) == Last(b) {
        assert forall i | 0 <= i < n :: at[i] < at[n] && Front(b)[at[i]] == b[at[i]];
        EmbeddedIsSubsequence(at[..n], Front(a), Front(b));
      } else {
        assert at[n] != |b| - 1;
        assert forall i | 0 <= i < n :: at[i] < at[n];
        assert forall i | 0 <= i <= n :: at[i] < |b| - 1 && Front(b)[at[i]] == b[at[i]];
        EmbeddedIsSubsequence(at, a, Front(b));
      }
    }
  }

  /** The greedy definition says what it should: some increasing choice of positions exists. */
  lemma SubsequenceIffEmbedded<T(!new)>(a: seq<T>, b: seq<T>)
    ensures IsSubsequence(a, b) <==> exists at :: IsEmbedding(at, a, b)
  {
    if IsSubsequence(a, b) {
      var at := EmbeddingOf(a, b);
    }
    forall at | IsEmbedding(at, a, b) ensures IsSubsequence(a, b) {
      EmbeddedIsSubsequence(at, a, b);
    }
  }

  lemma {:induction false} Widen<T(!new)>(a: seq<T>, b: seq<T>, x: T)
    requires IsSubsequence(a, b)
    ensures IsSubsequence(a, b + [x])
    decreases |b|, 1
  {
    assert Front(b + [x]) == b;
    if a != [] && Last(a) == x {
      DropLast(a, b);
    }
  }

  lemma {:induction false} DropLast<T(!new)>(a: seq<T>, b: seq<T>)
    requires a != [] && IsSubsequence(a, b)
    ensures IsSubsequence(Front(a), b)
    decreases |b|, 0
  {
    assert Front(b) + [Last(b)] == b;
    if Last(a) != Last(b) {
      DropLast(a, Front(b));
    }
    Widen(Front(a), Front(b), Last(b));
  }

  lemma {:induction false} AppendBoth<T(!new)>(a: seq<T>, b: seq<T>, c: seq<T>)
    requires IsSubsequence(a, b)
    ensures IsSubsequence(a + c, b + c)
  {
    if c == [] {
      assert a + c == a && b + c == b;
    } else {
      AppendBoth(a, b, Front(c));
      assert Front(a + c) == a + Front(c) && Front(b + c) == b + Front(c);
      assert Last(a + c) == Last(c) == Last(b + c);
    }
  }

  lemma {:induction false} AppendRight<T(!new)>(a: seq<T>, b: seq<T>, c: seq<T>)
    requires IsSubsequence(a, b)
    ensures IsSubsequence(a, b + c)
  {
    if c == [] {
      assert b + c == b;
    } else {
      AppendRight(a, b, Front(c));
      Widen(a, b + Front(c), Last(c));
      assert b + Front(c) + [Last(c)] == b + c;
    }
  }

  lemma {:induction false} DropSuffix<T(!new)>(a: seq<T>, b: seq<T>, c: seq<T>)
    requires IsSubsequence(a + c, b)
    ensures IsSubsequence(a, b)
  {
    if c == [] {
      assert a + c == a;
    } else {
      DropLast(a + c, b);
      assert Front(a + c) == a + Front(c);
      DropSuffix(a, b, Front(c));
    }
  }

  lemma {:induction false} Transitive<T(!new)>(a: seq<T>, b: seq<T>, c: seq<T>)
    requires IsSubsequence(a, b) && IsSubsequence(b, c)
    ensures IsSubsequence(a, c)
    decreases |c|
  {
    if a != [] {
      assert Front(c) + [Last(c)] == c;
      if Last(b) != Last(c) {
        Transitive(a, b, Front(c));
        Widen(a, Front(c), Last(c));
      } else if Last(a) == Last(b) {
        Transitive(Front(a), Front(b), Front(c));
      } else {
        Transitive(a, Front(b), Front(c));
        Widen(a, Front(c), Last(c));
      }
    }
  }

  /** Keeping all of an appended tail, or only its head, keeps a subsequence. */
  lemma AppendSome<T(!new)>(a: seq<T>, b: seq<T>, head: seq<T>, tail: seq<T>)
    requires IsSubsequence(a, b)
    ensures IsSubsequence(a + (head + tail), b + (head + tail))
    ensures IsSubsequence(a + head, b + (head + tail))
  {
    AppendBoth(a, b, head + tail);
    AppendBoth(a, b, head);
    AppendRight(a + head, b + head, tail);
    assert b + head + tail == b + (head + tail);
  }

  lemma Associate<T>(a: seq<T>, b: seq<T>, c: seq<T>)
    ensures a + b + c == a + (b + c)
  {
  }

  /** A head may overtake `waiting` only if one of the two is empty. */
  lemma Overtake<T>(done: seq<T>, waiting: seq<T>, head: seq<T>, tail: seq<T>)
    requires waiting == [] || head == []
    ensures done + waiting + (head + tail) == done + head + (waiting + tail)
    ensures done + waiting + head == done + head + waiting
  {
    if head == [] {
      assert head + tail == tail && done + head == done;
    } else {
      assert done + waiting == done && waiting + tail == tail;
    }
  }

  lemma DropFromConcat<T>(a: seq<T>, b: seq<T>, n: nat)
    requires n <= |a|
    ensures (a + b)[n..] == a[n..] + b
  {
  }
}
