/** Mapping a function over a sequence, and what that does to multisets; sequences without repeats. */
module Sequences {
  /** No element occurs twice. */
  predicate Distinct<T(==)>(s: seq<T>)
  {
    forall i, j :: 0 <= i < j < |s| ==> s[i] != s[j]
  }

  lemma DistinctAppend<T>(a: seq<T>, b: seq<T>)
    requires Distinct(a) && Distinct(b)
    requires forall x :: x in a ==> x !in b
    ensures Distinct(a + b)
  {
    forall i, j | 0 <= i < j < |a + b| ensures (a + b)[i] != (a + b)[j] {
      if i < |a| && |a| <= j {
        assert (a + b)[i] in a && (a + b)[j] in b;
      }
    }
  }

  /** Dropping the last element keeps a sequence free of repeats, and the dropped element is not among the rest. */
  lemma DistinctInit<T>(s: seq<T>)
    requires s != [] && Distinct(s)
    ensures Distinct(s[..|s| - 1]) && s[|s| - 1] !in s[..|s| - 1]
  {
    var init := s[..|s| - 1];
    forall i, j | 0 <= i < j < |init| ensures init[i] != init[j] {
      assert init[i] == s[i] && init[j] == s[j];
    }
    forall i | 0 <= i < |init| ensures init[i] != s[|s| - 1] {
      assert init[i] == s[i];
    }
  }

  lemma DistinctTail<T>(s: seq<T>)
    requires s != [] && Distinct(s)
    ensures Distinct(s[1..])
  {
    forall i, j | 0 <= i < j < |s[1..]| ensures s[1..][i] != s[1..][j] {
      assert s[1..][i] == s[i + 1] && s[1..][j] == s[j + 1];
    }
  }

  /** `[f(x) for x in s]` */
  function MapSeq<A, B>(f: A -> B, s: seq<A>): (r: seq<B>)
    ensures |r| == |s|
  {
    if s == [] then [] else [f(s[0])] + MapSeq(f, s[1..])
  }

  lemma MapSeqCons<A, B>(f: A -> B, x: A, s: seq<A>)
    ensures MapSeq(f, [x] + s) == [f(x)] + MapSeq(f, s)
  {
    assert ([x] + s)[1..] == s;
  }

  lemma RemoveAfterHead<A>(b: seq<A>, j: int)
    requires 0 < j < |b|
    ensures b[..j] + b[j + 1..] == [b[0]] + (b[1..][..j - 1] + b[1..][j..])
    ensures b[1..][j - 1] == b[j]
  {
  }

  /** Taking one element out takes its image out. */
  lemma {:induction false} MapSeqRemove<A, B>(f: A -> B, b: seq<A>, j: int)
    requires 0 <= j < |b|
    ensures multiset(MapSeq(f, b)) == multiset(MapSeq(f, b[..j] + b[j + 1..])) + multiset{f(b[j])}
    decreases j
  {
    var tail := b[1..];
    assert b == [b[0]] + tail;
    MapSeqCons(f, b[0], tail);
    if j == 0 {
      assert b[..j] + b[j + 1..] == tail;
    } else {
      var rest := tail[..j - 1] + tail[j..];
      MapSeqRemove(f, tail, j - 1);
      RemoveAfterHead(b, j);
      MapSeqCons(f, b[0], rest);
    }
  }

  /** Rearranging the input rearranges the images the same way. */
  lemma {:induction false} MapSeqPermutation<A, B>(f: A -> B, a: seq<A>, b: seq<A>)
    requires multiset(a) == multiset(b)
    ensures multiset(MapSeq(f, a)) == multiset(MapSeq(f, b))
    decreases |a|
  {
    if a == [] {
      assert |b| == |multiset(b)| == 0;
    } else {
      assert a[0] in multiset(b);
      var j :| 0 <= j < |b| && b[j] == a[0];
      var b' := b[..j] + b[j + 1..];
      assert b == b[..j] + [b[j]] + b[j + 1..];
      assert multiset(b') == multiset(b) - multiset{a[0]};
      assert a == [a[0]] + a[1..];
      assert multiset(a[1..]) == multiset(b');
      MapSeqPermutation(f, a[1..], b');
      MapSeqRemove(f, b, j);
      MapSeqRemove(f, a, 0);
      assert a[..0] + a[1..] == a[1..];
    }
  }
}
