/** Shared vocabulary of the runtime model: optional values, fixed-width
    unsigned ranges and the byte view of a `std::string`. */
module Common {

  /** A value that may be missing; stands in for a null pointer or a
      `bool` success flag paired with an out-parameter. */
  datatype Option<+T> = None | Some(value: T)

  /** 2^8, 2^32 and 2^64: the moduli of `uint8`, `uint32` and `uint64`/`Size`. */
  const U8: nat := 0x100
  const U32: nat := 0x1_0000_0000
  const U64: nat := 0x1_0000_0000_0000_0000

  /** One byte of a `std::string` or of a `Vector<uint8>`. */
  type Byte = x: int | 0 <= x < 0x100

  /** A `std::string` is a run of bytes; a Dafny `string` stands for it when
      every character is below 256. */
  predicate IsByteString(s: string) {
    forall i :: 0 <= i < |s| ==> s[i] as int < 0x100
  }

  function Bytes(s: string): (r: seq<Byte>)
    requires IsByteString(s)
    ensures |r| == |s|
    ensures forall i :: 0 <= i < |s| ==> r[i] == s[i] as int
  {
    if |s| == 0 then [] else [s[0] as int] + Bytes(s[1..])
  }

  /** The half-open range [lo, hi) of naturals, in ascending order. */
  function Range(lo: nat, hi: nat): (r: seq<nat>)
    ensures |r| == if lo <= hi then hi - lo else 0
    ensures forall k :: 0 <= k < |r| ==> r[k] == lo + k
    decreases hi - lo
  {
    if lo >= hi then [] else [lo] + Range(lo + 1, hi)
  }

  lemma {:induction false} RangeSplit(lo: nat, mid: nat, hi: nat)
    requires lo <= mid <= hi
    ensures Range(lo, hi) == Range(lo, mid) + Range(mid, hi)
  {
    var a, b, c := Range(lo, hi), Range(lo, mid), Range(mid, hi);
    assert |a| == |b| + |c|;
    forall k | 0 <= k < |a|
      ensures a[k] == (b + c)[k]
    {
      if k < |b| {
        assert (b + c)[k] == b[k];
      } else {
        assert (b + c)[k] == c[k - |b|];
      }
    }
  }

  /** A sequence is what lies before index `k`, the element at `k`, and
      what follows; dropping that element drops one copy from its
      multiset. */
  lemma SplitAt<T>(b: seq<T>, k: nat)
    requires k < |b|
    ensures b == b[..k] + [b[k]] + b[k + 1..]
    ensures multiset(b) == multiset(b[..k] + b[k + 1..]) + multiset{b[k]}
  {
    assert b == b[..k] + [b[k]] + b[k + 1..];
  }

  lemma MultisetCancel<T>(x: multiset<T>, y: multiset<T>, a: multiset<T>)
    requires x + a == y + a
    ensures x == y
  {
    forall e
      ensures x[e] == y[e]
    {
      assert (x + a)[e] == (y + a)[e];
    }
  }

  /** From `x + a == y + (a + b)`: `x == y + b`. */
  lemma MultisetTakeBack<T>(x: multiset<T>, y: multiset<T>, a: multiset<T>, b: multiset<T>)
    requires x + a == y + (a + b)
    ensures x == y + b
  {
    forall e
      ensures x[e] == (y + b)[e]
    {
      assert (x + a)[e] == (y + (a + b))[e];
    }
  }

  /** `f` applied to every element of `s`, in order. */
  function MapSeq<A, B>(f: A -> B, s: seq<A>): (r: seq<B>)
    ensures |r| == |s|
    ensures forall k :: 0 <= k < |s| ==> r[k] == f(s[k])
  {
    if |s| == 0 then [] else [f(s[0])] + MapSeq(f, s[1..])
  }

  /** The pieces `f` gives the elements of `s`, concatenated in order. */
  function FlatMap<A, B>(f: A -> seq<B>, s: seq<A>): seq<B>
  {
    if |s| == 0 then [] else f(s[0]) + FlatMap(f, s[1..])
  }

  /** The last element's piece comes last. */
  lemma {:induction false} FlatMapLast<A, B>(f: A -> seq<B>, s: seq<A>)
    requires |s| > 0
    ensures FlatMap(f, s) == FlatMap(f, s[..|s| - 1]) + f(s[|s| - 1])
    decreases |s|
  {
    if |s| > 1 {
      var init, rest := s[..|s| - 1], s[1..];
      FlatMapLast(f, rest);
      assert rest[..|rest| - 1] == init[1..];
      assert rest[|rest| - 1] == s[|s| - 1] && init[0] == s[0];
    } else {
      assert s[..|s| - 1] == [] && s[1..] == [];
    }
  }

  lemma {:induction false} MapSeqAppend<A, B>(f: A -> B, a: seq<A>, b: seq<A>)
    ensures MapSeq(f, a + b) == MapSeq(f, a) + MapSeq(f, b)
  {
    assert MapSeq(f, a + b) == MapSeq(f, a) + MapSeq(f, b);
  }

  /** Mapping two sequences that hold the same elements, in whatever order,
      gives two sequences that hold the same elements. */
  lemma {:induction false} MapPermute<A, B>(f: A -> B, a: seq<A>, b: seq<A>)
    requires multiset(a) == multiset(b)
    ensures multiset(MapSeq(f, a)) == multiset(MapSeq(f, b))
    decreases |a|
  {
    if |a| == 0 {
      assert b == [] by {
        assert |multiset(b)| == 0;
      }
    } else {
      var x := a[0];
      assert x in b by {
        assert x in multiset(a);
      }
      var k :| 0 <= k < |b| && b[k] == x;
      var a', b' := a[1..], b[..k] + b[k + 1..];
      assert a[..0] + a[1..] == a';
      assert multiset(a') == multiset(b') by {
        SplitAt(b, k);
        SplitAt(a, 0);
        MultisetCancel(multiset(a'), multiset(b'), multiset{x});
      }
      MapPermute(f, a', b');
      MapRemove(f, a, 0);
      MapRemove(f, b, k);
    }
  }

  /** Dropping the element at `k` drops one copy of its image. */
  lemma MapRemove<A, B>(f: A -> B, b: seq<A>, k: nat)
    requires k < |b|
    ensures multiset(MapSeq(f, b)) == multiset(MapSeq(f, b[..k] + b[k + 1..])) + multiset{f(b[k])}
  {
    var u, x, v := b[..k], b[k], b[k + 1..];
    var mu, mv := MapSeq(f, u), MapSeq(f, v);
    var ux := u + [x];
    assert multiset(MapSeq(f, b)) == multiset(mu) + multiset{f(x)} + multiset(mv) by {
      SplitAt(b, k);
      assert b == ux + v;
      MapSeqAppend(f, ux, v);
      MapSeqAppend(f, u, [x]);
      assert MapSeq(f, [x]) == [f(x)];
    }
    assert multiset(MapSeq(f, u + v)) == multiset(mu) + multiset(mv) by {
      MapSeqAppend(f, u, v);
    }
    MultisetSwap(multiset(mu), multiset(mv), multiset{f(x)});
  }

  lemma MultisetSwap<T>(x: multiset<T>, y: multiset<T>, z: multiset<T>)
    ensures x + y + z == x + z + y
  {
    forall e
      ensures (x + y + z)[e] == (x + z + y)[e]
    {
    }
  }

  /** `t1` extends `t0` by what left `m0` to give `m1`, and `t2` extends
      `t1` by what left `m1` to give `m2`: then `t2` extends `t0` by what
      left `m0` to give `m2`. */
  lemma ExtendChain<T>(t0: seq<T>, t1: seq<T>, t2: seq<T>, m0: multiset<T>, m1: multiset<T>, m2: multiset<T>)
    requires |t1| >= |t0| && t1[..|t0|] == t0 && m1 + multiset(t1[|t0|..]) == m0
    requires |t2| >= |t1| && t2[..|t1|] == t1 && m2 + multiset(t2[|t1|..]) == m1
    ensures |t2| >= |t0| && t2[..|t0|] == t0 && m2 + multiset(t2[|t0|..]) == m0
  {
    var d, a := t1[|t0|..], t2[|t1|..];
    assert t1 == t0 + d;
    assert t2 == t0 + d + a;
    assert t2[|t0|..] == d + a;
    forall e
      ensures (m2 + multiset(t2[|t0|..]))[e] == m0[e]
    {
      assert (m2 + multiset(a))[e] == m1[e];
      assert (m1 + multiset(d))[e] == m0[e];
    }
  }
}
