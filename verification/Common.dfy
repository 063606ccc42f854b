/** Small notions shared by the models. */
module Common {

  datatype Option<T> = None | Some(value: T)

  const NBUF := 30  // buffers in the block cache

  ghost predicate Distinct<T>(s: seq<T>) {
    forall i, j :: 0 <= i < j < |s| ==> s[i] != s[j]
  }

  ghost function Elems<T>(s: seq<T>): set<T> {
    set x | x in s
  }

  /** The sequence with its `k`-th element taken out. */
  function Without<T>(s: seq<T>, k: nat): (r: seq<T>)
    requires k < |s|
    ensures |r| == |s| - 1
  {
    s[..k] + s[k + 1..]
  }

  lemma {:induction false} DistinctSize<T>(s: seq<T>)
    requires Distinct(s)
    ensures |Elems(s)| == |s|
  {
    if s != [] {
      var l := |s| - 1;
      DistinctSize(s[..l]);
      assert Elems(s) == Elems(s[..l]) + {s[l]};
      assert s[l] !in s[..l];
    }
  }

  lemma {:induction false} SubsetSize<T>(a: set<T>, b: set<T>)
    requires a <= b
    ensures |a| <= |b|
  {
    if a != {} {
      var x :| x in a;
      SubsetSize(a - {x}, b - {x});
    }
  }

  /** The `n` numbers from `b` on. */
  ghost function Range(b: nat, n: nat): (r: set<nat>)
    ensures forall u :: u in r <==> b <= u < b + n
  {
    if n == 0 then {} else Range(b, n - 1) + {b + n - 1}
  }

  // --------------------------------------------------------------- counters that wrap

  /** A remainder is what is left below the modulus. */
  lemma Remainder(q: nat, r: nat, w: nat)
    requires r < w
    ensures (q * w + r) % w == r
  {
    var x := q * w + r;
    var p := x / w;
    assert p * w + x % w == x;
    assert p < q ==> (p + 1) * w <= q * w;
    assert p > q ==> (q + 1) * w <= p * w;
  }

  /** Adding to a wrapped counter and wrapping again. */
  lemma WrapAdd(x: nat, d: nat, w: nat)
    requires w > 0
    ensures (x % w + d) % w == (x + d) % w
  {
    var y := x % w + d;
    var q := x / w + y / w;
    assert x + d == x / w * w + y == q * w + y % w;
    Remainder(q, y % w, w);
  }

  /** A ring position survives the wrap of its counter when the ring's size divides the wrap. */
  lemma WrapKeepsSlot(x: nat, slots: nat, k: nat)
    requires slots > 0 && k > 0
    ensures x % (k * slots) % slots == x % slots
  {
    var w := k * slots;
    var y := x % w;
    var q := x / w * k + y / slots;
    assert x / w * w == x / w * k * slots;
    assert x == q * slots + y % slots;
    Remainder(q, y % slots, slots);
  }
}
