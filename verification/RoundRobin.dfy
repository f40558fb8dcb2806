/**
 The arithmetic of weighted round robin (serviceregistry/discovery.go): a 64-bit
 cursor taken modulo the number of slots, where an instance of weight w has w
 slots.
 */
module RoundRobin {

  const TWO_64: int := 0x1_0000_0000_0000_0000

  /** The slot that the k-th pick after cursor c falls on, of w slots. The cursor
      counts modulo 2^64. */
  function Slot(c: nat, k: nat, w: nat): (i: nat)
    requires w > 0
    ensures i < w
  {
    ((c + k) % TWO_64) % w
  }

  /** The slots of w picks in a row. */
  function Round(c: nat, w: nat): seq<nat>
    requires w > 0
  {
    seq(w, k requires 0 <= k < w => Slot(c, k, w))
  }

  /** 0, 1, ..., n - 1. */
  function Upto(n: nat): seq<nat> {
    seq(n, i => i)
  }

  lemma ModNext(x: nat, w: nat)
    requires w > 0
    ensures (x + 1) % w == if x % w + 1 == w then 0 else x % w + 1
  {
    var q, r := x / w, x % w;
    assert x == q * w + r;
    if r + 1 == w {
      assert x + 1 == (q + 1) * w;
      MultipleMod(q + 1, 0, w);
    } else {
      assert x + 1 == q * w + (r + 1);
      MultipleMod(q, r + 1, w);
    }
  }

  lemma TimesAtLeast(a: int, w: nat)
    requires a >= 1
    ensures a * w >= w
  {
  }

  /** Quotient and remainder are determined. */
  lemma MultipleMod(q: int, r: nat, w: nat)
    requires r < w
    ensures (q * w + r) % w == r
  {
    var x := q * w + r;
    var a := x / w - q;
    assert x == (x / w) * w + x % w;
    assert a * w == (x / w) * w - q * w;
    if a >= 1 {
      TimesAtLeast(a, w);
    } else if a <= -1 {
      TimesAtLeast(-a, w);
    }
  }

  lemma AddModulus(x: nat, w: nat)
    requires w > 0
    ensures (x + w) % w == x % w
  {
    var q := x / w;
    assert x == q * w + x % w;
    assert x + w == (q + 1) * w + x % w;
    MultipleMod(q + 1, x % w, w);
  }

  lemma {:induction false} ModAdd(x: nat, k: nat, w: nat)
    requires k < w
    ensures (x + k) % w == if x % w + k < w then x % w + k else x % w + k - w
  {
    if k > 0 {
      ModAdd(x, k - 1, w);
      ModNext(x + k - 1, w);
    }
  }

  lemma DropMultiple(x: nat, m: nat, w: nat)
    requires w > 0 && m % w == 0
    ensures (x + m) % w == x % w
  {
    var q := m / w;
    assert m == q * w;
    AddMultiple(x, q, w);
  }

  lemma {:induction false} AddMultiple(x: nat, q: nat, w: nat)
    requires w > 0
    ensures (x + q * w) % w == x % w
  {
    if q > 0 {
      AddMultiple(x, q - 1, w);
      assert x + q * w == (x + (q - 1) * w) + w;
      AddModulus(x + (q - 1) * w, w);
    }
  }

  /** The counter does not wrap within the round, or wraps onto a slot boundary. */
  predicate Even(c: nat, w: nat)
    requires w > 0
  {
    c + w <= TWO_64 || TWO_64 % w == 0
  }

  lemma SlotOf(c: nat, k: nat, w: nat)
    requires 0 < w <= TWO_64 && c < TWO_64 && k < w && Even(c, w)
    ensures Slot(c, k, w) == if c % w + k < w then c % w + k else c % w + k - w
  {
    ModAdd(c, k, w);
    if c + k >= TWO_64 {
      var x := c + k - TWO_64;
      assert (c + k) % TWO_64 == x;
      DropMultiple(x, TWO_64, w);
    }
  }

  /** A round visits every slot exactly once, from any cursor, when it is even. */
  lemma RoundIsPermutation(c: nat, w: nat)
    requires 0 < w <= TWO_64 && c < TWO_64 && Even(c, w)
    ensures multiset(Round(c, w)) == multiset(Upto(w))
  {
    var r := c % w;
    var high, low := Upto(w)[r..], Upto(w)[..r];
    forall k | 0 <= k < w ensures Round(c, w)[k] == (high + low)[k] {
      SlotOf(c, k, w);
    }
    assert Round(c, w) == high + low;
    assert Upto(w) == low + high;
  }

  ghost predicate NoSlotTwice(c: nat, w: nat)
    requires w > 0
  {
    forall j, k :: 0 <= j < k < w ==> Slot(c, j, w) != Slot(c, k, w)
  }

  /** A round visits no slot twice exactly when it is even: a caller can tell from
      the cursor and the number of slots. */
  lemma FairIffEven(c: nat, w: nat)
    requires 0 < w <= TWO_64 && c < TWO_64
    ensures NoSlotTwice(c, w) <==> Even(c, w)
  {
    if Even(c, w) {
      forall j, k | 0 <= j < k < w ensures Slot(c, j, w) != Slot(c, k, w) {
        SlotOf(c, j, w);
        SlotOf(c, k, w);
      }
    } else {
      var j, k := Repeated(c, w);
    }
  }

  /** In an uneven round some slot comes up both before and after the wrap. */
  lemma Repeated(c: nat, w: nat) returns (j: nat, k: nat)
    requires 0 < w <= TWO_64 && c < TWO_64 && !Even(c, w)
    ensures j < k < w && Slot(c, j, w) == Slot(c, k, w)
  {
    var before, d := TWO_64 - c, TWO_64 % w;
    // The picks before the wrap end on slot d - 1; those after it start on slot 0.
    if d - 1 <= w - before - 1 {
      j, k := before - 1, before + d - 1;
      ModNext(TWO_64 - 1, w);
      SlotAfterWrap(c, k, w);
    } else {
      j, k := before - 1 - (d + before - w), w - 1;
      SlotBeforeWrap(c, j, w);
      SlotAfterWrap(c, k, w);
    }
  }

  lemma SlotAfterWrap(c: nat, k: nat, w: nat)
    requires 0 < w <= TWO_64 && c < TWO_64 && k < w && c + k >= TWO_64
    ensures Slot(c, k, w) == c + k - TWO_64
  {
    assert (c + k) % TWO_64 == c + k - TWO_64;
    SmallMod(c + k - TWO_64, w);
  }

  lemma SmallMod(x: nat, w: nat)
    requires x < w
    ensures x % w == x
  {
  }

  /** Counting back from the wrap: the pick n before it falls n short of d. */
  lemma SlotBeforeWrap(c: nat, j: nat, w: nat)
    requires 0 < w <= TWO_64 && c < TWO_64 && c + j < TWO_64 && TWO_64 - (c + j) <= TWO_64 % w
    ensures Slot(c, j, w) == TWO_64 % w - (TWO_64 - (c + j))
  {
    var n := TWO_64 - (c + j);
    ModAdd(c + j, n, w);
    assert (c + j) % TWO_64 == c + j;
  }
}
