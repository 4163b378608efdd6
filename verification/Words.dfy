/** The bits of a machine word of the bit-vector routines. */
module Words {
  const WORD_BITS: nat := 32

  // ---- The operations on words ----

  function And(x: bv32, y: bv32): bv32 {
    x & y
  }

  function Or(x: bv32, y: bv32): bv32 {
    x | y
  }

  function Not(x: bv32): bv32 {
    !x
  }

  function Double(x: bv32): bv32 {
    x << 1
  }

  function Halve(x: bv32): bv32 {
    x >> 1
  }

  function Predecessor(x: bv32): bv32 {
    x - 1
  }

  predicate AtMost(x: bv32, y: bv32) {
    x <= y
  }

  /** The word with only bit `k` set. */
  function One(k: nat): bv32 {
    if k == 0 then 1 else Double(One(k - 1))
  }

  predicate Bit(w: bv32, k: nat) {
    And(w, One(k)) != 0
  }

  /** The word with the bits below `k` set. */
  function Low(k: nat): bv32 {
    Predecessor(One(k))
  }

  /** All bits but those up to bit `k`. */
  function Above(k: nat): bv32 {
    Not(Or(One(k), Predecessor(One(k))))
  }

  /** Exactly one bit is set. */
  predicate OneHot(o: bv32) {
    o != 0 && o & (o - 1) == 0
  }

  const MIDDLE: bv32 := 0x4000_0000

  function Half(n: nat): bv32 {
    if n == 0 then MIDDLE else Halve(Half(n - 1))
  }

  // ---- Facts about the operations ----

  lemma {:induction false} HalfDouble(o: bv32, h: bv32)
    requires AtMost(o, Halve(h))
    ensures AtMost(Double(o), h)
  {
  }

  lemma {:induction false} HalveLess(h: bv32)
    requires AtMost(h, MIDDLE)
    ensures AtMost(Halve(h), MIDDLE)
  {
  }

  lemma {:induction false} HotAnd(x: bv32, y: bv32, o: bv32)
    requires OneHot(o)
    ensures And(And(x, y), o) != 0 <==> And(x, o) != 0 && And(y, o) != 0
  {
    OneOrNone(x, o);
    OneOrNone(y, o);
    OneOrNone(And(x, y), o);
    AndAnd(x, y, o);
    SelfAnd(o);
    hide And, OneHot;
  }

  /** With a single bit, the result is that bit or nothing. */
  lemma {:induction false} OneOrNone(x: bv32, o: bv32)
    requires OneHot(o)
    ensures And(x, o) == 0 || And(x, o) == o
    ensures o != 0
  {
  }

  lemma {:induction false} AndAnd(x: bv32, y: bv32, o: bv32)
    ensures And(And(x, y), o) == And(And(x, o), And(y, o))
  {
  }

  lemma {:induction false} SelfAnd(o: bv32)
    ensures And(o, o) == o && And(0, o) == 0 && And(o, 0) == 0 && And(0, 0) == 0
  {
  }

  lemma {:induction false} HotNot(x: bv32, o: bv32)
    requires OneHot(o)
    ensures And(Not(x), o) != 0 <==> And(x, o) == 0
  {
    OneOrNone(x, o);
    NotAnd(x, o);
    hide And, Not, OneHot;
  }

  lemma {:induction false} NotAnd(x: bv32, o: bv32)
    ensures And(x, o) == 0 ==> And(Not(x), o) == o
    ensures And(x, o) == o ==> And(Not(x), o) == 0
  {
  }

  lemma {:induction false} AnyOr(x: bv32, y: bv32, o: bv32)
    ensures And(Or(x, y), o) != 0 <==> And(x, o) != 0 || And(y, o) != 0
  {
    OrAnd(x, y, o);
    OrNone(And(x, o), And(y, o));
    hide And, Or;
  }

  lemma {:induction false} OrAnd(x: bv32, y: bv32, o: bv32)
    ensures And(Or(x, y), o) == Or(And(x, o), And(y, o))
  {
  }

  lemma {:induction false} OrNone(x: bv32, y: bv32)
    ensures Or(x, y) != 0 <==> x != 0 || y != 0
  {
  }

  lemma {:induction false} LowDouble(o: bv32)
    ensures Predecessor(Double(o)) == Or(Double(Predecessor(o)), 1)
  {
  }

  lemma {:induction false} OddAnd(l: bv32, o: bv32)
    requires AtMost(o, MIDDLE)
    ensures And(Or(Double(l), 1), Double(o)) != 0 <==> And(l, o) != 0
    ensures And(Or(Double(l), 1), 1) != 0
  {
  }

  lemma {:induction false} ZeroAnd(o: bv32)
    ensures And(0, o) == 0
  {
  }

  lemma {:induction false} HalveAnd(w: bv32, o: bv32)
    requires AtMost(o, MIDDLE)
    ensures And(Halve(w), o) != 0 <==> And(w, Double(o)) != 0
  {
  }

  lemma {:induction false} HalveEven(w: bv32)
    requires w != 0 && And(w, 1) == 0
    ensures Halve(w) != 0 && Halve(w) < w
  {
  }

  lemma {:induction false} HalveAtMost(w: bv32, l: bv32)
    requires AtMost(w, l)
    ensures AtMost(Halve(w), Halve(l))
  {
  }

  lemma {:induction false} NotZero(x: bv32, y: bv32)
    requires x != 0 && AtMost(x, y)
    ensures y != 0
  {
  }

  // ---- Single bits ----

  lemma {:induction false} OneStep(k: nat)
    ensures One(k + 1) == Double(One(k)) && One(0) == 1
  {
    hide Double;
  }

  lemma {:induction false} HalfStep(n: nat)
    ensures Half(n + 1) == Halve(Half(n)) && Half(0) == MIDDLE
  {
    hide Halve;
  }

  lemma {:induction false} HalfEnd()
    ensures AtMost(1, Half(30))
  {
    assert Half(10) == 0x10_0000;
    assert Half(20) == 0x400;
  }

  lemma {:induction false} HalfSmall(n: nat)
    ensures AtMost(Half(n), MIDDLE)
  {
    hide Half, Halve;
    HalfStep(if n > 0 then n - 1 else 0);
    if n > 0 {
      HalfSmall(n - 1);
      HalveLess(Half(n - 1));
    }
  }

  lemma {:induction false} OneAtMost(k: nat)
    requires k < 31
    ensures AtMost(One(k), Half(30 - k))
  {
    hide One, Half, Halve, Double, AtMost;
    if k == 0 {
      OneStep(0);
      HalfEnd();
    } else {
      OneStep(k - 1);
      HalfStep(30 - k);
      OneAtMost(k - 1);
      HalfDouble(One(k - 1), Half(30 - k));
    }
  }

  lemma {:induction false} OneSmall(k: nat)
    requires k < 31
    ensures AtMost(One(k), MIDDLE)
  {
    OneAtMost(k);
    HalfSmall(30 - k);
    hide One, Half;
  }

  lemma {:induction false} OneIsHot(k: nat)
    requires k < 32
    ensures OneHot(One(k))
  {
    OneStep(if k > 0 then k - 1 else 0);
    if k > 0 {
      hide One, OneHot, Double, AtMost;
      OneIsHot(k - 1);
      OneSmall(k - 1);
    } else {
      hide One;
    }
  }

  lemma {:induction false} BitOr(x: bv32, y: bv32, k: nat)
    ensures Bit(Or(x, y), k) <==> Bit(x, k) || Bit(y, k)
  {
    hide One, And, Or;
    AnyOr(x, y, One(k));
  }

  lemma {:induction false} BitAnd(x: bv32, y: bv32, k: nat)
    requires k < 32
    ensures Bit(And(x, y), k) <==> Bit(x, k) && Bit(y, k)
  {
    hide One, OneHot, And;
    OneIsHot(k);
    HotAnd(x, y, One(k));
  }

  lemma {:induction false} BitNot(x: bv32, k: nat)
    requires k < 32
    ensures Bit(Not(x), k) <==> !Bit(x, k)
  {
    hide One, OneHot, And, Not;
    OneIsHot(k);
    HotNot(x, One(k));
  }

  lemma {:induction false} BitZero(k: nat)
    ensures !Bit(0, k)
  {
    hide One, And;
    ZeroAnd(One(k));
  }

  /** A word with no bit set is zero. */
  lemma {:induction false} LowBits(n: nat, k: nat)
    requires n < 32 && k < 32
    ensures Bit(Low(n), k) <==> k < n
  {
    hide One, Low, And, Double, Predecessor, Or, AtMost;
    OneStep(0);
    if n == 0 {
      LowNone();
      BitZero(k);
    } else {
      LowStep(n - 1);
      if k == 0 {
        OneSmall(0);
        OddAnd(Low(n - 1), One(0));
      } else {
        OneStep(k - 1);
        OneSmall(k - 1);
        OddAnd(Low(n - 1), One(k - 1));
        LowBits(n - 1, k - 1);
      }
    }
  }

  lemma {:induction false} LowStep(n: nat)
    ensures Low(n + 1) == Or(Double(Low(n)), 1)
  {
    hide One, Double, Predecessor, Or;
    OneStep(n);
    LowDouble(One(n));
  }

  lemma {:induction false} LowNone()
    ensures Low(0) == 0
  {
  }

  /** The word with only bit `n` set has no other. */
  lemma {:induction false} OneBit(n: nat, k: nat)
    requires n < 32 && k < 32
    ensures Bit(One(n), k) <==> n == k
  {
    OneStep(0);
    hide One, And, Double, AtMost;
    OneStep(if n > 0 then n - 1 else 0);
    OneStep(if k > 0 then k - 1 else 0);
    if n > 0 {
      OneSmall(n - 1);
      OneSmall(if k > 0 then k - 1 else 0);
      if k > 0 {
        OneBit(n - 1, k - 1);
      }
    } else if k > 0 {
      OneSmall(k - 1);
    }
  }

  lemma {:induction false} BitSet(w: bv32, n: nat, k: nat)
    requires n < 32 && k < 32
    ensures Bit(Or(w, One(n)), k) <==> Bit(w, k) || n == k
  {
    hide One, Bit, Or;
    BitOr(w, One(n), k);
    OneBit(n, k);
  }

  lemma {:induction false} AboveBits(n: nat, k: nat)
    requires n < 32 && k < 32
    ensures Bit(Above(n), k) <==> k > n
  {
    hide One, Bit, Or, Not, Predecessor;
    BitNot(Or(One(n), Predecessor(One(n))), k);
    BitOr(One(n), Predecessor(One(n)), k);
    OneBit(n, k);
    LowBits(n, k);
  }

  lemma {:induction false} BitHalve(w: bv32, k: nat)
    requires k < 31
    ensures Bit(Halve(w), k) <==> Bit(w, k + 1)
  {
    hide One, And, Halve, Double, AtMost;
    OneStep(k);
    OneSmall(k);
    HalveAnd(w, One(k));
  }

  lemma {:induction false} BitFirst(w: bv32)
    ensures Bit(w, 0) <==> And(w, 1) != 0
  {
    hide One, And;
    OneStep(0);
  }

  // ---- Looking for the lowest bit ----

  /** What is left of a word of ones after `s` shifts. */
  function Left(s: nat): bv32 {
    if s == 0 then 0xFFFF_FFFF else Halve(Left(s - 1))
  }

  lemma {:induction false} LeftStep(s: nat)
    ensures Left(s + 1) == Halve(Left(s))
  {
    hide Halve;
  }

  lemma {:induction false} NoneLeft()
    ensures Left(32) == 0
  {
    assert Left(10) == 0x3F_FFFF;
    assert Left(20) == 0xFFF;
    assert Left(30) == 3;
  }

  /** Bits `0..` of `mask` are bits `s..` of `w`. */
  ghost predicate ShiftedBy(w: bv32, mask: bv32, s: nat) {
    forall k: nat :: s <= k < 32 ==> (Bit(mask, k - s) <==> Bit(w, k))
  }

  /** The lowest set bit of a word. */
  method Lowest(w: bv32) returns (s: nat, bitmask: bv32)
    requires w != 0
    ensures s < 32 && Bit(w, s) && bitmask == One(s)
    ensures forall k: nat :: k < s ==> !Bit(w, k)
  {
    hide Bit, One, Left, ShiftedBy, And, Double, Halve, AtMost;
    var mask := w;
    s := 0;
    bitmask := 1;
    FirstShift(w);
    while And(mask, 1) == 0
      invariant mask != 0 && s < 32 && bitmask == One(s) && AtMost(mask, Left(s))
      invariant forall k: nat :: k < s ==> !Bit(w, k)
      invariant ShiftedBy(w, mask, s)
      decreases 32 - s
    {
      OneMoreShift(w, mask, s);
      bitmask := Double(bitmask);
      mask := Halve(mask);
      s := s + 1;
    }
    LowestBit(w, mask, s);
  }

  lemma {:induction false} FirstShift(w: bv32)
    ensures One(0) == 1 && AtMost(w, Left(0)) && ShiftedBy(w, w, 0)
  {
    hide Bit;
  }

  lemma {:induction false} OneMoreShift(w: bv32, mask: bv32, s: nat)
    requires mask != 0 && And(mask, 1) == 0 && s < 32 && AtMost(mask, Left(s)) && ShiftedBy(w, mask, s)
    requires forall k: nat :: k < s ==> !Bit(w, k)
    ensures Halve(mask) != 0 && AtMost(Halve(mask), Left(s + 1)) && s + 1 < 32 && Double(One(s)) == One(s + 1)
    ensures forall k: nat :: k < s + 1 ==> !Bit(w, k)
    ensures ShiftedBy(w, Halve(mask), s + 1)
  {
    hide One, Bit, Left, And, Halve, Double, AtMost;
    NextBound(mask, s);
    OneStep(s);
    BitFirst(mask);
    assert Bit(mask, s - s) <==> Bit(w, s);
    forall k: nat | s + 1 <= k < 32
      ensures Bit(Halve(mask), k - (s + 1)) <==> Bit(w, k)
    {
      BitHalve(mask, k - (s + 1));
      assert k - (s + 1) + 1 == k - s;
    }
  }

  lemma {:induction false} NextBound(mask: bv32, s: nat)
    requires mask != 0 && And(mask, 1) == 0 && s < 32 && AtMost(mask, Left(s))
    ensures Halve(mask) != 0 && AtMost(Halve(mask), Left(s + 1)) && s + 1 < 32
  {
    hide Left, And, Halve, AtMost;
    LeftStep(s);
    NoneLeft();
    HalveEven(mask);
    HalveAtMost(mask, Left(s));
    NotZero(Halve(mask), Left(s + 1));
  }

  lemma {:induction false} LowestBit(w: bv32, mask: bv32, s: nat)
    requires And(mask, 1) != 0 && s < 32 && ShiftedBy(w, mask, s)
    ensures Bit(w, s)
  {
    hide Bit, And;
    BitFirst(mask);
    assert Bit(mask, s - s);
  }
}
