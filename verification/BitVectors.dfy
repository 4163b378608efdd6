/** Vectors of bits held in words: single bits, whole-vector operations, and the scan for
    runs of set bits. */
module BitVectors {
  import opened Words

  /** Bit `i` of the words is set. */
  predicate In(ws: seq<bv32>, i: nat) {
    i / 32 < |ws| && Bit(ws[i / 32], i % 32)
  }

  /** No bit from `a` up to `b` is set; all are. */
  ghost predicate Gap(ws: seq<bv32>, a: nat, b: nat) {
    forall i: nat :: a <= i < b ==> !In(ws, i)
  }

  ghost predicate Run(ws: seq<bv32>, a: nat, b: nat) {
    forall i: nat :: a <= i < b ==> In(ws, i)
  }

  function SizeFor(bits: nat): nat {
    (bits + 31) / 32
  }

  /** The used bits of the last word. */
  function LastMask(bits: nat): bv32 {
    if bits % 32 > 0 then Low(bits % 32) else 0xFFFF_FFFF
  }

  lemma {:induction false} InAt(ws: seq<bv32>, k: nat, b: nat)
    requires b < 32
    ensures In(ws, 32 * k + b) <==> k < |ws| && Bit(ws[k], b)
  {
    assert (32 * k + b) / 32 == k && (32 * k + b) % 32 == b;
  }

  /** What holds of every bit of word `k` holds of every index in it. */
  lemma {:induction false} WordGap(ws: seq<bv32>, k: nat, from: nat, to: nat)
    requires k < |ws| && from <= to <= 32 && forall b: nat :: from <= b < to ==> !Bit(ws[k], b)
    ensures Gap(ws, 32 * k + from, 32 * k + to)
  {
    hide Bit;
    forall i: nat | 32 * k + from <= i < 32 * k + to
      ensures !In(ws, i)
    {
      InAt(ws, k, i - 32 * k);
    }
  }

  lemma {:induction false} WordRun(ws: seq<bv32>, k: nat, from: nat, to: nat)
    requires k < |ws| && from <= to <= 32 && forall b: nat :: from <= b < to ==> Bit(ws[k], b)
    ensures Run(ws, 32 * k + from, 32 * k + to)
  {
    hide Bit;
    forall i: nat | 32 * k + from <= i < 32 * k + to
      ensures In(ws, i)
    {
      InAt(ws, k, i - 32 * k);
    }
  }

  lemma {:induction false} ZeroGap(ws: seq<bv32>, k: nat)
    requires k < |ws| && ws[k] == 0
    ensures Gap(ws, 32 * k, 32 * (k + 1))
  {
    hide Bit;
    forall b: nat
      ensures !Bit(0, b)
    {
      BitZero(b);
    }
    WordGap(ws, k, 0, 32);
  }

  lemma {:induction false} OnesRun(ws: seq<bv32>, k: nat)
    requires k < |ws| && Not(ws[k]) == 0
    ensures Run(ws, 32 * k, 32 * (k + 1))
  {
    hide Bit, Not;
    forall b: nat | b < 32
      ensures Bit(ws[k], b)
    {
      BitZero(b);
      BitNot(ws[k], b);
    }
    WordRun(ws, k, 0, 32);
  }

  /** Nothing is set above bit `b` of the word. */
  lemma {:induction false} AboveGap(ws: seq<bv32>, k: nat, b: nat)
    requires k < |ws| && b < 32 && And(ws[k], Above(b)) == 0
    ensures Gap(ws, 32 * k + b + 1, 32 * (k + 1))
  {
    hide Bit, And, Above;
    forall c: nat | b < c < 32
      ensures !Bit(ws[k], c)
    {
      BitZero(c);
      BitAnd(ws[k], Above(b), c);
      AboveBits(b, c);
    }
    WordGap(ws, k, b + 1, 32);
  }

  lemma {:induction false} AboveRun(ws: seq<bv32>, k: nat, b: nat, w: bv32)
    requires k < |ws| && b < 32 && And(Not(w), Above(b)) == 0
    requires forall c: nat :: b < c < 32 ==> (Bit(w, c) <==> Bit(ws[k], c))
    ensures Run(ws, 32 * k + b + 1, 32 * (k + 1))
  {
    hide Bit, And, Above, Not;
    forall c: nat | b < c < 32
      ensures Bit(ws[k], c)
    {
      BitZero(c);
      BitAnd(Not(w), Above(b), c);
      BitNot(w, c);
      AboveBits(b, c);
    }
    WordRun(ws, k, b + 1, 32);
  }

  /** The lowest bit set above bit `b`: the gap ends there. */
  lemma {:induction false} FoundAbove(ws: seq<bv32>, k: nat, b: nat, s: nat)
    requires k < |ws| && b < 32 && s < 32 && Bit(And(ws[k], Above(b)), s)
    requires forall c: nat :: c < s ==> !Bit(And(ws[k], Above(b)), c)
    ensures b < s && In(ws, 32 * k + s) && Gap(ws, 32 * k + b + 1, 32 * k + s)
  {
    hide Bit, And, Above;
    BitAnd(ws[k], Above(b), s);
    AboveBits(b, s);
    InAt(ws, k, s);
    forall c: nat | b < c < s
      ensures !Bit(ws[k], c)
    {
      BitAnd(ws[k], Above(b), c);
      AboveBits(b, c);
    }
    WordGap(ws, k, b + 1, s);
  }

  lemma {:induction false} FoundInWord(ws: seq<bv32>, k: nat, s: nat)
    requires k < |ws| && s < 32 && Bit(ws[k], s) && forall c: nat :: c < s ==> !Bit(ws[k], c)
    ensures In(ws, 32 * k + s) && Gap(ws, 32 * k, 32 * k + s)
  {
    hide Bit;
    InAt(ws, k, s);
    WordGap(ws, k, 0, s);
  }

  /** The lowest bit not set above bit `b`: the run ends there.  `w` agrees with the word above `b`. */
  lemma {:induction false} EndAbove(ws: seq<bv32>, k: nat, b: nat, w: bv32, s: nat)
    requires k < |ws| && b < 32 && s < 32 && Bit(And(Not(w), Above(b)), s)
    requires forall c: nat :: b < c < 32 ==> (Bit(w, c) <==> Bit(ws[k], c))
    requires forall c: nat :: c < s ==> !Bit(And(Not(w), Above(b)), c)
    ensures b < s && !In(ws, 32 * k + s) && Run(ws, 32 * k + b + 1, 32 * k + s)
  {
    hide Bit, And, Above, Not;
    BitAnd(Not(w), Above(b), s);
    BitNot(w, s);
    AboveBits(b, s);
    InAt(ws, k, s);
    forall c: nat | b < c < s
      ensures Bit(ws[k], c)
    {
      BitAnd(Not(w), Above(b), c);
      BitNot(w, c);
      AboveBits(b, c);
    }
    WordRun(ws, k, b + 1, s);
  }

  lemma {:induction false} EndInWord(ws: seq<bv32>, k: nat, s: nat)
    requires k < |ws| && s < 32 && Bit(Not(ws[k]), s) && forall c: nat :: c < s ==> !Bit(Not(ws[k]), c)
    ensures !In(ws, 32 * k + s) && Run(ws, 32 * k, 32 * k + s)
  {
    hide Bit, Not;
    BitNot(ws[k], s);
    InAt(ws, k, s);
    forall c: nat | c < s
      ensures Bit(ws[k], c)
    {
      BitNot(ws[k], c);
    }
    WordRun(ws, k, 0, s);
  }

  lemma {:induction false} RunOn(ws: seq<bv32>, a: nat, b: nat, c: nat)
    requires Run(ws, a, b) && Run(ws, b, c)
    ensures Run(ws, a, c)
  {
    hide In;
  }

  // ---- The last word ----

  /** Bits past the end are not set. */
  ghost predicate Clean(ws: seq<bv32>, bits: nat) {
    forall i: nat :: i >= bits ==> !In(ws, i)
  }

  function Masked(ws: seq<bv32>, bits: nat): seq<bv32> {
    if ws == [] then ws else ws[|ws| - 1 := And(ws[|ws| - 1], LastMask(bits))]
  }

  lemma {:induction false} AllOnes(w: bv32)
    ensures And(w, 0xFFFF_FFFF) == w
  {
  }

  lemma {:induction false} MaskBits(bits: nat, w: bv32, k: nat, c: nat)
    requires c < 32 && SizeFor(bits) == k + 1
    ensures Bit(And(w, LastMask(bits)), c) <==> Bit(w, c) && 32 * k + c < bits
  {
    hide Bit, And, Low;
    if bits % 32 > 0 {
      BitAnd(w, Low(bits % 32), c);
      LowBits(bits % 32, c);
    } else {
      AllOnes(w);
    }
  }

  /** Masking the last word clears the bits past the end and no other. */
  lemma {:induction false} MaskedIn(ws: seq<bv32>, bits: nat, i: nat)
    requires |ws| == SizeFor(bits)
    ensures In(Masked(ws, bits), i) <==> i < bits && In(ws, i)
  {
    hide Bit, And, LastMask;
    if i / 32 == |ws| - 1 {
      MaskBits(bits, ws[i / 32], i / 32, i % 32);
    }
  }

  class BitVector {
    const bits: nat
    const words: array<bv32>

    ghost predicate Valid() {
      words.Length == SizeFor(bits)
    }

    ghost predicate Has(i: nat)
      reads words
    {
      i < bits && In(words[..], i)
    }

    constructor (bits: nat)
      ensures Valid() && this.bits == bits && fresh(words)
      ensures forall i: nat :: !Has(i)
      ensures Clean(words[..], bits)
    {
      this.bits := bits;
      words := new bv32[SizeFor(bits)](_ => 0);
      new;
      forall i: nat
        ensures !In(words[..], i)
      {
        BitZero(i % 32);
      }
    }

    method Test(i: nat) returns (b: bool)
      requires Valid() && i < bits
      ensures b <==> Has(i)
    {
      hide One, And;
      b := And(words[i / 32], One(i % 32)) != 0;
    }

    /** Sets bit `i` and no other. */
    method Set(i: nat)
      requires Valid() && i < bits
      modifies words
      ensures forall j: nat :: Has(j) <==> old(Has(j)) || j == i
      ensures old(Clean(words[..], bits)) ==> Clean(words[..], bits)
    {
      hide Bit, Or, One;
      words[i / 32] := Or(words[i / 32], One(i % 32));
      forall j: nat
        ensures In(words[..], j) <==> old(In(words[..], j)) || j == i
      {
        if j / 32 == i / 32 {
          BitSet(old(words[..])[i / 32], i % 32, j % 32);
          assert j % 32 == i % 32 ==> j == i;
        }
      }
    }

    /** Sets, in place and word by word, every bit that is set in `y`. */
    method OrAssign(y: BitVector)
      requires Valid() && y.Valid() && y.bits == bits && bits > 0
      modifies words
      ensures forall j: nat :: Has(j) <==> old(Has(j)) || old(y.Has(j))
      ensures Clean(words[..], bits)
    {
      hide In, Or, LastMask, And;
      ghost var xs, ys := words[..], y.words[..];
      for k := 0 to words.Length
        invariant forall i :: 0 <= i < k ==> words[i] == Or(xs[i], ys[i])
        invariant forall i :: k <= i < words.Length ==> words[i] == xs[i] && y.words[i] == ys[i]
      {
        words[k] := Or(words[k], y.words[k]);
      }
      ghost var zs := words[..];
      ClearUnused();
      forall j: nat
        ensures In(zs, j) <==> In(xs, j) || In(ys, j)
      {
        OrIn(xs, ys, zs, j);
      }
    }

    /** Sets exactly the bits that are set in both `y` and `z`. */
    method AssignAnd(y: BitVector, z: BitVector)
      requires Valid() && y.Valid() && z.Valid() && y.bits == z.bits == bits && bits > 0
      requires words != y.words && words != z.words
      modifies words
      ensures forall j: nat :: Has(j) <==> y.Has(j) && z.Has(j)
    {
      hide In, And, LastMask;
      for k := 0 to words.Length
        invariant forall i :: 0 <= i < k ==> words[i] == And(y.words[i], z.words[i])
      {
        words[k] := And(y.words[k], z.words[k]);
      }
      ghost var ws := words[..];
      ClearUnused();
      forall j: nat
        ensures In(ws, j) <==> In(y.words[..], j) && In(z.words[..], j)
      {
        AndIn(y.words[..], z.words[..], ws, j);
      }
    }

    method IsEmpty() returns (empty: bool)
      requires Valid()
      modifies words
      ensures forall j: nat :: Has(j) <==> old(Has(j))
      ensures empty <==> forall j: nat :: !Has(j)
    {
      hide In, Bit;
      if words.Length == 0 {
        return true;
      }
      ClearUnused();
      var k := SkipZeros(0);
      empty := k == words.Length;
      if empty {
        forall j: nat
          ensures !In(words[..], j)
        {
          if j >= 32 * k {
            PastWords(words[..], j);
          }
        }
      } else {
        var s := LowestBit(words[k]);
        InAt(words[..], k, s);
        assert Has(32 * k + s);
      }
    }

    /** Clears the bits past the end. */
    method ClearUnused()
      requires Valid() && bits > 0
      modifies words
      ensures words[..] == Masked(old(words[..]), bits)
      ensures forall i: nat :: In(words[..], i) <==> old(Has(i))
    {
      hide In, LastMask, And;
      words[words.Length - 1] := And(words[words.Length - 1], LastMask(bits));
      assert words[..] == Masked(old(words[..]), bits);
      forall i: nat
        ensures In(words[..], i) <==> old(Has(i))
      {
        MaskedIn(old(words[..]), bits, i);
      }
    }

    /** The next run of set bits at or after `start`: its first and its last bit. */
    method Scan(start: nat) returns (found: bool, min: nat, max: nat)
      requires Valid()
      modifies words
      ensures forall i: nat :: Has(i) <==> old(Has(i))
      ensures !found ==> forall i: nat :: start <= i ==> !Has(i)
      ensures found ==> start <= min <= max < bits
      ensures found ==> forall i: nat :: start <= i < min ==> !Has(i)
      ensures found ==> (forall i: nat :: min <= i <= max ==> Has(i)) && !Has(max + 1)
    {
      hide In, Above, And, One, Not, Bit, LastMask;
      min, max := start, start;
      if words.Length == 0 || start >= bits {
        return false, min, max;
      }
      ClearUnused();
      ghost var ws := words[..];
      var offset, bit := start / 32, start % 32;
      var value := words[offset];
      BitAt(ws, offset, bit);
      if And(value, One(bit)) == 0 {
        found, offset, bit, value := NextSet(offset, bit);
        if !found {
          return false, min, max;
        }
        min := 32 * offset + bit;
      }
      var end := EndOfRun(offset, bit, value);
      found := true;
      max := end - 1;
      assert In(ws, max);
    }

    /** The first set bit above bit `bit` of word `offset`, and the word it was found in. */
    method NextSet(offset: nat, bit: nat) returns (found: bool, k: nat, s: nat, value: bv32)
      requires Valid() && offset < words.Length && bit < 32 && !In(words[..], 32 * offset + bit)
      ensures found ==> k < words.Length && s < 32 && In(words[..], 32 * k + s) && 32 * offset + bit < 32 * k + s
      ensures found ==> Gap(words[..], 32 * offset + bit, 32 * k + s)
      ensures found ==> forall c: nat :: s < c < 32 ==> (Bit(value, c) <==> Bit(words[k], c))
      ensures !found ==> Gap(words[..], 32 * offset + bit, 32 * words.Length)
    {
      hide In, Above, And, Bit, One;
      ghost var ws := words[..];
      value := And(words[offset], Above(bit));
      k := offset;
      if value == 0 {
        AboveGap(ws, offset, bit);
        k := SkipZeros(offset + 1);
        if k == words.Length {
          return false, k, 0, value;
        }
        value := words[k];
        s := LowestBit(value);
        FoundInWord(ws, k, s);
      } else {
        s := LowestBit(value);
        FoundAbove(ws, k, bit, s);
        SameAbove(words[k], bit, s);
      }
      found := true;
    }

    method LowestBit(w: bv32) returns (s: nat)
      requires w != 0
      ensures s < 32 && Bit(w, s) && forall k: nat :: k < s ==> !Bit(w, k)
    {
      hide Bit, One;
      var bitmask;
      s, bitmask := Lowest(w);
    }

    /** The first word from `offset` on that is not zero. */
    method SkipZeros(offset: nat) returns (k: nat)
      requires Valid() && offset <= words.Length
      ensures offset <= k <= words.Length && Gap(words[..], 32 * offset, 32 * k)
      ensures k < words.Length ==> words[k] != 0
    {
      hide In;
      k := offset;
      var size := words.Length - offset;
      while size > 0
        invariant k + size == words.Length && size >= 0 && offset <= k && Gap(words[..], 32 * offset, 32 * k)
      {
        if words[k] != 0 {
          return;
        }
        ZeroGap(words[..], k);
        k := k + 1;
        size := size - 1;
      }
    }

    /** The first word from `offset` on that is not all ones. */
    method SkipOnes(offset: nat) returns (k: nat)
      requires Valid() && offset <= words.Length
      ensures offset <= k <= words.Length && Run(words[..], 32 * offset, 32 * k)
      ensures k < words.Length ==> Not(words[k]) != 0
    {
      hide In, Not;
      k := offset;
      var size := words.Length - offset;
      while size > 0
        invariant k + size == words.Length && size >= 0 && offset <= k && Run(words[..], 32 * offset, 32 * k)
      {
        if Not(words[k]) != 0 {
          return;
        }
        OnesRun(words[..], k);
        RunOn(words[..], 32 * offset, 32 * k, 32 * (k + 1));
        k := k + 1;
        size := size - 1;
      }
    }

    /** Where the run that holds bit `s` of word `k` ends: the first bit after it. */
    method EndOfRun(k: nat, s: nat, value: bv32) returns (end: nat)
      requires Valid() && k < words.Length && s < 32 && In(words[..], 32 * k + s)
      requires forall c: nat :: s < c < 32 ==> (Bit(value, c) <==> Bit(words[k], c))
      ensures 32 * k + s < end && Run(words[..], 32 * k + s, end) && !In(words[..], end)
    {
      hide In, Above, And, Not, Bit;
      ghost var ws := words[..];
      var rest := And(Not(value), Above(s));
      RunFrom(ws, 32 * k + s);
      if rest == 0 {
        AboveRun(ws, k, s, value);
        RunOn(ws, 32 * k + s, 32 * k + s + 1, 32 * (k + 1));
        var offset := SkipOnes(k + 1);
        RunOn(ws, 32 * k + s, 32 * (k + 1), 32 * offset);
        if offset == words.Length {
          end := 32 * offset;
          PastWords(ws, end);
        } else {
          var e := LowestBit(Not(words[offset]));
          EndInWord(ws, offset, e);
          end := 32 * offset + e;
          RunOn(ws, 32 * k + s, 32 * offset, end);
        }
      } else {
        var e := LowestBit(rest);
        EndAbove(ws, k, s, value, e);
        end := 32 * k + e;
        RunOn(ws, 32 * k + s, 32 * k + s + 1, end);
      }
    }

    /** The number of set bits. */
    method Count() returns (count: nat)
      requires Valid()
      modifies words
      ensures forall i: nat :: Has(i) <==> old(Has(i))
      ensures count == |Elements()|
    {
      hide In;
      ghost var all := Elements();
      count := 0;
      var start := 0;
      var found, min, max := Scan(start);
      while found
        invariant forall i: nat :: Has(i) <==> old(Has(i))
        invariant all == Elements()
        invariant count == |set i | i in all && i < start|
        invariant found ==> start <= min <= max < bits
        invariant found ==> forall i: nat :: start <= i < min ==> !Has(i)
        invariant found ==> (forall i: nat :: min <= i <= max ==> Has(i)) && !Has(max + 1)
        invariant !found ==> forall i: nat :: start <= i ==> !Has(i)
        decreases found, bits + 2 - start
      {
        CountRun(all, start, min, max);
        count := count + (max - min + 1);
        start := max + 2;
        found, min, max := Scan(start);
        assert all == Elements();
      }
      assert (set i | i in all && i < start) == all;
    }

    ghost function Elements(): set<nat>
      reads words
    {
      set i: nat | i < bits && Has(i)
    }
  }

  lemma {:induction false} OrIn(xs: seq<bv32>, ys: seq<bv32>, zs: seq<bv32>, j: nat)
    requires |xs| == |ys| == |zs| && forall i :: 0 <= i < |zs| ==> zs[i] == Or(xs[i], ys[i])
    ensures In(zs, j) <==> In(xs, j) || In(ys, j)
  {
    hide Bit, Or;
    if j / 32 < |zs| {
      BitOr(xs[j / 32], ys[j / 32], j % 32);
    }
  }

  lemma {:induction false} AndIn(xs: seq<bv32>, ys: seq<bv32>, zs: seq<bv32>, j: nat)
    requires |xs| == |ys| == |zs| && forall i :: 0 <= i < |zs| ==> zs[i] == And(xs[i], ys[i])
    ensures In(zs, j) <==> In(xs, j) && In(ys, j)
  {
    hide Bit, And;
    if j / 32 < |zs| {
      BitAnd(xs[j / 32], ys[j / 32], j % 32);
    }
  }

  lemma {:induction false} BitAt(ws: seq<bv32>, k: nat, b: nat)
    requires k < |ws| && b < 32
    ensures In(ws, 32 * k + b) <==> And(ws[k], One(b)) != 0
  {
    InAt(ws, k, b);
  }

  lemma {:induction false} RunFrom(ws: seq<bv32>, a: nat)
    ensures In(ws, a) ==> Run(ws, a, a + 1)
  {
    hide In;
  }

  lemma {:induction false} SameAbove(w: bv32, b: nat, s: nat)
    requires b < s < 32
    ensures forall c: nat :: s < c < 32 ==> (Bit(And(w, Above(b)), c) <==> Bit(w, c))
  {
    hide Bit, And, Above;
    forall c: nat | s < c < 32
      ensures Bit(And(w, Above(b)), c) <==> Bit(w, c)
    {
      BitAnd(w, Above(b), c);
      AboveBits(b, c);
    }
  }

  lemma {:induction false} PastWords(ws: seq<bv32>, i: nat)
    requires i >= 32 * |ws|
    ensures !In(ws, i)
  {
  }

  /** One more run counted. */
  lemma {:induction false} CountRun(all: set<nat>, start: nat, min: nat, max: nat)
    requires start <= min <= max && (forall i: nat :: start <= i < min ==> i !in all)
    requires (forall i: nat :: min <= i <= max ==> i in all) && max + 1 !in all
    ensures |set i | i in all && i < max + 2| == |set i | i in all && i < start| + (max - min + 1)
  {
    var before := set i | i in all && i < start;
    var run := Range(min, max + 1);
    assert (set i | i in all && i < max + 2) == before + run;
  }

  ghost function Range(a: nat, b: nat): (r: set<nat>)
    requires a <= b
    ensures |r| == b - a && forall i: nat :: i in r <==> a <= i < b
    decreases b
  {
    if a == b then {} else
      var r := Range(a, b - 1);
      assert b - 1 !in r;
      r + {b - 1}
  }
}
