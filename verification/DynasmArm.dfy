/** What the action lists of dasm_arm.h mean: the items that a list puts, their sizes,
    and the words that they become. An action list is a sequence of 32-bit words; a
    word is an action if its upper half is below DASM_MAX. */
module DynasmArm {
  import opened Numbers

  const W32: nat := 0x1_0000_0000

  const DASM_STOP: nat := 0
  const DASM_SECTION: nat := 1
  const DASM_ESC: nat := 2
  const DASM_REL_EXT: nat := 3
  const DASM_ALIGN: nat := 4
  const DASM_REL_LG: nat := 5
  const DASM_LABEL_LG: nat := 6
  const DASM_REL_PC: nat := 7
  const DASM_LABEL_PC: nat := 8
  const DASM_IMM: nat := 9
  const DASM_IMM12: nat := 10
  const DASM_IMM16: nat := 11
  const DASM_IMML8: nat := 12
  const DASM_IMML12: nat := 13
  const DASM_IMMV8: nat := 14
  const DASM_MAX: nat := 15

  const NOP: nat := 0xe1a00000

  /** An action with the buffer position that it uses. */
  datatype Item =
    | Code(word: nat)
    | Align(mask: nat, slot: nat)
    | Label(ins: nat, slot: nat)
    | Rel(ins: nat, slot: nat)
    | Imm(ins: nat, slot: nat)

  predicate Mask(m: nat) { m in {0, 1, 3, 7, 15, 31, 63, 127, 255} }

  function Action(ins: nat): nat { ins / 0x10000 }

  datatype ActionList = ActionList(words: seq<nat>)
  {
    function Act(p: nat): nat
      requires p < |words|
    {
      Action(words[p])
    }

    predicate Last(p: nat)
      requires p < |words|
    {
      Act(p) == DASM_STOP || Act(p) == DASM_SECTION
    }

    function Next(p: nat): nat
      requires p < |words|
    {
      if Act(p) == DASM_ESC then p + 2 else p + 1
    }

    /** Does the action at `p` use a buffer position, and an argument? */
    predicate Slotted(p: nat)
      requires p < |words|
    {
      DASM_ALIGN <= Act(p) < DASM_MAX
    }

    predicate Argued(p: nat)
      requires p < |words|
    {
      DASM_REL_PC <= Act(p) < DASM_MAX
    }

    /** The list from `p` on ends, aligns to powers of two, and uses no external
        symbols. */
    predicate Formed(p: nat)
      decreases |words| - p
    {
      p < |words| && words[p] < W32 &&
      (Last(p) ||
       (Act(p) != DASM_REL_EXT && (Act(p) == DASM_ALIGN ==> Mask(words[p] % 256)) &&
        (Act(p) == DASM_ESC ==> p + 1 < |words| && words[p + 1] < W32) && Formed(Next(p))))
    }

    /** References and immediates patch an instruction just before. */
    predicate Patching(p: nat, code: bool)
      requires Formed(p)
      decreases |words| - p
    {
      Last(p) ||
      (match ItemAt(p, 0)
       case Code(_) => Patching(Next(p), true)
       case Align(_, _) => Patching(Next(p), false)
       case Label(_, _) => Patching(Next(p), code)
       case _ => code && Patching(Next(p), code))
    }

    function ItemAt(p: nat, q: nat): Item
      requires p < |words| && (Act(p) == DASM_ESC ==> p + 1 < |words|)
    {
      var a := Act(p);
      if a == DASM_ESC then Code(words[p + 1])
      else if a >= DASM_MAX then Code(words[p])
      else if a == DASM_ALIGN then Align(words[p] % 256, q)
      else if a == DASM_LABEL_LG || a == DASM_LABEL_PC then Label(words[p], q)
      else if a == DASM_REL_LG || a == DASM_REL_PC then Rel(words[p], q)
      else Imm(words[p], q)
    }

    /** The items that the list puts, with buffer positions from `q` on. */
    function Items(p: nat, q: nat): seq<Item>
      requires Formed(p)
      decreases |words| - p
    {
      if Last(p) then [] else [ItemAt(p, q)] + Items(Next(p), if Slotted(p) then q + 1 else q)
    }

    function Slots(p: nat): nat
      requires Formed(p)
      decreases |words| - p
    {
      if Last(p) then 0 else (if Slotted(p) then 1 else 0) + Slots(Next(p))
    }

    /** Where the list from `p` on ends. */
    function Stop(p: nat): (z: nat)
      requires Formed(p)
      ensures z < |words| && Last(z)
      decreases |words| - p
    {
      if Last(p) then p else Stop(Next(p))
    }

    /** The active section after the list from `p` was put into section `s`. */
    function SectionAfter(p: nat, s: nat): nat
      requires Formed(p)
    {
      if Act(Stop(p)) == DASM_SECTION then words[Stop(p)] % 256 else s
    }

    function Args(p: nat): nat
      requires Formed(p)
      decreases |words| - p
    {
      if Last(p) then 0 else (if Argued(p) then 1 else 0) + Args(Next(p))
    }

    // ----- section buffers -----

    predicate AllFormed(starts: seq<nat>)
      decreases |starts|
    {
      starts == [] || (Formed(starts[0]) && Patching(starts[0], false) && AllFormed(starts[1..]))
    }

    lemma {:induction false} AllFormedSnoc(starts: seq<nat>, p: nat)
      requires AllFormed(starts) && Formed(p) && Patching(p, false)
      ensures AllFormed(starts + [p])
      decreases |starts|
    {
      if starts == [] {
        assert [p][1..] == [];
      } else {
        AllFormedSnoc(starts[1..], p);
        assert (starts + [p])[1..] == starts[1..] + [p];
      }
    }

    /** The items of the lists put into a section. */
    function Blocks(starts: seq<nat>, q: nat): seq<Item>
      requires AllFormed(starts)
      decreases |starts|
    {
      if starts == [] then []
      else Items(starts[0], q + 1) + Blocks(starts[1..], q + 1 + Slots(starts[0]))
    }

    /** Where the section's buffer ends. */
    function End(starts: seq<nat>, q: nat): nat
      requires AllFormed(starts)
      decreases |starts|
    {
      if starts == [] then q else End(starts[1..], q + 1 + Slots(starts[0]))
    }

    lemma {:induction false} EndAfter(starts: seq<nat>, q: nat)
      requires AllFormed(starts)
      ensures if starts == [] then End(starts, q) == q else End(starts, q) > q
      decreases |starts|
    {
      if starts != [] { EndAfter(starts[1..], q + 1 + Slots(starts[0])); }
    }

    lemma {:induction false} BlocksSnoc(starts: seq<nat>, p: nat, q: nat)
      requires AllFormed(starts) && Formed(p) && Patching(p, false)
      ensures AllFormed(starts + [p])
      ensures Blocks(starts + [p], q) == Blocks(starts, q) + Items(p, End(starts, q) + 1)
      ensures End(starts + [p], q) == End(starts, q) + 1 + Slots(p)
      decreases |starts|
    {
      AllFormedSnoc(starts, p);
      if starts == [] {
        assert [p][1..] == [];
      } else {
        BlocksSnoc(starts[1..], p, q + 1 + Slots(starts[0]));
        assert (starts + [p])[1..] == starts[1..] + [p];
      }
    }
  }

  // ----- offsets -----

  /** The bytes that an item takes at most. */
  function MaxSize(i: Item): nat {
    match i
    case Code(_) => 4
    case Align(m, _) => m
    case _ => 0
  }

  /** The offset after the items, with every alignment as long as it can be. */
  function Estimate(items: seq<Item>): nat
    decreases |items|
  {
    if items == [] then 0 else MaxSize(items[0]) + Estimate(items[1..])
  }

  lemma {:induction false} EstimateAppend(a: seq<Item>, b: seq<Item>)
    ensures Estimate(a + b) == Estimate(a) + Estimate(b)
    decreases |a|
  {
    if a == [] {
      assert a + b == b;
    } else {
      EstimateAppend(a[1..], b);
      assert (a + b)[1..] == a[1..] + b;
    }
  }

  /** The least multiple of `m + 1` from `o` on. */
  function AlignUp(o: nat, m: nat): nat { o + m - (o + m) % (m + 1) }

  predicate Aligned(o: nat, m: nat) { o % (m + 1) == 0 }

  lemma {:induction false} AlignUpIs(o: nat, m: nat)
    ensures o <= AlignUp(o, m) <= o + m && Aligned(AlignUp(o, m), m)
    ensures AlignUp(o, m) == o <==> Aligned(o, m)
  {
    var d := m + 1;
    var j, r := (o + m) / d, (o + m) % d;
    assert AlignUp(o, m) == j * d;
    DivIs(j * d, d, j, 0);
    if o % d == 0 { DivIs(o + m, d, o / d, m); }
  }

  lemma {:induction false} LowMask(o: nat, m: nat)
    requires m <= 1 && o % 4 == 0
    ensures AlignUp(o, m) == o && Aligned(o, m)
  {
    DivIs(o, 2, 2 * (o / 4), 0);
    DivIs(o, 1, o, 0);
    AlignUpIs(o, m);
  }

  lemma {:induction false} MaskWords(m: nat)
    requires Mask(m) && m > 1
    ensures m + 1 == 4 * ((m + 1) / 4)
  {
  }

  lemma {:induction false} HighMask(a: nat, e: nat, i: nat, s: nat)
    requires e > 0 && a == i * e + s && s < e
    ensures AlignUp(4 * a, 4 * e - 1) % 4 == 0
    ensures !Aligned(4 * a, 4 * e - 1) ==> AlignUp(4 * a + 4, 4 * e - 1) == AlignUp(4 * a, 4 * e - 1) >= 4 * a + 4
  {
    var d := 4 * e;
    assert i * d == 4 * (i * e) && (i + 1) * d == 4 * ((i + 1) * e) == i * d + d;
    DivIs(4 * a, d, i, 4 * s);
    if s == 0 {
      DivIs(4 * a + d - 1, d, i, d - 1);
      DivIs(4 * a, 4, a, 0);
    } else {
      DivIs(4 * ((i + 1) * e), 4, (i + 1) * e, 0);
      DivIs(4 * a + d - 1, d, i + 1, 4 * s - 1);
      DivIs(4 * a + 4 + d - 1, d, i + 1, 4 * s + 3);
    }
  }

  lemma {:induction false} WordMask(a: nat, e: nat)
    requires e > 0
    ensures AlignUp(4 * a, 4 * e - 1) % 4 == 0
    ensures !Aligned(4 * a, 4 * e - 1) ==> AlignUp(4 * a + 4, 4 * e - 1) == AlignUp(4 * a, 4 * e - 1) >= 4 * a + 4
  {
    HighMask(a, e, a / e, a % e);
  }

  /** In steps of whole words, the way to an alignment keeps its end. */
  lemma {:induction false} AlignUpWords(o: nat, m: nat)
    requires Mask(m) && o % 4 == 0
    ensures AlignUp(o, m) % 4 == 0
    ensures !Aligned(o, m) ==> AlignUp(o + 4, m) == AlignUp(o, m) >= o + 4
  {
    if m <= 1 {
      LowMask(o, m);
    } else {
      MaskWords(m);
      var a, e := o / 4, (m + 1) / 4;
      assert o == 4 * a && m == 4 * e - 1;
      WordMask(a, e);
    }
  }

  /** The words from word `k` to its alignment. */
  function Padding(k: nat, m: nat): nat {
    AlignUpIs(4 * k, m);
    (AlignUp(4 * k, m) - 4 * k) / 4
  }

  lemma {:induction false} PaddingIs(k: nat, m: nat)
    requires Mask(m)
    ensures 4 * (k + Padding(k, m)) == AlignUp(4 * k, m)
    ensures if Aligned(4 * k, m) then Padding(k, m) == 0 else Padding(k, m) == Padding(k + 1, m) + 1
  {
    var a := AlignUp(4 * k, m);
    AlignUpIs(4 * k, m);
    DivIs(4 * k, 4, k, 0);
    AlignUpWords(4 * k, m);
    DivIs(a, 4, a / 4, 0);
    DivIs(a - 4 * k, 4, a / 4 - k, 0);
    if !Aligned(4 * k, m) { DivIs(a - 4 * k - 4, 4, a / 4 - k - 1, 0); }
  }

  /** The true offset after an item at offset `o`. */
  function After(i: Item, o: nat): nat {
    match i
    case Code(_) => o + 4
    case Align(m, _) => AlignUp(o, m)
    case _ => o
  }

  function Offset(items: seq<Item>, o: nat): nat
    decreases |items|
  {
    if items == [] then o else Offset(items[1..], After(items[0], o))
  }

  lemma {:induction false} OffsetAppend(a: seq<Item>, b: seq<Item>, o: nat)
    ensures Offset(a + b, o) == Offset(b, Offset(a, o))
    decreases |a|
  {
    if a == [] {
      assert a + b == b;
    } else {
      OffsetAppend(a[1..], b, After(a[0], o));
      assert (a + b)[1..] == a[1..] + b;
    }
  }

  // ----- bits -----

  function BitOr(a: nat, b: nat): nat {
    if a == 0 then b
    else if b == 0 then a
    else (if a % 2 == 1 || b % 2 == 1 then 1 else 0) + 2 * BitOr(a / 2, b / 2)
  }

  /** The `n` bits of `x` from bit `from` on. */
  function Bits(x: nat, from: nat, n: nat): nat { x / Pow2(from) % Pow2(n) }

  lemma {:induction false} Halves(x: nat, d: nat, q: nat, r: nat)
    requires d > 0 && x / 2 == q * d + r && r < d
    ensures x == q * (2 * d) + (2 * r + x % 2)
  {
    assert q * (2 * d) == 2 * (q * d);
  }

  /** Bits below the lowest fall away. */
  lemma {:induction false} BitsDown(x: nat, from: nat, n: nat)
    requires from > 0
    ensures Bits(x, from, n) == Bits(x / 2, from - 1, n)
  {
    var d := Pow2(from - 1);
    var q, r := x / 2 / d, x / 2 % d;
    Halves(x, d, q, r);
    DivIs(x, 2 * d, q, 2 * r + x % 2);
  }

  lemma {:induction false} LowBits(x: nat, n: nat)
    ensures Bits(x, 0, n) == x % Pow2(n)
  {
    DivIs(x, 1, x, 0);
  }

  lemma {:induction false} BitsFirst(x: nat, n: nat)
    requires n > 0
    ensures Bits(x, 0, n) == x % 2 + 2 * Bits(x / 2, 0, n - 1)
  {
    var d := Pow2(n - 1);
    var q, r := x / 2 / d, x / 2 % d;
    Halves(x, d, q, r);
    DivIs(x, 2 * d, q, 2 * r + x % 2);
    LowBits(x, n);
    LowBits(x / 2, n - 1);
  }

  lemma {:induction false} BitsAre(x: nat, from: nat, n: nat, hi: nat, mid: nat, lo: nat)
    requires x == (hi * Pow2(n) + mid) * Pow2(from) + lo && mid < Pow2(n) && lo < Pow2(from)
    ensures Bits(x, from, n) == mid
  {
    DivIs(x, Pow2(from), hi * Pow2(n) + mid, lo);
    DivIs(hi * Pow2(n) + mid, Pow2(n), hi, mid);
  }

  /** The same bits, one by one. */
  function EachBit(x: nat, from: nat, n: nat): nat
    decreases from, n
  {
    if from > 0 then EachBit(x / 2, from - 1, n)
    else if n == 0 then 0
    else x % 2 + 2 * EachBit(x / 2, 0, n - 1)
  }

  lemma {:induction false} EachBitIs(x: nat, from: nat, n: nat)
    ensures EachBit(x, from, n) == Bits(x, from, n)
    decreases from, n
  {
    if from > 0 {
      BitsDown(x, from, n);
      EachBitIs(x / 2, from - 1, n);
    } else if n > 0 {
      BitsFirst(x, n);
      EachBitIs(x / 2, 0, n - 1);
    } else {
      DivIs(x, 1, x, 0);
    }
  }

  lemma {:induction false} EachBitOr(a: nat, b: nat, from: nat, n: nat)
    requires EachBit(a, from, n) == 0
    ensures EachBit(BitOr(a, b), from, n) == EachBit(b, from, n)
    decreases from, n
  {
    if b == 0 {
      BitsAre(0, from, n, 0, 0, 0);
      EachBitIs(0, from, n);
    } else if a != 0 {
      if from > 0 {
        EachBitOr(a / 2, b / 2, from - 1, n);
      } else if n > 0 {
        EachBitOr(a / 2, b / 2, 0, n - 1);
      }
    }
  }

  /** A field that is clear takes what is or'ed into it. */
  lemma {:induction false} BitsOr(a: nat, b: nat, from: nat, n: nat)
    requires Bits(a, from, n) == 0
    ensures Bits(BitOr(a, b), from, n) == Bits(b, from, n)
  {
    EachBitIs(a, from, n);
    EachBitIs(b, from, n);
    EachBitIs(BitOr(a, b), from, n);
    EachBitOr(a, b, from, n);
  }

  // ----- instruction fields -----

  /** The forms of a PC-relative operand: a branch, and loads with an offset of 8, 12,
      or 8 times 4 bits beside a bit for its sign. */
  datatype Form = Branch | Load8 | Load12 | Load32

  function FormOf(ins: nat): Form {
    if ins / 0x800 % 2 == 0 then Branch
    else if ins / 0x1000 % 2 == 1 then Load8
    else if ins / 0x2000 % 2 == 0 then Load12
    else Load32
  }

  /** The checks of dasm_encode. */
  predicate InRange(f: Form, n: int) {
    n % 4 == 0 &&
    match f
    case Branch => (n + 0x02000000) / 0x4000000 == 0
    case Load8 => -256 <= n <= 256
    case Load12 => -4096 <= n <= 4096
    case Load32 => -1020 <= n <= 1020
  }

  /** DASM_IMML8 and DASM_IMML12. */
  function Imml8(n: int): nat {
    if n >= 0 then 0x800000 + n % 16 + n / 16 % 16 * 256 else (-n) % 16 + (-n) / 16 % 16 * 256
  }

  function Imml12(n: int): nat {
    if n >= 0 then BitOr(0x800000, n) else -n
  }

  function Field(f: Form, n: int): nat {
    match f
    case Branch => n / 4 % 0x1000000
    case Load8 => Imml8(n)
    case Load12 => Imml12(n)
    case Load32 => Imml12(n / 4)
  }

  /** The displacement that the processor reads from an instruction. */
  function Displacement(f: Form, w: nat): int {
    match f
    case Branch =>
      var v := Bits(w, 0, 24);
      4 * (if v < 0x800000 then v else v - 0x1000000)
    case Load8 => Signed(w, Bits(w, 0, 4) + 16 * Bits(w, 8, 4))
    case Load12 => Signed(w, Bits(w, 0, 12))
    case Load32 => Signed(w, 4 * Bits(w, 0, 8))
  }

  function Signed(w: nat, n: nat): int { if Bits(w, 23, 1) == 1 then n else -(n as int) }

  /** The operand's bits are clear in the instruction. */
  predicate Clear(f: Form, w: nat) {
    match f
    case Branch => Bits(w, 0, 24) == 0
    case Load8 => Bits(w, 0, 4) == 0 && Bits(w, 8, 4) == 0 && Bits(w, 23, 1) == 0
    case Load12 => Bits(w, 0, 12) == 0 && Bits(w, 23, 1) == 0
    case Load32 => Bits(w, 0, 8) == 0 && Bits(w, 23, 1) == 0
  }

  lemma {:induction false} ClearPatched(f: Form, w: nat, field: nat)
    requires Clear(f, w)
    ensures Displacement(f, BitOr(w, field)) == Displacement(f, field)
  {
    match f {
      case Branch =>
        BitsOr(w, field, 0, 24);
      case Load8 =>
        BitsOr(w, field, 0, 4);
        BitsOr(w, field, 8, 4);
        BitsOr(w, field, 23, 1);
      case Load12 =>
        BitsOr(w, field, 0, 12);
        BitsOr(w, field, 23, 1);
      case Load32 =>
        BitsOr(w, field, 0, 8);
        BitsOr(w, field, 23, 1);
    }
  }

  /** The range checks of loads let one value on either side too many pass. */
  predicate Fits(f: Form, n: int) {
    match f
    case Load8 => n != 256 && n != -256
    case Load12 => n != 4096 && n != -4096
    case _ => true
  }

  lemma {:induction false} BitOrSwaps(a: nat, b: nat)
    ensures BitOr(a, b) == BitOr(b, a)
    decreases a
  {
    if a != 0 && b != 0 { BitOrSwaps(a / 2, b / 2); }
  }

  lemma {:induction false} Pow2Values()
    ensures Pow2(0) == 1 && Pow2(1) == 2 && Pow2(4) == 16 && Pow2(8) == 256 && Pow2(12) == 4096
    ensures Pow2(23) == 0x800000 && Pow2(24) == 0x1000000
  {
    assert Pow2(10) == 1024;
    assert Pow2(16) == 0x10000;
    assert Pow2(20) == 0x100000;
  }

  /** An offset of up to 13 bits beside its sign bit. */
  lemma {:induction false} Imml12Reads(m: nat, n: nat, hi: nat, lo: nat)
    requires m <= 0x2000 && 0 < n <= 12 && m == hi * Pow2(n) + lo && lo < Pow2(n)
    ensures var w := BitOr(0x800000, m);
      Bits(m, 0, n) == lo == Bits(w, 0, n) && Bits(m, 23, 1) == 0 && Bits(w, 23, 1) == 1
  {
    Pow2Values();
    BitsAre(m, 0, n, hi, lo, 0);
    BitsAre(m, 23, 1, 0, 0, m);
    BitsAre(0x800000, 23, 1, 0, 1, 0);
    Pow2Splits(23, n);
    BitsAre(0x800000, 0, n, Pow2(23 - n), 0, 0);
    BitsOr(0x800000, m, 0, n);
    BitOrSwaps(0x800000, m);
    BitsOr(m, 0x800000, 23, 1);
  }

  lemma {:induction false} Pow2Splits(n: nat, k: nat)
    requires k <= n
    ensures Pow2(n) == Pow2(n - k) * Pow2(k)
  {
    if k > 0 { Pow2Splits(n, k - 1); }
  }

  lemma {:induction false} Imml8Reads(top: nat, hi: nat, lo: nat)
    requires top <= 1 && hi < 16 && lo < 16
    ensures var w := top * 0x800000 + lo + hi * 256;
      Bits(w, 0, 4) == lo && Bits(w, 8, 4) == hi && Bits(w, 23, 1) == top
  {
    var w := top * 0x800000 + lo + hi * 256;
    Pow2Values();
    BitsAre(w, 0, 4, top * 0x80000 + hi * 16, lo, 0);
    BitsAre(w, 8, 4, top * 0x800, hi, lo);
    BitsAre(w, 23, 1, 0, top, hi * 256 + lo);
  }

  lemma {:induction false} Load8At(n: int, hi: nat, lo: nat)
    requires (if n >= 0 then n else -n) == 16 * hi + lo && hi < 16 && lo < 16
    ensures Displacement(Load8, Field(Load8, n)) == n
  {
    DivIs(16 * hi + lo, 16, hi, lo);
    DivIs(hi, 16, 0, hi);
    Imml8Reads(if n >= 0 then 1 else 0, hi, lo);
  }

  lemma {:induction false} Load8Reads(n: int)
    requires -256 <= n <= 256
    ensures Displacement(Load8, Field(Load8, n)) == n <==> n != 256 && n != -256
  {
    if n == 256 || n == -256 {
      Imml8Reads(if n >= 0 then 1 else 0, 0, 0);
    } else {
      var m := if n >= 0 then n else -n;
      Load8At(n, m / 16, m % 16);
    }
  }

  lemma {:induction false} Load12Reads(n: int)
    requires -4096 <= n <= 4096
    ensures Displacement(Load12, Field(Load12, n)) == n <==> n != 4096 && n != -4096
  {
    var m := if n >= 0 then n else -n;
    if m == 4096 { Imml12Reads(m, 12, 1, 0); } else { Imml12Reads(m, 12, 0, m); }
  }

  lemma {:induction false} Load32Reads(n: int, k: int)
    requires -1020 <= n <= 1020 && n == 4 * k
    ensures Displacement(Load32, Field(Load32, n)) == n
  {
    var m := if k >= 0 then k else -k;
    assert n / 4 == k;
    Pow2Values();
    Imml12Reads(m, 8, 0, m);
  }

  lemma {:induction false} BranchReads(n: int, m: int)
    requires n == 4 * m && -0x800000 <= m < 0x800000
    ensures Displacement(Branch, Field(Branch, n)) == n
  {
    var v := if m >= 0 then m else m + 0x1000000;
    Pow2Values();
    assert n / 4 % 0x1000000 == v;
    BitsAre(v, 0, 24, 0, v, 0);
  }

  /** The processor reads the displacement that was encoded, unless the encoder's
      range check let one too many pass. */
  lemma {:induction false} FieldReads(f: Form, n: int)
    requires InRange(f, n)
    ensures Displacement(f, Field(f, n)) == n <==> Fits(f, n)
  {
    match f {
      case Branch => BranchReads(n, n / 4);
      case Load8 => Load8Reads(n);
      case Load12 => Load12Reads(n);
      case Load32 => Load32Reads(n, n / 4);
    }
  }

  // ----- immediates -----

  function Rotl(n: nat): nat { n * 4 % W32 + n / 0x40000000 }

  function Rotr(n: nat): nat { n / 4 + n % 4 * 0x40000000 }

  /** Rotations by two bits, `i` times. */
  function Rotls(n: nat, i: nat): nat
    decreases i
  {
    if i == 0 then n else Rotls(Rotl(n), i - 1)
  }

  function Rotrs(n: nat, i: nat): nat { if i == 0 then n else Rotr(Rotrs(n, i - 1)) }

  lemma {:induction false} RotrRotl(n: nat)
    requires n < W32
    ensures Rotl(n) < W32 && Rotr(Rotl(n)) == n
  {
    var hi, lo := n / 0x40000000, n % 0x40000000;
    assert n * 4 == hi * W32 + lo * 4;
    assert Rotl(n) == lo * 4 + hi;
  }

  lemma {:induction false} RotrsRotls(n: nat, i: nat)
    requires n < W32
    ensures Rotls(n, i) < W32 && Rotrs(Rotls(n, i), i) == n
    decreases i
  {
    if i > 0 {
      RotrRotl(n);
      RotrsRotls(Rotl(n), i - 1);
    }
  }

  /** The immediate of a data processing instruction: eight bits and a rotation. */
  function Imm12At(n: nat, i: nat): int
    decreases 16 - i
  {
    if i >= 16 then -1 else if n <= 255 then n + 256 * i else Imm12At(Rotl(n), i + 1)
  }

  /** dasm_imm12 */
  method Imm12(n: nat) returns (r: int)
    requires n < W32
    ensures r == Imm12At(n, 0)
  {
    var i, m := 0, n;
    while i < 16
      invariant 0 <= i <= 16 && Imm12At(m, i) == Imm12At(n, 0)
    {
      if m <= 255 { return m + 256 * i; }
      i, m := i + 1, Rotl(m);
    }
    r := -1;
  }

  /** The processor rotates the immediate back; there is none only if no rotation fits. */
  lemma {:induction false} Imm12Is(n: nat)
    requires n < W32
    ensures var r := Imm12At(n, 0);
      if r == -1 then forall i :: 0 <= i < 16 ==> Rotls(n, i) > 255
      else 0 <= r < 0x1000 && Rotrs(r % 256, r / 256) == n
  {
    Imm12From(n, 0);
  }

  lemma {:induction false} Imm12From(n: nat, i: nat)
    requires n < W32 && i <= 16
    ensures var r := Imm12At(Rotls(n, i), i);
      if r == -1 then forall j :: i <= j < 16 ==> Rotls(n, j) > 255
      else 0 <= r < 0x1000 && Rotrs(r % 256, r / 256) == n
    decreases 16 - i
  {
    var m := Rotls(n, i);
    if i < 16 && m > 255 {
      RotlsNext(n, i);
      Imm12From(n, i + 1);
    } else if i < 16 {
      RotrsRotls(n, i);
      DivIs(m + 256 * i, 256, i, m);
    }
  }

  lemma {:induction false} RotlsNext(n: nat, i: nat)
    ensures Rotls(n, i + 1) == Rotl(Rotls(n, i))
    decreases i
  {
    if i > 0 { RotlsNext(Rotl(n), i - 1); }
  }

  function Width(ins: nat): nat { ins / 32 % 32 }

  function Scale(ins: nat): nat { ins / 1024 % 32 }

  /** The checks of dasm_put. */
  predicate ImmOk(ins: nat, n: int) {
    var w, a := Width(ins), Action(ins);
    if a == DASM_IMM || a == DASM_IMM16 then
      n % Pow2(Scale(ins)) == 0 &&
      (if ins / 0x8000 % 2 == 1 then (n + (if w == 0 then 0 else Pow2(w - 1))) / Pow2(w) == 0 else n / Pow2(w) == 0)
    else if a == DASM_IMM12 then Imm12At(n % W32, 0) != -1
    else if a == DASM_IMMV8 then n % 4 == 0 && (if n / 4 >= 0 then n / 4 else -(n / 4)) / Pow2(w) == 0
    else (if n >= 0 then n else -n) / Pow2(w) == 0
  }

  /** What is stored for an immediate. */
  function ImmValue(ins: nat, n: int): int { if Action(ins) == DASM_IMMV8 then n / 4 else n }

  /** What is or'ed into the instruction, from the stored value. */
  function ImmField(ins: nat, n: int): nat {
    var a := Action(ins);
    if a == DASM_IMM then n / Pow2(Scale(ins)) % Pow2(Width(ins)) * Pow2(ins % 32) % W32
    else if a == DASM_IMM12 then Imm12At(n % W32, 0) % W32
    else if a == DASM_IMM16 then n / 4096 % 16 * 65536 + n % 4096
    else if a == DASM_IMML8 then Imml8(n)
    else Imml12(n)
  }

  /** An unsigned immediate that passes the checks can be read back. */
  lemma {:induction false} ImmReads(ins: nat, n: int, w: nat)
    requires Action(ins) == DASM_IMM && ins / 0x8000 % 2 == 0 && ImmOk(ins, n)
    requires ins % 32 + Width(ins) < 32 && Bits(w, ins % 32, Width(ins)) == 0
    ensures Bits(BitOr(w, ImmField(ins, n)), ins % 32, Width(ins)) * Pow2(Scale(ins)) == n
  {
    var s, k := Pow2(Scale(ins)), Pow2(Width(ins));
    Quotient(n, k);
    Quotient(n, s);
    assert n == n / s * s && 0 <= n < k;
    assert n / s <= n by { Shrinks(n, s); }
    DivIs(n / s, k, 0, n / s);
    ReadBack(w, n / s, ins % 32, Width(ins));
  }

  /** So can a signed one, which is stored in two's complement. */
  lemma {:induction false} SignedImmReads(ins: nat, n: int, w: nat)
    requires Action(ins) == DASM_IMM && ins / 0x8000 % 2 == 1 && ImmOk(ins, n) && Width(ins) > 0
    requires ins % 32 + Width(ins) < 32 && Bits(w, ins % 32, Width(ins)) == 0
    ensures var k, v := Width(ins), Bits(BitOr(w, ImmField(ins, n)), ins % 32, Width(ins));
      (if v < Pow2(k - 1) then v else v - Pow2(k)) * Pow2(Scale(ins)) == n
  {
    var s, k, h := Pow2(Scale(ins)), Pow2(Width(ins)), Pow2(Width(ins) - 1);
    Quotient(n + h, k);
    Quotient(n, s);
    var m := n / s;
    assert n == m * s && 0 <= n + h && n < h;
    Between(m, s, h);
    var v := if m >= 0 then m else m + k;
    ModIs(m, k, v);
    ReadBack(w, v, ins % 32, Width(ins));
  }

  lemma {:induction false} Between(m: int, s: nat, h: nat)
    requires s > 0 && 0 <= m * s + h && m * s < h
    ensures 0 <= m + h && m < h
  {
    if m > 0 { Grows(s, m); } else if m < 0 { Grows(s, -m); }
  }

  lemma {:induction false} ModIs(m: int, k: nat, v: nat)
    requires v < k && (m == v || m == v - k)
    ensures m % k == v
  {
    if m == v - k {
      assert m % k == (m + k) % k by { Quotient(m, k); Quotient(m + k, k); SameRest(m, k); }
    }
    DivIs(v, k, 0, v);
  }

  lemma {:induction false} SameRest(m: int, k: nat)
    requires k > 0
    ensures (m + k) % k == m % k
  {
    Small((m + k) / k - m / k - 1, k);
  }

  lemma {:induction false} NarrowFits(m: nat, k: nat, n: nat)
    requires m / Pow2(k) == 0 && k <= n
    ensures m < Pow2(n)
  {
    Quotient(m, Pow2(k));
    Pow2Splits(n, k);
    Grows(Pow2(n - k), Pow2(k));
  }

  /** The offsets of loads, which the processor reads with their sign. */
  lemma {:induction false} Load8ImmReads(ins: nat, n: int, w: nat)
    requires Action(ins) == DASM_IMML8 && ImmOk(ins, n) && Width(ins) <= 8 && Clear(Load8, w)
    ensures Displacement(Load8, BitOr(w, ImmField(ins, ImmValue(ins, n)))) == n
  {
    NarrowFits(if n >= 0 then n else -n, Width(ins), 8);
    Pow2Values();
    Load8Reads(n);
    ClearPatched(Load8, w, Field(Load8, n));
  }

  lemma {:induction false} Load12ImmReads(ins: nat, n: int, w: nat)
    requires Action(ins) == DASM_IMML12 && ImmOk(ins, n) && Width(ins) <= 12 && Clear(Load12, w)
    ensures Displacement(Load12, BitOr(w, ImmField(ins, ImmValue(ins, n)))) == n
  {
    NarrowFits(if n >= 0 then n else -n, Width(ins), 12);
    Pow2Values();
    Load12Reads(n);
    ClearPatched(Load12, w, Field(Load12, n));
  }

  lemma {:induction false} Load32ImmReads(ins: nat, n: int, w: nat)
    requires Action(ins) == DASM_IMMV8 && ImmOk(ins, n) && Width(ins) <= 8 && Clear(Load32, w)
    ensures Displacement(Load32, BitOr(w, ImmField(ins, ImmValue(ins, n)))) == n
  {
    var k := n / 4;
    NarrowFits(if k >= 0 then k else -k, Width(ins), 8);
    Pow2Values();
    Load32Reads(n, k);
    ClearPatched(Load32, w, Field(Load32, n));
  }

  /** The two parts of a 16 bit immediate. */
  lemma {:induction false} Imm16Reads(ins: nat, n: int, w: nat)
    requires Action(ins) == DASM_IMM16 && ins / 0x8000 % 2 == 0 && Width(ins) <= 16 && ImmOk(ins, n)
    requires Bits(w, 0, 12) == 0 && Bits(w, 16, 4) == 0
    ensures var v := BitOr(w, ImmField(ins, n)); 4096 * Bits(v, 16, 4) + Bits(v, 0, 12) == n
  {
    var f := ImmField(ins, n);
    Quotient(n, Pow2(Width(ins)));
    NarrowFits(n, Width(ins), 16);
    Pow2Values();
    assert Pow2(16) == 0x10000;
    BitsAre(f, 0, 12, n / 4096 * 16, n % 4096, 0);
    BitsAre(f, 16, 4, 0, n / 4096, n % 4096);
    BitsOr(w, f, 0, 12);
    BitsOr(w, f, 16, 4);
  }

  lemma {:induction false} Shrinks(n: nat, d: nat)
    requires d > 0
    ensures n / d <= n
  {
    if n / d > 0 { Grows(d, n / d); }
  }

  lemma {:induction false} ReadBack(w: nat, v: nat, t: nat, k: nat)
    requires v < Pow2(k) && t + k < 32 && Bits(w, t, k) == 0
    ensures Bits(BitOr(w, v * Pow2(t) % W32), t, k) == v
  {
    FieldFits(v, t, k);
    DivIs(v * Pow2(t), W32, 0, v * Pow2(t));
    BitsAre(v * Pow2(t), t, k, 0, v, 0);
    BitsOr(w, v * Pow2(t), t, k);
  }

  lemma {:induction false} Quotient(n: int, d: nat)
    requires d > 0
    ensures n == n / d * d + n % d && (n / d == 0 ==> 0 <= n < d) && (n >= 0 ==> n / d >= 0)
  {
  }

  lemma {:induction false} FieldFits(v: nat, t: nat, k: nat)
    requires v < Pow2(k) && t + k < 32
    ensures v * Pow2(t) < W32
    decreases t
  {
    if t == 0 {
      Pow2Below(k);
    } else {
      var d := Pow2(t - 1);
      FieldFits(2 * v, t - 1, k + 1);
      assert v * (2 * d) == 2 * v * d;
    }
  }

  lemma {:induction false} Pow2Below(k: nat)
    requires k < 32
    ensures Pow2(k) < W32
  {
    Pow2Splits(32, k);
    Pow2Values();
    assert Pow2(28) == 0x10000000;
  }

  // ----- the words of the program -----

  function Nops(k: nat): seq<nat> { if k == 0 then [] else [NOP] + Nops(k - 1) }

  function PatchLast(out: seq<nat>, field: nat): seq<nat>
    requires out != []
  {
    out[|out| - 1 := BitOr(out[|out| - 1], field)]
  }

  /** Where the operand of a reference after `out` points, from the end of its
      instruction, less the four bytes that the processor is further ahead. */
  function Distance(out: seq<nat>, target: int): int { target - 4 * |out| - 4 }

  /** The words after an item; `cells` are the buffers. */
  function Emit(i: Item, out: seq<nat>, cells: map<nat, int>): seq<nat> {
    match i
    case Code(w) => out + [w]
    case Align(m, _) => out + Nops(Padding(|out|, m))
    case Label(_, _) => out
    case Rel(ins, q) =>
      if out == [] || q !in cells || cells[q] < 0 then out
      else
        var d: nat := cells[q];
        if d !in cells then out else PatchLast(out, Field(FormOf(ins), Distance(out, cells[d])))
    case Imm(ins, q) => if out == [] || q !in cells then out else PatchLast(out, ImmField(ins, cells[q]))
  }

  function EmitAll(items: seq<Item>, out: seq<nat>, cells: map<nat, int>): seq<nat>
    decreases |items|
  {
    if items == [] then out else EmitAll(items[1..], Emit(items[0], out, cells), cells)
  }
}
