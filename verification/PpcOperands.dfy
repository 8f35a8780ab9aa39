/**
 * The PowerPC operand table of the bedbug debugger, and how one operand is packed into an
 * instruction word by the assembler and unpacked again by the disassembler.
 */
module PpcOperands {
  import opened Words

  /** The operand identifiers. */
  datatype Field =
    | AA | BD | BI | BO | CrbD | CrbA | CrbB | CRM | D | FrC | FrD | FrS | IMM | LI | LK | MB | ME | NB | OE
    | RA | RB | Rc | RD | RS | SH | SIMM | SR | TO | UIMM | CrfD | CrfS | L | Spr | Tbr | Cr2

  datatype Kind = Silent | Address | Register | SprNumber | TbrNumber | Plain

  datatype Operand = Operand(bits: nat, shift: nat, kind: Kind)

  function Info(f: Field): (o: Operand)
    ensures o.bits + o.shift <= 32 && o.bits <= 24
  {
    match f
    case AA => Operand(1, 1, Silent)
    case BD => Operand(14, 2, Address)
    case BI => Operand(5, 16, Plain)
    case BO => Operand(5, 21, Plain)
    case CrbD => Operand(5, 21, Plain)
    case CrbA => Operand(5, 16, Plain)
    case CrbB => Operand(5, 11, Plain)
    case CRM => Operand(8, 12, Plain)
    case D => Operand(15, 0, Plain)
    case FrC => Operand(5, 6, Plain)
    case FrD => Operand(5, 21, Plain)
    case FrS => Operand(5, 21, Plain)
    case IMM => Operand(4, 12, Plain)
    case LI => Operand(24, 2, Address)
    case LK => Operand(1, 0, Silent)
    case MB => Operand(5, 6, Plain)
    case ME => Operand(5, 1, Plain)
    case NB => Operand(5, 11, Plain)
    case OE => Operand(1, 10, Silent)
    case RA => Operand(5, 16, Register)
    case RB => Operand(5, 11, Register)
    case Rc => Operand(1, 0, Silent)
    case RD => Operand(5, 21, Register)
    case RS => Operand(5, 21, Register)
    case SH => Operand(5, 11, Plain)
    case SIMM => Operand(16, 0, Plain)
    case SR => Operand(4, 16, Plain)
    case TO => Operand(5, 21, Plain)
    case UIMM => Operand(16, 0, Plain)
    case CrfD => Operand(3, 23, Plain)
    case CrfS => Operand(3, 18, Plain)
    case L => Operand(1, 21, Plain)
    case Spr => Operand(10, 11, SprNumber)
    case Tbr => Operand(10, 11, TbrNumber)
    case Cr2 => Operand(0, 0, Plain)
  }

  /** The bits of an instruction word that hold operand f. */
  function FieldMask(f: Field): Word { ShiftLeft(LowMask(Info(f).bits), Info(f).shift) }

  /** (data & mask) << shift, the last step of parsing an operand. */
  function Pack(f: Field, data: Word): Word { ShiftLeft(And(data, LowMask(Info(f).bits)), Info(f).shift) }

  /** (instr >> shift) & mask, the value of an operand in an instruction. */
  function Unpack(f: Field, instr: Word): Word { And(ShiftRight(instr, Info(f).shift), LowMask(Info(f).bits)) }

  lemma PackFits(f: Field, data: Word)
    ensures Within(Pack(f, data), FieldMask(f))
    ensures Unpack(f, Pack(f, data)) == And(data, LowMask(Info(f).bits))
  {
  }

  /** Unpacking looks at nothing but the bits of the field. */
  lemma UnpackLocal(f: Field, v: Word, w: Word)
    requires And(v, FieldMask(f)) == And(w, FieldMask(f))
    ensures Unpack(f, v) == Unpack(f, w)
  {
    var m := FieldMask(f);
    forall i | 0 <= i < 32
      ensures Unpack(f, v)[i] == Unpack(f, w)[i]
    {
      UnpackBit(f, v, i);
      UnpackBit(f, w, i);
      if i < Info(f).bits {
        MaskBit(f, i + Info(f).shift);
        SameAt(v, w, m, i + Info(f).shift);
      }
    }
  }

  lemma UnpackBit(f: Field, w: Word, i: nat)
    requires i < 32
    ensures Unpack(f, w)[i] == (i < Info(f).bits && w[i + Info(f).shift])
  {
  }

  lemma MaskBit(f: Field, j: nat)
    requires Info(f).shift <= j < Info(f).shift + Info(f).bits
    ensures j < 32 && FieldMask(f)[j]
  {
  }

  lemma SameAt(v: Word, w: Word, m: Word, j: nat)
    requires And(v, m) == And(w, m) && j < 32 && m[j]
    ensures v[j] == w[j]
  {
    assert And(v, m)[j] == And(w, m)[j];
  }

  /** SPR and TBR numbers are stored with their five-bit halves exchanged. */
  function SwapHalves(n: Word): Word {
    Or(And(ShiftRight(n, 5), LowMask(5)), ShiftLeft(And(n, LowMask(5)), 5))
  }

  lemma SwapHalvesTwice(n: Word)
    ensures SwapHalves(SwapHalves(n)) == And(n, LowMask(10))
    ensures And(SwapHalves(n), LowMask(10)) == SwapHalves(n)
  {
  }

  datatype AsmError = BadRegister | BadSpr | BadTbr | NumOperands

  datatype Parsed = Data(data: Word) | Bad(error: AsmError)

  /** a - b modulo 2^32. */
  function Minus(a: Word, b: Word): (d: Word)
    ensures Val(d) == Wrap(Val(a) - Val(b))
  {
    WordSize();
    ValOfBits(Wrap(Val(a) - Val(b)), 32);
    Bits(Wrap(Val(a) - Val(b)), 32)
  }

  /** a + b modulo 2^32. */
  function Plus(a: Word, b: Word): (d: Word)
    ensures Val(d) == Wrap(Val(a) + Val(b))
  {
    WordSize();
    ValOfBits(Wrap(Val(a) + Val(b)), 32);
    Bits(Wrap(Val(a) + Val(b)), 32)
  }

  /**
   * An address operand: the distance from the instruction (or the address itself) loses its two low
   * bits and keeps its sign in the field's top bit.
   */
  function AddressData(f: Field, distance: Word): Word
    requires Info(f).kind == Address
  {
    var bits := Info(f).bits;
    var data := And(ShiftRight(distance, 2), LowMask(bits - 1));
    if distance[31] then Or(data, ShiftLeft(LowMask(1), bits - 1)) else data
  }

  /** Interprets one operand whose text reads as number n, before it is masked and shifted. */
  function ParseOperand(memaddr: Word, relative: bool, f: Field, n: Word): Parsed {
    match Info(f).kind
    case Address => Data(AddressData(f, if relative then Minus(n, memaddr) else n))
    case Register => if !n[31] && Val(n) > 31 then Bad(BadRegister) else Data(n)
    case SprNumber => if true !in SwapHalves(n) then Bad(BadSpr) else Data(SwapHalves(n))
    case TbrNumber => if Val(n) != 268 && Val(n) != 269 then Bad(BadTbr) else Data(SwapHalves(n))
    case _ => Data(n)
  }

  /** A branch distance as the disassembler rebuilds it: sign-extended and multiplied by four. */
  function Distance(f: Field, operand: Word): Word
    requires Info(f).kind == Address
  {
    var bits := Info(f).bits;
    seq(32, i requires 0 <= i < 32 => i >= 2 && if i - 2 < bits then operand[i - 2] else operand[bits - 1])
  }

  /** The number the disassembler prints for operand f. */
  function Printed(memaddr: Word, relative: bool, f: Field, instr: Word): Word {
    var operand := Unpack(f, instr);
    match Info(f).kind
    case Address => if relative then Plus(Distance(f, operand), memaddr) else Distance(f, operand)
    case SprNumber | TbrNumber => SwapHalves(operand)
    case _ => operand
  }

  /** d is a multiple of four whose sign fits the field: bit 0 and 1 are clear, the top bits all equal the sign. */
  predicate Reachable(f: Field, d: Word) {
    !d[0] && !d[1] && SameAbove(d, Info(f).bits + 1)
  }

  lemma DistanceOfData(f: Field, d: Word)
    requires Info(f).kind == Address
    ensures var operand := And(AddressData(f, d), LowMask(Info(f).bits));
      Distance(f, operand) == d <==> Reachable(f, d)
  {
    var bits := Info(f).bits;
    var operand := And(AddressData(f, d), LowMask(bits));
    assert bits == 14 || bits == 24;
    AddressBits(f, d, bits);
    var r := Distance(f, operand);
    forall i | 2 <= i < 32
      ensures r[i] == if i <= bits then d[i] else d[31]
    {
      assert r[i] == operand[if i - 2 < bits then i - 2 else bits - 1];
    }
    if Reachable(f, d) {
      assert forall i | 0 <= i < 32 :: r[i] == d[i];
    }
  }

  lemma AddressBits(f: Field, d: Word, bits: nat)
    requires Info(f).kind == Address && bits == Info(f).bits > 1
    ensures forall i | 0 <= i < bits ::
      And(AddressData(f, d), LowMask(bits))[i] == if i < bits - 1 then d[i + 2] else d[31]
  {
    var one := ShiftLeft(LowMask(1), bits - 1);
    forall i | 0 <= i < 32
      ensures one[i] == (i == bits - 1)
    {
    }
  }

  /** The signed value of a word. */
  function Signed(d: Word): int { if d[31] then Val(d) - MODULUS else Val(d) }

  lemma {:induction false} ValExtremes(s: seq<bool>)
    ensures Val(s) == 0 <==> forall i | 0 <= i < |s| :: !s[i]
    ensures Val(s) == Pow2(|s|) - 1 <==> forall i | 0 <= i < |s| :: s[i]
  {
    if s != [] {
      ValExtremes(s[1..]);
      assert forall i | 1 <= i < |s| :: s[i] == s[1..][i - 1];
      assert (forall i | 0 <= i < |s[1..]| :: !s[1..][i]) <==> (forall i | 1 <= i < |s| :: !s[i]);
      assert (forall i | 0 <= i < |s[1..]| :: s[1..][i]) <==> (forall i | 1 <= i < |s| :: s[i]);
    }
  }

  lemma Powers()
    ensures Pow2(15) == 0x8000 && Pow2(17) == 0x2_0000 && Pow2(7) == 128 && Pow2(25) == 0x200_0000
  {
    assert Pow2(7) == 128 by {
      assert Pow2(3) == 8;
    }
    assert Pow2(10) == 1024 by {
      assert Pow2(8) == 256;
    }
    PowerAdds(7, 8);
    PowerAdds(7, 10);
    PowerAdds(15, 10);
  }

  /** The bits of d from k on are all clear, or all set, according to its value. */
  lemma UpperBits(d: Word, k: nat)
    requires k <= 32
    ensures Val(d) == Val(d[..k]) + Pow2(k) * Val(d[k..])
    ensures (forall i | k <= i < 32 :: !d[i]) <==> Val(d[k..]) == 0
    ensures (forall i | k <= i < 32 :: d[i]) <==> Val(d[k..]) == Pow2(32 - k) - 1
  {
    ValSplit(d, k);
    ValExtremes(d[k..]);
    assert forall i | k <= i < 32 :: d[i] == d[k..][i - k];
    assert (forall i | k <= i < 32 :: !d[i]) <==> (forall i | 0 <= i < 32 - k :: !d[k..][i]);
    assert (forall i | k <= i < 32 :: d[i]) <==> (forall i | 0 <= i < 32 - k :: d[k..][i]);
  }

  lemma LowBits(d: Word)
    ensures Val(d) % 4 == 0 <==> !d[0] && !d[1]
  {
    assert Val(d) == (if d[0] then 1 else 0) + 2 * Val(d[1..]);
    assert Val(d[1..]) == (if d[1] then 1 else 0) + 2 * Val(d[1..][1..]);
  }

  lemma NearEitherEnd14(v: nat, low: nat, high: nat)
    requires v == low + 0x8000 * high && low < 0x8000 && high < 0x2_0000
    ensures v < 0x8000_0000 ==> (high == 0 <==> v < 0x8000)
    ensures v >= 0x8000_0000 ==> (high == 0x1_ffff <==> v - MODULUS >= -0x8000)
  {
  }

  lemma NearEitherEnd24(v: nat, low: nat, high: nat)
    requires v == low + 0x200_0000 * high && low < 0x200_0000 && high < 128
    ensures v < 0x8000_0000 ==> (high == 0 <==> v < 0x200_0000)
    ensures v >= 0x8000_0000 ==> (high == 127 <==> v - MODULUS >= -0x200_0000)
  {
  }

  predicate SameAbove(d: Word, k: nat) {
    forall i | k <= i < 32 :: d[i] == d[31]
  }

  lemma SameAboveRange(d: Word, k: nat)
    requires k == 15 || k == 25
    ensures SameAbove(d, k) <==> 0 - Pow2(k) <= Signed(d) < Pow2(k)
  {
    TopBit(d);
    Powers();
    UpperBits(d, k);
    if k == 15 {
      NearEitherEnd14(Val(d), Val(d[..15]), Val(d[15..]));
    } else {
      NearEitherEnd24(Val(d), Val(d[..25]), Val(d[25..]));
    }
    assert d[31] ==> (SameAbove(d, k) <==> forall i | k <= i < 32 :: d[i]);
    assert !d[31] ==> (SameAbove(d, k) <==> forall i | k <= i < 32 :: !d[i]);
  }

  /** In numbers: a distance survives exactly when it is word-aligned and within the field's signed range. */
  lemma ReachableRange(f: Field, d: Word)
    requires Info(f).kind == Address
    ensures var limit := Pow2(Info(f).bits + 1);
      Reachable(f, d) <==> Val(d) % 4 == 0 && 0 - limit <= Signed(d) < limit
  {
    LowBits(d);
    SameAboveRange(d, Info(f).bits + 1);
  }

  lemma TopBit(d: Word)
    ensures d[31] <==> Val(d) >= 0x8000_0000
  {
    ValSplit(d, 31);
    WordSize();
    assert Pow2(32) == 2 * Pow2(31);
    assert d[31..] == [d[31]];
    assert Val(d[31..]) == if d[31] then 1 else 0;
  }

  /** Number n survives being assembled as operand f: every bit that matters has a place in the field. */
  predicate Fits(memaddr: Word, relative: bool, f: Field, n: Word) {
    match Info(f).kind
    case Address => Reachable(f, if relative then Minus(n, memaddr) else n)
    case TbrNumber => true
    case _ => forall i | Info(f).bits <= i < 32 :: !n[i]
  }

  lemma WrapsOnce(x: int)
    requires -MODULUS <= x < 2 * MODULUS
    ensures Wrap(x) == if x < 0 then x + MODULUS else if x < MODULUS then x else x - MODULUS
  {
  }

  /** Adding the address back undoes taking the distance. */
  lemma PlusUndoesMinus(n: Word, m: Word, d: Word)
    ensures Plus(d, m) == n <==> d == Minus(n, m)
  {
    WordSize();
    WrapsOnce(Val(d) + Val(m));
    WrapsOnce(Val(n) - Val(m));
    assert Val(Plus(d, m)) == Val(n) <==> Val(d) == Val(Minus(n, m));
    if Val(d) == Val(Minus(n, m)) {
      ValInjective(d, Minus(n, m));
      ValInjective(Plus(d, m), n);
    }
  }

  lemma TbrFits(n: Word)
    requires Val(n) == 268 || Val(n) == 269
    ensures And(n, LowMask(10)) == n
  {
    UpperBits(n, 10);
    assert Pow2(10) == 1024 by {
      assert Pow2(5) == 32;
    }
    assert Val(n[10..]) == 0;
  }

  lemma MaskedIsSame(n: Word, bits: nat)
    requires bits <= 32
    ensures And(n, LowMask(bits)) == n <==> forall i | bits <= i < 32 :: !n[i]
  {
    var m := And(n, LowMask(bits));
    assert forall i | 0 <= i < 32 :: m[i] == (n[i] && i < bits);
  }

  /** What the field of an instruction holds after its operand was packed into it. */
  lemma StoredOperand(f: Field, data: Word, instr: Word)
    requires And(instr, FieldMask(f)) == Pack(f, data)
    ensures Unpack(f, instr) == And(data, LowMask(Info(f).bits))
  {
    PackFits(f, data);
    MaskTwice(instr, f, Pack(f, data));
  }

  lemma AddressRoundTrip(memaddr: Word, relative: bool, f: Field, n: Word, instr: Word, d: Word)
    requires Info(f).kind == Address && d == if relative then Minus(n, memaddr) else n
    requires Unpack(f, instr) == And(AddressData(f, d), LowMask(Info(f).bits))
    ensures Printed(memaddr, relative, f, instr) == n <==> Reachable(f, d)
  {
    DistanceOfData(f, d);
    if relative {
      PlusUndoesMinus(n, memaddr, Distance(f, Unpack(f, instr)));
    }
  }

  lemma SwappedRoundTrip(f: Field, n: Word, operand: Word)
    requires Info(f).kind == SprNumber || Info(f).kind == TbrNumber
    requires operand == And(SwapHalves(n), LowMask(Info(f).bits))
    ensures SwapHalves(operand) == n <==> forall i | Info(f).bits <= i < 32 :: !n[i]
  {
    assert Info(f).bits == 10;
    SwapHalvesTwice(n);
    MaskedIsSame(n, 10);
  }

  lemma TbrRoundTrip(f: Field, n: Word, operand: Word)
    requires Info(f).kind == TbrNumber && (Val(n) == 268 || Val(n) == 269)
    requires operand == And(SwapHalves(n), LowMask(Info(f).bits))
    ensures SwapHalves(operand) == n
  {
    assert Info(f).bits == 10;
    TbrFits(n);
    SwapHalvesTwice(n);
  }

  /** An operand is printed as the number it was typed as exactly when that number fits its field. */
  lemma OperandRoundTrip(memaddr: Word, relative: bool, f: Field, n: Word, instr: Word)
    requires ParseOperand(memaddr, relative, f, n).Data? && Info(f).kind != Silent
    requires And(instr, FieldMask(f)) == Pack(f, ParseOperand(memaddr, relative, f, n).data)
    ensures Printed(memaddr, relative, f, instr) == n <==> Fits(memaddr, relative, f, n)
  {
    var data := ParseOperand(memaddr, relative, f, n).data;
    StoredOperand(f, data, instr);
    KindRoundTrip(memaddr, relative, f, n, instr, data, Info(f).kind);
  }

  lemma KindRoundTrip(memaddr: Word, relative: bool, f: Field, n: Word, instr: Word, data: Word, kind: Kind)
    requires ParseOperand(memaddr, relative, f, n) == Data(data) && Info(f).kind == kind != Silent
    requires Unpack(f, instr) == And(data, LowMask(Info(f).bits))
    ensures Printed(memaddr, relative, f, instr) == n <==> Fits(memaddr, relative, f, n)
  {
    match kind
    case Address => AddressRoundTrip(memaddr, relative, f, n, instr, if relative then Minus(n, memaddr) else n);
    case SprNumber => SwappedRoundTrip(f, n, Unpack(f, instr));
    case TbrNumber => TbrRoundTrip(f, n, Unpack(f, instr));
    case _ => MaskedIsSame(n, Info(f).bits);
  }

  lemma MaskTwice(instr: Word, f: Field, packed: Word)
    requires And(instr, FieldMask(f)) == packed
    ensures Unpack(f, instr) == Unpack(f, packed)
  {
    assert And(packed, FieldMask(f)) == packed by {
      assert forall i | 0 <= i < 32 :: packed[i] == (instr[i] && FieldMask(f)[i]);
    }
    UnpackLocal(f, instr, packed);
  }
}
