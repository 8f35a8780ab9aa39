/**
 * Single-stepping: the address the debugger computes as the next one to execute, against the branch
 * semantics of the architecture (section 2.4 of Power ISA Book I, version 2.06, 32-bit addresses).
 */
module PpcStepper {
  import opened Words
  import opened PpcOperands
  import opened PpcAssembler

  // The architecture. Its bit 0 is the most significant one, bit 31 of a Word here.

  datatype Branch = Conditional | Unconditional | ToCount | ToLink | NoBranch

  function BranchOf(instr: Word): Branch {
    var primary, extended := Val(instr[26..]), Val(instr[1..11]);
    if primary == 16 then Conditional
    else if primary == 18 then Unconditional
    else if primary == 19 && extended == 528 then ToCount
    else if primary == 19 && extended == 16 then ToLink
    else NoBranch
  }

  /** The registers a branch reads. */
  datatype Regs = Regs(nip: Word, ctr: Word, cr: Word, lr: Word)

  /** A field as a signed number, followed by two zero bits. */
  function ExtS(field: seq<bool>): int
    requires |field| > 0
  {
    4 * (Val(field) - if field[|field| - 1] then Pow2(|field|) else 0)
  }

  function Cia(r: Regs): nat { 4 * Val(r.nip[2..]) }

  /** BO0..BO4 of the instruction, BO0 being the most significant of the field. */
  function Bo(instr: Word, k: nat): bool
    requires k <= 4
  {
    instr[25 - k]
  }

  /** The condition register bit BI selects. */
  function CrBit(instr: Word, r: Regs): bool {
    var bi := Val(instr[16..21]);
    assert bi < 32 by {
      assert Pow2(5) == 32;
    }
    r.cr[31 - bi]
  }

  /** ctr_ok and cond_ok of the architecture, for given BO bits. */
  predicate IsaTaken(bo0: bool, bo1: bool, bo2: bool, bo3: bool, ctr: nat, crBit: bool) {
    var ctrOk := bo2 || ((Wrap(ctr - 1) != 0) != bo3);
    var condOk := bo0 || crBit == bo1;
    ctrOk && condOk
  }

  predicate IsaTakes(instr: Word, r: Regs) {
    match BranchOf(instr)
    case Unconditional => true
    case NoBranch => false
    case _ => IsaTaken(Bo(instr, 0), Bo(instr, 1), Bo(instr, 2), Bo(instr, 3), Val(r.ctr), CrBit(instr, r))
  }

  function IsaTarget(instr: Word, r: Regs): int {
    var absolute := instr[1];
    match BranchOf(instr)
    case Conditional => Wrap((if absolute then 0 else Cia(r)) + ExtS(instr[2..16]))
    case Unconditional => Wrap((if absolute then 0 else Cia(r)) + ExtS(instr[2..26]))
    case ToCount => 4 * Val(r.ctr[2..])
    case _ => 4 * Val(r.lr[2..])
  }

  /** The address the architecture executes after a branch instruction. */
  function IsaNext(instr: Word, r: Regs): int {
    if IsaTakes(instr, r) then IsaTarget(instr, r) else Wrap(Cia(r) + 4)
  }

  // The debugger.

  /** How find_next_address decides a conditional branch from the upper four bits of BO: (ctr_ok, cond_ok). */
  function Decide(bo: nat, ctr: nat, crBit: bool): (bool, bool) {
    var less := Wrap(ctr - 1);
    if bo == 0 then (less != 0, !crBit)
    else if bo == 1 then (less == 0, !crBit)
    else if bo == 2 then (true, !crBit)
    else if bo == 4 then (less != 0, crBit)
    else if bo == 5 then (less == 0, crBit)
    else if bo == 6 then (true, crBit)
    else if bo == 8 then (less != 0, less != 0)
    else if bo == 9 then (less == 0, less == 0)
    else if bo == 10 then (true, true)
    else (false, false)
  }

  /** The BO encodings without a hint or reserved bit set in the places the debugger looks at. */
  predicate Handled(instr: Word) {
    !(Bo(instr, 0) && Bo(instr, 1)) && !(Bo(instr, 2) && Bo(instr, 3))
  }

  lemma UpperBo(instr: Word)
    ensures var n := Val(instr[22..26]);
      n == (if Bo(instr, 3) then 1 else 0) + (if Bo(instr, 2) then 2 else 0)
         + (if Bo(instr, 1) then 4 else 0) + (if Bo(instr, 0) then 8 else 0)
  {
    var s := instr[22..26];
    assert s[1..][1..][1..] == [s[3]] && Val([s[3]]) == if s[3] then 1 else 0;
    assert Val(s[1..][1..]) == (if s[2] then 1 else 0) + 2 * Val(s[1..][1..][1..]);
    assert Val(s[1..]) == (if s[1] then 1 else 0) + 2 * Val(s[1..][1..]);
  }

  /** For handled encodings the debugger's table is the architecture's rule; others it never takes. */
  lemma DecisionRight(instr: Word, ctr: nat, crBit: bool)
    ensures var (ctrOk, condOk) := Decide(Val(instr[22..26]), ctr, crBit);
      if Handled(instr) then
        ctrOk && condOk <==> IsaTaken(Bo(instr, 0), Bo(instr, 1), Bo(instr, 2), Bo(instr, 3), ctr, crBit)
      else !ctrOk && !condOk
  {
    UpperBo(instr);
  }

  /** The opcode words of the I and B forms: all but the primary opcode, AA and LK is clear. */
  predicate IsBForm(w: Word, primary: nat) {
    Val(w[26..]) == primary && forall i | 2 <= i < 26 :: !w[i]
  }

  /** The opcode words of the XL form: extended opcode and LK under primary opcode 19. */
  predicate IsXlForm(w: Word, extended: nat) {
    Val(w[26..]) == 19 && Val(w[1..11]) == extended && forall i | 11 <= i < 26 :: !w[i]
  }

  lemma OpcodeBits(x: nat, n: nat)
    requires (n == 6 && x < 64) || (n == 10 && x < 1024)
    ensures Val(Bits(x, n)) == x
  {
    assert Pow2(6) == 64 by {
      assert Pow2(3) == 8;
    }
    assert Pow2(10) == 1024 by {
      assert Pow2(6) == 64;
    }
    ValOfBits(x, n);
  }

  function BForm(primary: nat, aa: bool, lk: bool): (w: Word)
    requires primary < 64
    ensures w[0] == lk && w[1] == aa && IsBForm(w, primary)
  {
    OpcodeBits(primary, 6);
    var w := [lk, aa] + seq(24, _ => false) + Bits(primary, 6);
    assert w[26..] == Bits(primary, 6);
    w
  }

  function XlForm(extended: nat, lk: bool): (w: Word)
    requires extended < 1024
    ensures w[0] == lk && IsXlForm(w, extended)
  {
    OpcodeBits(extended, 10);
    OpcodeBits(19, 6);
    var w := [lk] + Bits(extended, 10) + seq(15, _ => false) + Bits(19, 6);
    assert w[1..11] == Bits(extended, 10);
    assert w[26..] == Bits(19, 6);
    w
  }

  lemma SameBForm(v: Word, w: Word, primary: nat)
    requires IsBForm(v, primary) && IsBForm(w, primary) && v[0] == w[0] && v[1] == w[1]
    ensures v == w
  {
    ValInjective(v[26..], w[26..]);
    assert forall i | 26 <= i < 32 :: v[i] == v[26..][i - 26] && w[i] == w[26..][i - 26];
  }

  lemma SameXlForm(v: Word, w: Word, extended: nat)
    requires IsXlForm(v, extended) && IsXlForm(w, extended) && v[0] == w[0]
    ensures v == w
  {
    ValInjective(v[26..], w[26..]);
    ValInjective(v[1..11], w[1..11]);
    assert forall i | 26 <= i < 32 :: v[i] == v[26..][i - 26] && w[i] == w[26..][i - 26];
    assert forall i | 1 <= i < 11 :: v[i] == v[1..11][i - 1] && w[i] == w[1..11][i - 1];
  }

  function BMask(): Word { seq(32, i => i < 2 || i >= 26) }

  function XlMask(): Word { seq(32, i => i < 11 || i >= 26) }

  function BcEntry(aa: bool, lk: bool): Opcode { Opcode(BForm(16, aa, lk), BMask(), [BO, BI, BD, AA, LK], !aa) }

  function BEntry(aa: bool, lk: bool): Opcode { Opcode(BForm(18, aa, lk), BMask(), [LI, AA, LK], !aa) }

  function BcctrEntry(lk: bool): Opcode { Opcode(XlForm(528, lk), XlMask(), [BO, BI, LK], false) }

  function BclrEntry(lk: bool): Opcode { Opcode(XlForm(16, lk), XlMask(), [BO, BI, LK], false) }

  /** The table row of the branch instruction instr is. */
  function EntryOf(instr: Word): Opcode
    requires BranchOf(instr) != NoBranch
  {
    match BranchOf(instr)
    case Conditional => BcEntry(instr[1], instr[0])
    case Unconditional => BEntry(instr[1], instr[0])
    case ToCount => BcctrEntry(instr[0])
    case ToLink => BclrEntry(instr[0])
  }

  /** The table has the twelve branch instructions. */
  ghost predicate HasBranches(table: seq<Opcode>) {
    && (forall aa, lk :: BcEntry(aa, lk) in table && BEntry(aa, lk) in table)
    && (forall lk :: BcctrEntry(lk) in table && BclrEntry(lk) in table)
  }

  lemma BFormMatches(instr: Word, primary: nat)
    requires primary < 64 && Val(instr[26..]) == primary
    ensures And(instr, BMask()) == BForm(primary, instr[1], instr[0])
  {
    var v := And(instr, BMask());
    assert v[26..] == instr[26..];
    SameBForm(v, BForm(primary, instr[1], instr[0]), primary);
  }

  lemma XlFormMatches(instr: Word, extended: nat)
    requires extended < 1024 && Val(instr[26..]) == 19 && Val(instr[1..11]) == extended
    ensures And(instr, XlMask()) == XlForm(extended, instr[0])
  {
    var v := And(instr, XlMask());
    assert v[26..] == instr[26..] && v[1..11] == instr[1..11];
    SameXlForm(v, XlForm(extended, instr[0]), extended);
  }

  lemma EntryMatches(instr: Word)
    requires BranchOf(instr) != NoBranch
    ensures EntryOf(instr).Matches(instr)
  {
    match BranchOf(instr)
    case Conditional => BFormMatches(instr, 16);
    case Unconditional => BFormMatches(instr, 18);
    case ToCount => XlFormMatches(instr, 528);
    case ToLink => XlFormMatches(instr, 16);
  }

  /** switch (op->opcode): which branch a table row is, judged by its opcode word, for either value of AA and LK. */
  function CaseOf(opcode: Word): Branch {
    if IsBForm(opcode, 16) then Conditional
    else if IsBForm(opcode, 18) then Unconditional
    else if IsXlForm(opcode, 528) then ToCount
    else if IsXlForm(opcode, 16) then ToLink
    else NoBranch
  }

  /** The opcode numbers of a branch. */
  predicate HasNumbers(b: Branch, w: Word) {
    match b
    case Conditional => Val(w[26..]) == 16
    case Unconditional => Val(w[26..]) == 18
    case ToCount => Val(w[26..]) == 19 && Val(w[1..11]) == 528
    case ToLink => Val(w[26..]) == 19 && Val(w[1..11]) == 16
    case NoBranch => true
  }

  lemma CaseHasNumbers(w: Word) returns (b: Branch)
    ensures b == CaseOf(w) && HasNumbers(b, w)
  {
    b := CaseOf(w);
  }

  lemma NumbersAreBranch(b: Branch, w: Word, instr: Word)
    requires b != NoBranch && HasNumbers(b, w) && w[26..] == instr[26..]
    requires b == ToCount || b == ToLink ==> w[1..11] == instr[1..11]
    ensures BranchOf(instr) != NoBranch
  {
  }

  lemma CaseOfBForm(aa: bool, lk: bool)
    ensures CaseOf(BForm(16, aa, lk)) == Conditional && CaseOf(BForm(18, aa, lk)) == Unconditional
  {
  }

  lemma CaseOfXlForm(lk: bool)
    ensures CaseOf(XlForm(528, lk)) == ToCount && CaseOf(XlForm(16, lk)) == ToLink
  {
  }

  lemma CaseOfEntry(instr: Word)
    requires BranchOf(instr) != NoBranch
    ensures CaseOf(EntryOf(instr).opcode) == BranchOf(instr)
  {
    CaseOfBForm(instr[1], instr[0]);
    CaseOfXlForm(instr[0]);
  }

  /** Two rows of a sorted table with the same opcode word are one row. */
  lemma OneRowPerOpcode(table: seq<Opcode>, a: Opcode, b: Opcode)
    requires TableSorted(table) && a in table && b in table && a.opcode == b.opcode
    ensures a == b
  {
    var j :| 0 <= j < |table| && table[j] == a;
    var k :| 0 <= k < |table| && table[k] == b;
    assert j < k ==> InOrder(table[j], table[k]);
    assert k < j ==> InOrder(table[k], table[j]);
  }

  /** Two rows of a sorted table that match one word are one row. */
  lemma OneMatchingRow(table: seq<Opcode>, a: Opcode, b: Opcode, instr: Word)
    requires TableSorted(table) && a in table && b in table && a.Matches(instr) && b.Matches(instr)
    ensures a == b
  {
    SortedIsOrdered(table, instr);
    var j :| 0 <= j < |table| && table[j] == a;
    var k :| 0 <= k < |table| && table[k] == b;
    assert Compare(table[j], instr) == 0 && Compare(table[k], instr) == 0;
  }

  lemma MatchKeepsBits(op: Opcode, instr: Word, lo: nat, hi: nat)
    requires op.Matches(instr) && lo <= hi <= 32 && forall i | lo <= i < hi :: op.mask[i]
    ensures op.opcode[lo..hi] == instr[lo..hi]
  {
    assert forall i | lo <= i < hi :: And(instr, op.mask)[i] == instr[i];
  }

  lemma MatchKeepsPrimary(op: Opcode, instr: Word)
    requires op.Matches(instr) && forall i | 26 <= i < 32 :: op.mask[i]
    ensures op.opcode[26..] == instr[26..]
  {
    MatchKeepsBits(op, instr, 26, 32);
    assert op.opcode[26..] == op.opcode[26..32];
    assert instr[26..] == instr[26..32];
  }

  lemma EntryInTable(table: seq<Opcode>, instr: Word)
    requires HasBranches(table) && BranchOf(instr) != NoBranch
    ensures EntryOf(instr) in table
  {
  }

  lemma CaseForm(w: Word)
    ensures CaseOf(w) == ToCount ==> w == BcctrEntry(w[0]).opcode
    ensures CaseOf(w) == ToLink ==> w == BclrEntry(w[0]).opcode
  {
    if CaseOf(w) == ToCount {
      SameXlForm(w, XlForm(528, w[0]), 528);
    } else if CaseOf(w) == ToLink {
      SameXlForm(w, XlForm(16, w[0]), 16);
    }
  }

  lemma RegisterRows(table: seq<Opcode>, lk: bool)
    requires HasBranches(table)
    ensures BcctrEntry(lk) in table && BclrEntry(lk) in table
  {
  }

  /** The row of a branch through CTR or LR checks the whole extended opcode. */
  lemma XlRowMask(table: seq<Opcode>, op: Opcode)
    requires TableSorted(table) && HasBranches(table) && op in table
    requires CaseOf(op.opcode) == ToCount || CaseOf(op.opcode) == ToLink
    ensures op.mask == XlMask()
  {
    var lk := op.opcode[0];
    CaseForm(op.opcode);
    RegisterRows(table, lk);
    if CaseOf(op.opcode) == ToCount {
      OneRowPerOpcode(table, op, BcctrEntry(lk));
    } else {
      OneRowPerOpcode(table, op, BclrEntry(lk));
    }
  }

  lemma SamePrimary(table: seq<Opcode>, op: Opcode, instr: Word)
    requires TableSorted(table) && op in table && op.Matches(instr)
    ensures op.opcode[26..] == instr[26..]
  {
    MatchKeepsPrimary(op, instr);
  }

  lemma SameExtended(table: seq<Opcode>, op: Opcode, instr: Word)
    requires TableSorted(table) && HasBranches(table) && op in table && op.Matches(instr)
    requires CaseOf(op.opcode) == ToCount || CaseOf(op.opcode) == ToLink
    ensures op.opcode[1..11] == instr[1..11]
  {
    XlRowMask(table, op);
    MatchKeepsBits(op, instr, 1, 11);
  }

  lemma NoStrayBranch(table: seq<Opcode>, op: Opcode, instr: Word)
    requires TableSorted(table) && HasBranches(table) && op in table && op.Matches(instr)
    requires CaseOf(op.opcode) != NoBranch
    ensures BranchOf(instr) != NoBranch
  {
    var b := CaseHasNumbers(op.opcode);
    SamePrimary(table, op, instr);
    if b == ToCount || b == ToLink {
      SameExtended(table, op, instr);
    }
    NumbersAreBranch(b, op.opcode, instr);
  }

  /** A sorted table with all branches has, for any word it matches, the row the architecture would name. */
  lemma FoundEntry(table: seq<Opcode>, op: Opcode, instr: Word)
    requires TableSorted(table) && HasBranches(table) && op in table && op.Matches(instr)
    ensures BranchOf(instr) != NoBranch ==> op == EntryOf(instr)
    ensures CaseOf(op.opcode) == BranchOf(instr)
  {
    if BranchOf(instr) != NoBranch {
      EntryMatches(instr);
      EntryInTable(table, instr);
      OneMatchingRow(table, op, EntryOf(instr), instr);
      CaseOfEntry(instr);
    } else if CaseOf(op.opcode) != NoBranch {
      NoStrayBranch(table, op, instr);
    }
  }

  /** The operands of a branch as the debugger gathers them; addr is the target or the distance to it. */
  datatype Decoded = Decoded(branch: bool, conditional: bool, aa: bool, lk: bool, bo: Word, bi: Word, addr: int)

  /** Sign extension and multiplication by four, on 32-bit unsigned numbers. */
  function Displacement(value: Word, bits: nat): int
    requires 0 < bits <= 32
  {
    var addr := if value[bits - 1] then Wrap(Val(value) - Pow2(bits)) else Val(value);
    Wrap(addr * 4)
  }

  lemma SliceValue(w: Word, shift: nat, bits: nat)
    requires 0 < bits && shift + bits <= 32
    ensures var v := And(ShiftRight(w, shift), LowMask(bits));
      Val(v) == Val(w[shift..shift + bits]) && v[..bits] == w[shift..shift + bits]
  {
    var v := And(ShiftRight(w, shift), LowMask(bits));
    assert v[..bits] == w[shift..shift + bits];
    ValSplit(v, bits);
    ValExtremes(v[bits..]);
    assert Val(v[bits..]) == 0;
  }

  /** The debugger's wrap-around arithmetic computes the architecture's sign extension. */
  lemma DisplacementIsExtS(w: Word, shift: nat, bits: nat)
    requires 0 < bits && shift + bits <= 32
    ensures Displacement(And(ShiftRight(w, shift), LowMask(bits)), bits) == Wrap(ExtS(w[shift..shift + bits]))
  {
    SliceValue(w, shift, bits);
    var field := w[shift..shift + bits];
    assert And(ShiftRight(w, shift), LowMask(bits))[bits - 1] == field[bits - 1];
    FourTimesMod(Val(field) - Pow2(bits));
  }

  lemma FourTimesMod(x: int)
    ensures Wrap(4 * (Wrap(x))) == Wrap(4 * x)
  {
    var q := x / MODULUS;
    assert 4 * x == 4 * (Wrap(x)) + MODULUS * (4 * q);
    AddMultiple(4 * (Wrap(x)), 4 * q);
  }

  lemma AddMultiple(x: int, k: int)
    ensures Wrap(x + MODULUS * k) == Wrap(x)
  {
  }

  lemma FlagsAreBits(instr: Word)
    ensures Unpack(AA, instr)[0] == instr[1] && Unpack(LK, instr)[0] == instr[0]
  {
  }

  lemma BdIsExtS(instr: Word)
    ensures Displacement(Unpack(BD, instr), 14) == Wrap(ExtS(instr[2..16]))
  {
    DisplacementIsExtS(instr, 2, 14);
    assert Unpack(BD, instr) == And(ShiftRight(instr, 2), LowMask(14));
  }

  lemma LiIsExtS(instr: Word)
    ensures Displacement(Unpack(LI, instr), 24) == Wrap(ExtS(instr[2..26]))
  {
    DisplacementIsExtS(instr, 2, 24);
    assert Unpack(LI, instr) == And(ShiftRight(instr, 2), LowMask(24));
  }

  method DecodeConditional(op: Opcode, instr: Word) returns (ok: bool, d: Decoded)
    requires op.fields == [BO, BI, BD, AA, LK]
    ensures ok
    ensures d == Decoded(true, true, instr[1], instr[0], Unpack(BO, instr), Unpack(BI, instr), Wrap(ExtS(instr[2..16])))
  {
    var ok1, bd := GetOperandValue(op, instr, BD);
    var ok2, bo := GetOperandValue(op, instr, BO);
    var ok3, bi := GetOperandValue(op, instr, BI);
    var ok4, aa := GetOperandValue(op, instr, AA);
    var ok5, lk := GetOperandValue(op, instr, LK);
    ok := ok1 && ok2 && ok3 && ok4 && ok5;
    FlagsAreBits(instr);
    BdIsExtS(instr);
    d := Decoded(true, true, aa[0], lk[0], bo, bi, Displacement(bd, 14));
  }

  method DecodeUnconditional(op: Opcode, instr: Word) returns (ok: bool, d: Decoded)
    requires op.fields == [LI, AA, LK]
    ensures ok
    ensures d == Decoded(true, false, instr[1], instr[0], instr, instr, Wrap(ExtS(instr[2..26])))
  {
    var ok1, li := GetOperandValue(op, instr, LI);
    var ok2, aa := GetOperandValue(op, instr, AA);
    var ok3, lk := GetOperandValue(op, instr, LK);
    ok := ok1 && ok2 && ok3;
    FlagsAreBits(instr);
    LiIsExtS(instr);
    d := Decoded(true, false, aa[0], lk[0], instr, instr, Displacement(li, 24));
  }

  method DecodeToRegister(op: Opcode, instr: Word, target: Word) returns (ok: bool, d: Decoded)
    requires op.fields == [BO, BI, LK]
    ensures ok
    ensures d == Decoded(true, true, true, instr[0], Unpack(BO, instr), Unpack(BI, instr), Val(target))
  {
    var ok1, bo := GetOperandValue(op, instr, BO);
    var ok2, bi := GetOperandValue(op, instr, BI);
    var ok3, lk := GetOperandValue(op, instr, LK);
    ok := ok1 && ok2 && ok3;
    FlagsAreBits(instr);
    d := Decoded(true, true, true, lk[0], bo, bi, Val(target));
  }

  // The next address.

  /** Whether the debugger's decision is to take the branch. */
  predicate DebuggerTakes(instr: Word, r: Regs) {
    match BranchOf(instr)
    case Unconditional => true
    case NoBranch => false
    case _ => var (ctrOk, condOk) := Decide(Val(instr[22..26]), Val(r.ctr), CrBit(instr, r)); ctrOk && condOk
  }

  /** Where the debugger stops after a step: it goes to CTR and LR as they are, low bits included. */
  function DebuggerStep(instr: Word, r: Regs): int {
    if !DebuggerTakes(instr, r) then Wrap(Cia(r) + 4)
    else match BranchOf(instr)
      case ToCount => Val(r.ctr)
      case ToLink => Val(r.lr)
      case _ => IsaTarget(instr, r)
  }

  /** Where it stops when asked to step over calls: behind a linking branch that is taken. */
  function DebuggerStops(instr: Word, r: Regs, stepOver: bool): int {
    if stepOver && DebuggerTakes(instr, r) && instr[0] then Wrap(Cia(r) + 4) else DebuggerStep(instr, r)
  }

  lemma AlignedPc(r: Regs)
    ensures Val(And(r.nip, seq(32, i => i >= 2))) == Cia(r)
  {
    var w := And(r.nip, seq(32, i => i >= 2));
    assert w[2..] == r.nip[2..];
    ValSplit(w, 2);
    ValExtremes(w[..2]);
    assert Pow2(2) == 4;
  }

  lemma BoBits(instr: Word)
    ensures Unpack(BO, instr)[1..5] == instr[22..26]
    ensures Val(Unpack(BI, instr)) == Val(instr[16..21])
  {
    var bo := Unpack(BO, instr);
    forall i | 0 <= i < 4
      ensures bo[1..5][i] == instr[22..26][i]
    {
      assert bo[1 + i] == instr[22 + i];
    }
    SliceValue(instr, 16, 5);
    assert Unpack(BI, instr) == And(ShiftRight(instr, 16), LowMask(5));
  }

  lemma CrIndex(instr: Word)
    ensures Val(instr[16..21]) < 32
  {
    assert Pow2(5) == 32;
  }

  /** d holds the operands of the branch instr is. */
  predicate DecodedAs(instr: Word, r: Regs, d: Decoded) {
    && d.branch == (BranchOf(instr) != NoBranch)
    && (d.branch ==>
      && d.conditional == (BranchOf(instr) != Unconditional) && d.lk == instr[0]
      && (d.conditional ==> d.bo == Unpack(BO, instr) && d.bi == Unpack(BI, instr))
      && d.aa == (BranchOf(instr) == ToCount || BranchOf(instr) == ToLink || instr[1])
      && d.addr == match BranchOf(instr)
                   case Conditional => Wrap(ExtS(instr[2..16]))
                   case Unconditional => Wrap(ExtS(instr[2..26]))
                   case ToCount => Val(r.ctr)
                   case _ => Val(r.lr))
  }

  /** Gathers the operands of the branch that op is, if it is one. */
  method DecodeBranch(op: Opcode, instr: Word, r: Regs) returns (ok: bool, d: Decoded)
    requires CaseOf(op.opcode) == BranchOf(instr)
    requires BranchOf(instr) != NoBranch ==> op == EntryOf(instr)
    ensures ok && DecodedAs(instr, r, d)
  {
    match CaseOf(op.opcode)
    case Conditional => ok, d := DecodeConditional(op, instr);
    case Unconditional => ok, d := DecodeUnconditional(op, instr);
    case ToCount => ok, d := DecodeToRegister(op, instr, r.ctr);
    case ToLink => ok, d := DecodeToRegister(op, instr, r.lr);
    case NoBranch => ok, d := true, Decoded(false, false, false, false, instr, instr, 0);
  }

  lemma AddWrapped(x: int, y: int)
    ensures Wrap(Wrap(x) + y) == Wrap(x + y)
  {
  }

  /** Decides whether the decoded branch is taken. */
  method Take(instr: Word, r: Regs, d: Decoded) returns (taken: bool)
    requires DecodedAs(instr, r, d)
    ensures taken == DebuggerTakes(instr, r)
  {
    taken := d.branch;
    if d.branch && d.conditional {
      BoBits(instr);
      CrIndex(instr);
      var (ctrOk, condOk) := Decide(Val(d.bo[1..5]), Val(r.ctr), r.cr[31 - Val(d.bi)]);
      taken := ctrOk && condOk;
    }
  }

  /** The target of a decoded branch that is taken. */
  function Target(d: Decoded, pc: nat): int { if d.aa then d.addr else Wrap(d.addr + pc) }

  lemma RelativeTarget(absolute: bool, pc: nat, distance: int)
    ensures (if absolute then Wrap(distance) else Wrap(Wrap(distance) + pc))
      == Wrap((if absolute then 0 else pc) + distance)
  {
    AddWrapped(distance, pc);
  }

  lemma RelativeTargetRight(instr: Word, r: Regs, d: Decoded)
    requires DecodedAs(instr, r, d) && (BranchOf(instr) == Conditional || BranchOf(instr) == Unconditional)
    ensures Target(d, Cia(r)) == IsaTarget(instr, r)
  {
    if BranchOf(instr) == Conditional {
      RelativeTarget(instr[1], Cia(r), ExtS(instr[2..16]));
    } else {
      RelativeTarget(instr[1], Cia(r), ExtS(instr[2..26]));
    }
  }

  lemma TargetRight(instr: Word, r: Regs, d: Decoded)
    requires DecodedAs(instr, r, d) && DebuggerTakes(instr, r)
    ensures Target(d, Cia(r)) == DebuggerStep(instr, r)
  {
    if BranchOf(instr) == Conditional || BranchOf(instr) == Unconditional {
      RelativeTargetRight(instr, r, d);
    }
  }

  /** The table knows the instruction. */
  ghost predicate Known(table: seq<Opcode>, instr: Word) {
    exists k | 0 <= k < |table| :: table[k].Matches(instr)
  }

  lemma BranchKnown(table: seq<Opcode>, instr: Word)
    requires HasBranches(table) && BranchOf(instr) != NoBranch
    ensures Known(table, instr)
  {
    EntryMatches(instr);
    EntryInTable(table, instr);
  }

  /**
   * find_next_address for the instruction at the program counter: ok is false when the table does not
   * know the instruction; stepOver asks for the return address of a subroutine call instead of its target.
   * For properly used branches with an encoding it handles, and for all other instructions the table knows,
   * it is the address the architecture executes next, or the one behind a call that is stepped over.
   */
  method FindNextAddress(table: seq<Opcode>, instr: Word, r: Regs, stepOver: bool) returns (ok: bool, next: int)
    requires TableSorted(table) && HasBranches(table)
    ensures ok <==> Known(table, instr)
    ensures BranchOf(instr) != NoBranch ==> ok
    ensures ok ==> next == DebuggerStops(instr, r, stepOver)
    ensures ok && ProperUse(instr, r) && StepsRight(instr) ==> next == IsaStops(instr, r, stepOver)
  {
    var pc := Val(And(r.nip, seq(32, i => i >= 2)));
    AlignedPc(r);
    SortedIsOrdered(table, instr);
    var at := FindOpcode(table, instr);
    if BranchOf(instr) != NoBranch {
      BranchKnown(table, instr);
    }
    if at < 0 {
      return false, 0;
    }
    FoundEntry(table, table[at], instr);
    next := NextAfter(table[at], instr, r, stepOver, pc);
    ok := true;
    if ProperUse(instr, r) && StepsRight(instr) {
      StepRefinesIsa(instr, r);
    }
  }

  /** The next address the architecture executes, or the one behind a linking branch that is stepped over. */
  function IsaStops(instr: Word, r: Regs, stepOver: bool): int {
    if stepOver && IsaTakes(instr, r) && instr[0] then Wrap(Cia(r) + 4) else IsaNext(instr, r)
  }

  /** Not a branch the debugger misjudges. */
  predicate StepsRight(instr: Word) {
    BranchOf(instr) == NoBranch || BranchOf(instr) == Unconditional || Handled(instr)
  }

  /** The address that follows a decoded instruction. */
  function NextAddress(d: Decoded, taken: bool, stepOver: bool, pc: nat): int {
    if !taken || (stepOver && d.lk) then Wrap(pc + 4) else Target(d, pc)
  }

  lemma StopsRight(instr: Word, r: Regs, d: Decoded, stepOver: bool)
    requires DecodedAs(instr, r, d)
    ensures NextAddress(d, DebuggerTakes(instr, r), stepOver, Cia(r)) == DebuggerStops(instr, r, stepOver)
  {
    if DebuggerTakes(instr, r) {
      TargetRight(instr, r, d);
    }
  }

  method NextAfter(op: Opcode, instr: Word, r: Regs, stepOver: bool, pc: nat) returns (next: int)
    requires CaseOf(op.opcode) == BranchOf(instr)
    requires BranchOf(instr) != NoBranch ==> op == EntryOf(instr)
    requires pc == Cia(r)
    ensures next == DebuggerStops(instr, r, stepOver)
  {
    var ok, d := DecodeBranch(op, instr, r);
    var taken := Take(instr, r, d);
    StopsRight(instr, r, d, stepOver);
    next := NextAddress(d, taken, stepOver, pc);
  }

  /** The register a branch goes through, if any, holds a word-aligned address; bcctr does not decrement CTR. */
  predicate ProperUse(instr: Word, r: Regs) {
    match BranchOf(instr)
    case ToCount => Bo(instr, 2) && !r.ctr[0] && !r.ctr[1]
    case ToLink => !r.lr[0] && !r.lr[1]
    case _ => true
  }

  lemma AlignedValue(w: Word)
    requires !w[0] && !w[1]
    ensures Val(w) == 4 * Val(w[2..])
  {
    ValSplit(w, 2);
    ValExtremes(w[..2]);
    assert Pow2(2) == 4;
  }

  /** The debugger steps where the architecture goes, for every instruction with a BO encoding it handles. */
  lemma StepRefinesIsa(instr: Word, r: Regs)
    requires ProperUse(instr, r)
    requires StepsRight(instr)
    ensures DebuggerTakes(instr, r) <==> IsaTakes(instr, r)
    ensures DebuggerStep(instr, r) == IsaNext(instr, r)
  {
    DecisionRight(instr, Val(r.ctr), CrBit(instr, r));
    if BranchOf(instr) == ToCount {
      AlignedValue(r.ctr);
    } else if BranchOf(instr) == ToLink {
      AlignedValue(r.lr);
    }
  }

  /** Whatever the registers hold, the debugger steps where the architecture goes. */
  ghost predicate AlwaysRight(instr: Word) {
    forall r: Regs | ProperUse(instr, r) :: DebuggerStep(instr, r) == IsaNext(instr, r)
  }

  /** A branch relative to itself whose target is the next instruction anyway. */
  predicate BranchesToNext(instr: Word) {
    BranchOf(instr) == Conditional && !instr[1] && ExtS(instr[2..16]) == 4
  }

  lemma CiaOf(r: Regs)
    requires Val(r.nip) % 4 == 0
    ensures Cia(r) == Val(r.nip)
  {
    LowBits(r.nip);
    AlignedCia(r);
  }

  /** Registers with the program counter at 0 or 4, CTR zero or one, LR zero, and all condition bits alike. */
  lemma Sample(pc: nat, ctr: nat, cond: bool) returns (r: Regs)
    requires (pc == 0 || pc == 4) && ctr <= 1
    ensures Cia(r) == pc && Val(r.ctr) == ctr && Val(r.lr) == 0
    ensures forall i | 0 <= i < 32 :: r.cr[i] == cond
  {
    var nip := WordOf(pc);
    var count := WordOf(ctr);
    var lr := WordOf(0);
    r := Regs(nip, count, seq(32, _ => cond), lr);
    CiaOf(r);
  }

  lemma WordOf(x: nat) returns (w: Word)
    requires x < MODULUS
    ensures Val(w) == x
  {
    WordSize();
    ValOfBits(x, 32);
    w := Bits(x, 32);
  }

  lemma SmallDisplacement(field: seq<bool>)
    requires |field| == 14
    ensures -0x1_0000 <= ExtS(field) < 0x1_0000
  {
    assert Pow2(14) == 0x4000 by {
      assert Pow2(7) == 128;
      PowerAdds(7, 7);
    }
  }

  /** The architecture takes a branch for a suitable CTR and condition bit, whatever its BO bits. */
  lemma CanBeTaken(bo0: bool, bo1: bool, bo2: bool, bo3: bool)
    ensures IsaTaken(bo0, bo1, bo2, bo3, if bo3 && !bo2 then 1 else 0, bo1)
  {
  }

  /** CTR and a condition bit for which the architecture takes a branch that is not handled. */
  lemma OnlyIsaTakes(instr: Word, r: Regs)
    requires BranchOf(instr) != NoBranch && BranchOf(instr) != Unconditional && !Handled(instr)
    requires Val(r.ctr) == if Bo(instr, 3) && !Bo(instr, 2) then 1 else 0
    requires CrBit(instr, r) == Bo(instr, 1)
    ensures IsaTakes(instr, r) && !DebuggerTakes(instr, r)
  {
    DecisionRight(instr, Val(r.ctr), CrBit(instr, r));
    CanBeTaken(Bo(instr, 0), Bo(instr, 1), Bo(instr, 2), Bo(instr, 3));
  }

  lemma MissedGoesOn(instr: Word, r: Regs)
    requires BranchOf(instr) == Conditional && IsaTakes(instr, r) && !DebuggerTakes(instr, r)
    ensures DebuggerStep(instr, r) == Wrap(Cia(r) + 4)
    ensures IsaNext(instr, r) == Wrap((if instr[1] then 0 else Cia(r)) + ExtS(instr[2..16]))
  {
  }

  lemma SmallDiffer(x: int, y: int)
    requires -0x1_0000 <= x <= 0x1_0004 && 0 <= y <= 8 && x != y
    ensures Wrap(x) != Wrap(y)
  {
  }

  lemma MissedThroughRegister(instr: Word, r: Regs)
    requires BranchOf(instr) == ToLink || (BranchOf(instr) == ToCount && Bo(instr, 2))
    requires IsaTakes(instr, r) && !DebuggerTakes(instr, r)
    requires Cia(r) == 0 && Val(if BranchOf(instr) == ToCount then r.ctr else r.lr) == 0
    ensures ProperUse(instr, r)
    ensures DebuggerStep(instr, r) != IsaNext(instr, r)
  {
    var w := if BranchOf(instr) == ToCount then r.ctr else r.lr;
    LowBits(w);
    AlignedValue(w);
  }

  lemma SampleCr(instr: Word, r: Regs, cond: bool)
    requires forall i | 0 <= i < 32 :: r.cr[i] == cond
    ensures CrBit(instr, r) == cond
  {
    CrIndex(instr);
  }

  lemma SampleMissed(instr: Word, pc: nat) returns (r: Regs)
    requires BranchOf(instr) != NoBranch && BranchOf(instr) != Unconditional && !Handled(instr)
    requires pc == 0 || pc == 4
    ensures IsaTakes(instr, r) && !DebuggerTakes(instr, r)
    ensures Cia(r) == pc && Val(r.lr) == 0 && (Bo(instr, 2) ==> Val(r.ctr) == 0)
  {
    r := Sample(pc, if Bo(instr, 3) && !Bo(instr, 2) then 1 else 0, Bo(instr, 1));
    SampleCr(instr, r, Bo(instr, 1));
    OnlyIsaTakes(instr, r);
  }

  /** Registers for which an instruction that is not handled branches elsewhere. */
  lemma MissedBranch(instr: Word) returns (r: Regs)
    requires BranchOf(instr) != NoBranch && BranchOf(instr) != Unconditional && !Handled(instr)
    requires BranchOf(instr) == ToCount ==> Bo(instr, 2)
    requires !BranchesToNext(instr)
    ensures ProperUse(instr, r) && DebuggerStep(instr, r) != IsaNext(instr, r)
  {
    if BranchOf(instr) == Conditional {
      var distance := ExtS(instr[2..16]);
      r := SampleMissed(instr, if instr[1] && distance == 4 then 4 else 0);
      SmallDisplacement(instr[2..16]);
      MissedGoesOn(instr, r);
      SmallDiffer((if instr[1] then 0 else Cia(r)) + distance, Cia(r) + 4);
    } else {
      r := SampleMissed(instr, 0);
      MissedThroughRegister(instr, r);
    }
  }

  /** Exactly which conditional branches the debugger steps correctly for every register state. */
  lemma StepExact(instr: Word)
    requires BranchOf(instr) != NoBranch && BranchOf(instr) != Unconditional
    requires BranchOf(instr) == ToCount ==> Bo(instr, 2)
    ensures AlwaysRight(instr) <==> Handled(instr) || BranchesToNext(instr)
  {
    if Handled(instr) {
      forall r: Regs | ProperUse(instr, r)
        ensures DebuggerStep(instr, r) == IsaNext(instr, r)
      {
        StepRefinesIsa(instr, r);
      }
    } else if BranchesToNext(instr) {
      forall r: Regs
        ensures DebuggerStep(instr, r) == IsaNext(instr, r)
      {
        DecisionRight(instr, Val(r.ctr), CrBit(instr, r));
      }
    } else {
      var r := MissedBranch(instr);
    }
  }

  // Assembling, then stepping.

  /** A word of two zero bits, a field, and copies of its sign. */
  lemma {:induction false} SignExtended(d: Word, field: seq<bool>)
    requires 0 < |field| < 30 && d[2..2 + |field|] == field && !d[0] && !d[1]
    requires forall i | 2 + |field| <= i < 32 :: d[i] == field[|field| - 1]
    ensures Val(d) == Wrap(ExtS(field))
  {
    var bits := |field|;
    AlignedValue(d);
    var high := d[2..];
    ValSplit(high, bits);
    assert high[..bits] == field;
    ValExtremes(high[bits..]);
    assert forall i | 0 <= i < 30 - bits :: high[bits..][i] == d[2 + bits + i];
    PowerAdds(bits, 30 - bits);
    PowerOf30();
    SignValue(Val(field), Pow2(bits), Pow2(30 - bits), Val(high[bits..]), field[bits - 1]);
  }

  lemma PowerOf30()
    ensures 4 * Pow2(30) == MODULUS
  {
    PowerAdds(2, 30);
    WordSize();
    assert Pow2(2) == 4;
  }

  /** The distance the disassembler rebuilds is the architecture's sign-extended displacement. */
  lemma LiDistance(instr: Word) returns (d: Word)
    ensures d == Distance(LI, Unpack(LI, instr)) && Val(d) == Wrap(ExtS(instr[2..26]))
  {
    d := Distance(LI, Unpack(LI, instr));
    forall i | 2 <= i < 32
      ensures d[i] == instr[if i < 26 then i else 25]
    {
    }
    assert d[2..26] == instr[2..26];
    SignExtended(d, instr[2..26]);
  }

  lemma SignValue(low: nat, p: nat, q: nat, high: nat, sign: bool)
    requires low < p && p * q * 4 == MODULUS && high == if sign then q - 1 else 0
    ensures 4 * (low + p * high) == Wrap(4 * (low - if sign then p else 0))
  {
    if sign {
      assert p * (q - 1) == p * q - p;
      assert 4 * (low + p * high) == 4 * (low - p) + MODULUS;
    }
  }

  lemma PrintedDistance(memaddr: Word, relative: bool, instr: Word, d: Word)
    requires d == Distance(LI, Unpack(LI, instr))
    ensures Printed(memaddr, relative, LI, instr) == if relative then Plus(d, memaddr) else d
  {
  }

  lemma PlusDistance(d: Word, memaddr: Word, distance: int)
    requires Val(d) == Wrap(distance)
    ensures Val(Plus(d, memaddr)) == Wrap(Val(memaddr) + distance)
  {
    AddWrapped(distance, Val(memaddr));
  }

  lemma PrintedValue(memaddr: Word, relative: bool, instr: Word, target: int)
    requires target == (if relative then Val(memaddr) else 0) + ExtS(instr[2..26])
    ensures Val(Printed(memaddr, relative, LI, instr)) == Wrap(target)
  {
    var d := LiDistance(instr);
    PrintedDistance(memaddr, relative, instr, d);
    PlusDistance(d, memaddr, ExtS(instr[2..26]));
  }

  lemma UnconditionalStep(r: Regs, instr: Word, target: int)
    requires BranchOf(instr) == Unconditional && target == (if instr[1] then 0 else Cia(r)) + ExtS(instr[2..26])
    ensures DebuggerStep(instr, r) == Wrap(target)
  {
  }

  /** A branch always taken is stepped to the address the disassembler prints for it. */
  lemma StepsToPrinted(r: Regs, instr: Word)
    requires BranchOf(instr) == Unconditional && !r.nip[0] && !r.nip[1]
    ensures DebuggerStep(instr, r) == Val(Printed(r.nip, !instr[1], LI, instr))
  {
    var target := (if instr[1] then 0 else Cia(r)) + ExtS(instr[2..26]);
    AlignedCia(r);
    PrintedValue(r.nip, !instr[1], instr, target);
    UnconditionalStep(r, instr, target);
  }

  lemma AlignedCia(r: Regs)
    requires !r.nip[0] && !r.nip[1]
    ensures Cia(r) == Val(r.nip)
  {
    AlignedValue(r.nip);
  }

  lemma BranchRow(aa: bool, lk: bool, instr: Word)
    requires BEntry(aa, lk).Matches(instr)
    ensures BranchOf(instr) == Unconditional && instr[1] == aa
  {
    var op := BEntry(aa, lk);
    assert instr[1] == And(instr, op.mask)[1];
    MatchKeepsPrimary(op, instr);
  }

  lemma BranchReadsBack(memaddr: Word, aa: bool, lk: bool, target: Word, instr: Word)
    requires Assembling(memaddr, BEntry(aa, lk), [target], 3, instr)
    ensures BEntry(aa, lk).Matches(instr)
    ensures Printed(memaddr, !aa, LI, instr) == target <==> Fits(memaddr, !aa, LI, target)
  {
    BranchRowWellFormed(aa, lk);
    OnlyOperandReadsBack(memaddr, BEntry(aa, lk), target, instr);
  }

  /** Stepping onto an assembled `b target` (or bl, ba, bla) stops at the target exactly when the field can hold it. */
  lemma SteppedBranch(r: Regs, aa: bool, lk: bool, target: Word, instr: Word)
    requires !r.nip[0] && !r.nip[1]
    requires Assembling(r.nip, BEntry(aa, lk), [target], 3, instr)
    ensures BranchOf(instr) == Unconditional
    ensures DebuggerStep(instr, r) == Val(target) <==> Fits(r.nip, !aa, LI, target)
  {
    var printed := Printed(r.nip, !aa, LI, instr);
    BranchReadsBack(r.nip, aa, lk, target, instr);
    BranchRow(aa, lk, instr);
    StepsToPrinted(r, instr);
    SameValue(printed, target);
  }

  lemma SameValue(v: Word, w: Word)
    ensures Val(v) == Val(w) <==> v == w
  {
    if Val(v) == Val(w) {
      ValInjective(v, w);
    }
  }

  lemma BranchMasks()
    ensures Disjoint(FieldMask(LI), BMask()) && Within(FieldMask(AA), BMask()) && Within(FieldMask(LK), BMask())
    ensures Disjoint(FieldMask(LI), FieldMask(AA)) && Disjoint(FieldMask(LI), FieldMask(LK))
    ensures Disjoint(FieldMask(AA), FieldMask(LK))
  {
    var li, a, l := FieldMask(LI), FieldMask(AA), FieldMask(LK);
    forall i | 0 <= i < 32
      ensures li[i] == (2 <= i < 26) && a[i] == (i == 1) && l[i] == (i == 0)
    {
    }
  }

  lemma BRow(aa: bool, lk: bool) returns (op: Opcode)
    ensures op == BEntry(aa, lk) && op.fields == [LI, AA, LK] && op.mask == BMask() && Within(op.opcode, op.mask)
  {
    op := BEntry(aa, lk);
  }

  lemma BSilent(op: Opcode)
    requires op.fields == [LI, AA, LK]
    ensures !op.IsSilent(0) && op.IsSilent(1) && op.IsSilent(2)
  {
  }

  lemma OneWrittenField(op: Opcode, m0: Word, m1: Word, m2: Word)
    requires Within(op.opcode, op.mask) && |op.fields| == 3 && !op.IsSilent(0) && op.IsSilent(1) && op.IsSilent(2)
    requires m0 == FieldMask(op.fields[0]) && m1 == FieldMask(op.fields[1]) && m2 == FieldMask(op.fields[2])
    requires Disjoint(m0, op.mask) && Within(m1, op.mask) && Within(m2, op.mask)
    requires Disjoint(m0, m1) && Disjoint(m0, m2) && Disjoint(m1, m2)
    requires op.fields[0] != op.fields[1] && op.fields[0] != op.fields[2] && op.fields[1] != op.fields[2]
    ensures op.WellFormed()
  {
  }

  lemma BranchRowWellFormed(aa: bool, lk: bool)
    ensures BEntry(aa, lk).WellFormed()
  {
    BranchMasks();
    var op := BRow(aa, lk);
    BSilent(op);
    OneWrittenField(op, FieldMask(LI), FieldMask(AA), FieldMask(LK));
  }
}
