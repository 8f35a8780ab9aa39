/**
 * The bedbug assembler and disassembler over an opcode table: assembling an instruction from its
 * operands, looking the word up again by masked binary search, and reading its operands back.
 */
module PpcAssembler {
  import opened Words
  import opened PpcOperands

  /** One row of the opcode table. */
  datatype Opcode = Opcode(opcode: Word, mask: Word, fields: seq<Field>, relative: bool)
  {
    /** A word is this instruction, whatever its operands. */
    predicate Matches(instr: Word) { And(instr, mask) == opcode }

    /**
     * The opcode lies inside its mask; operands filled in by the opcode itself lie inside the mask too,
     * the others outside of it and of each other.
     */
    predicate WellFormed() {
      && Within(opcode, mask)
      && (forall j | 0 <= j < |fields| ::
        if IsSilent(j) then Within(FieldMask(fields[j]), mask) else Disjoint(FieldMask(fields[j]), mask))
      && (forall j, k | 0 <= j < k < |fields| ::
        fields[j] != fields[k] && Disjoint(FieldMask(fields[j]), FieldMask(fields[k])))
    }

    predicate IsSilent(j: nat)
      requires j < |fields|
    {
      Info(fields[j]).kind == Silent
    }
  }

  datatype Assembled = Instruction(instr: Word) | Failed(error: AsmError)

  /** How many of the first n operands are written in the source text. */
  function Written(op: Opcode, n: nat): nat
    requires n <= |op.fields|
  {
    if n == 0 then 0 else Written(op, n - 1) + if op.IsSilent(n - 1) then 0 else 1
  }

  /** The text has a number for each of the first n operands that are not silent, and each parses. */
  ghost predicate AllParse(memaddr: Word, op: Opcode, text: seq<Word>, n: nat)
    requires n <= |op.fields|
  {
    n == 0 || (AllParse(memaddr, op, text, n - 1) && ParsesAt(memaddr, op, text, n - 1))
  }

  ghost predicate ParsesAt(memaddr: Word, op: Opcode, text: seq<Word>, j: nat)
    requires j < |op.fields|
  {
    op.IsSilent(j) || OperandParses(memaddr, op, text, j)
  }

  lemma {:induction false} AllParseMeans(memaddr: Word, op: Opcode, text: seq<Word>, n: nat)
    requires n <= |op.fields|
    ensures AllParse(memaddr, op, text, n) <==> forall j | 0 <= j < n :: ParsesAt(memaddr, op, text, j)
  {
    if n > 0 {
      AllParseMeans(memaddr, op, text, n - 1);
    }
  }

  /** The word once the first n operands have been assembled. */
  ghost function AssembledWord(memaddr: Word, op: Opcode, text: seq<Word>, n: nat): Word
    requires n <= |op.fields| && AllParse(memaddr, op, text, n)
  {
    if n == 0 then op.opcode
    else
      var instr := AssembledWord(memaddr, op, text, n - 1);
      if op.IsSilent(n - 1) then instr
      else
        var data := ParseOperand(memaddr, op.relative, op.fields[n - 1], text[Written(op, n - 1)]).data;
        Or(instr, Pack(op.fields[n - 1], data))
  }

  /** The j-th operand, not silent, has a number in the text and it parses. */
  ghost predicate OperandParses(memaddr: Word, op: Opcode, text: seq<Word>, j: nat)
    requires j < |op.fields|
  {
    && Written(op, j) < |text|
    && ParseOperand(memaddr, op.relative, op.fields[j], text[Written(op, j)]).Data?
  }

  /** The j-th operand's bits are in place in instr. */
  ghost predicate Placed(memaddr: Word, op: Opcode, text: seq<Word>, j: nat, instr: Word)
    requires j < |op.fields|
  {
    && OperandParses(memaddr, op, text, j)
    && And(instr, FieldMask(op.fields[j]))
      == Pack(op.fields[j], ParseOperand(memaddr, op.relative, op.fields[j], text[Written(op, j)]).data)
  }

  /** ORing a field into a word leaves disjoint bits alone and sets those of the field, if they were clear. */
  lemma OrField(instr: Word, bits: Word, field: Word, other: Word)
    requires Within(bits, field)
    ensures Disjoint(field, other) ==> And(Or(instr, bits), other) == And(instr, other)
    ensures Disjoint(field, other) && Disjoint(instr, other) ==> Disjoint(Or(instr, bits), other)
    ensures Disjoint(instr, field) ==> And(Or(instr, bits), field) == bits
  {
  }

  /** After n operands: the opcode is intact, the first n operands are in place, the other fields are clear. */
  ghost predicate Assembling(memaddr: Word, op: Opcode, text: seq<Word>, n: nat, instr: Word)
    requires n <= |op.fields|
  {
    && And(instr, op.mask) == op.opcode
    && (forall j | 0 <= j < n && !op.IsSilent(j) :: Placed(memaddr, op, text, j, instr))
    && (forall j | n <= j < |op.fields| && !op.IsSilent(j) :: Disjoint(instr, FieldMask(op.fields[j])))
  }

  lemma AssemblingStarts(memaddr: Word, op: Opcode, text: seq<Word>)
    requires op.WellFormed()
    ensures Assembling(memaddr, op, text, 0, op.opcode)
  {
    assert And(op.opcode, op.mask) == op.opcode;
    forall j | 0 <= j < |op.fields| && !op.IsSilent(j)
      ensures Disjoint(op.opcode, FieldMask(op.fields[j]))
    {
      assert Disjoint(FieldMask(op.fields[j]), op.mask);
    }
  }

  lemma {:induction false} AssemblingDone(memaddr: Word, op: Opcode, text: seq<Word>, n: nat)
    requires op.WellFormed() && n <= |op.fields| && AllParse(memaddr, op, text, n)
    ensures Assembling(memaddr, op, text, n, AssembledWord(memaddr, op, text, n))
  {
    if n == 0 {
      AssemblingStarts(memaddr, op, text);
    } else {
      AssemblingDone(memaddr, op, text, n - 1);
      var instr := AssembledWord(memaddr, op, text, n - 1);
      if op.IsSilent(n - 1) {
        AssemblingSkip(memaddr, op, text, n - 1, instr);
        assert AssembledWord(memaddr, op, text, n) == instr;
      } else {
        AssemblingStep(memaddr, op, text, n - 1, instr);
      }
    }
  }

  lemma AssemblingSkip(memaddr: Word, op: Opcode, text: seq<Word>, n: nat, instr: Word)
    requires n < |op.fields| && op.IsSilent(n) && Assembling(memaddr, op, text, n, instr)
    ensures Assembling(memaddr, op, text, n + 1, instr)
  {
  }

  lemma AssemblingStep(memaddr: Word, op: Opcode, text: seq<Word>, n: nat, instr: Word)
    requires op.WellFormed() && n < |op.fields| && !op.IsSilent(n)
    requires Assembling(memaddr, op, text, n, instr) && OperandParses(memaddr, op, text, n)
    ensures var data := ParseOperand(memaddr, op.relative, op.fields[n], text[Written(op, n)]).data;
      Assembling(memaddr, op, text, n + 1, Or(instr, Pack(op.fields[n], data)))
  {
    var f := op.fields[n];
    var bits := Pack(f, ParseOperand(memaddr, op.relative, f, text[Written(op, n)]).data);
    PackFits(f, ParseOperand(memaddr, op.relative, f, text[Written(op, n)]).data);
    OrField(instr, bits, FieldMask(f), op.mask);
    forall j | 0 <= j < |op.fields| && j != n && !op.IsSilent(j)
      ensures And(Or(instr, bits), FieldMask(op.fields[j])) == And(instr, FieldMask(op.fields[j]))
      ensures Disjoint(instr, FieldMask(op.fields[j])) ==> Disjoint(Or(instr, bits), FieldMask(op.fields[j]))
    {
      assert Disjoint(FieldMask(f), FieldMask(op.fields[j])) by {
        if j < n {
          assert Disjoint(FieldMask(op.fields[j]), FieldMask(f));
        }
      }
      OrField(instr, bits, FieldMask(f), FieldMask(op.fields[j]));
    }
  }

  /** The next operand of the text, as operand n of the instruction. */
  function NextOperand(memaddr: Word, op: Opcode, text: seq<Word>, n: nat, used: nat): Parsed
    requires n < |op.fields|
  {
    if used >= |text| then Bad(NumOperands) else ParseOperand(memaddr, op.relative, op.fields[n], text[used])
  }

  lemma OperandTaken(memaddr: Word, op: Opcode, text: seq<Word>, n: nat, data: Word)
    requires n < |op.fields| && !op.IsSilent(n) && AllParse(memaddr, op, text, n)
    requires NextOperand(memaddr, op, text, n, Written(op, n)) == Data(data)
    ensures AllParse(memaddr, op, text, n + 1)
    ensures Written(op, n + 1) == Written(op, n) + 1 <= |text|
    ensures AssembledWord(memaddr, op, text, n + 1)
      == Or(AssembledWord(memaddr, op, text, n), Pack(op.fields[n], data))
  {
  }

  lemma OperandRefused(memaddr: Word, op: Opcode, text: seq<Word>, n: nat)
    requires n < |op.fields| && !op.IsSilent(n)
    requires NextOperand(memaddr, op, text, n, Written(op, n)).Bad?
    ensures !AllParse(memaddr, op, text, |op.fields|)
  {
    AllParseMeans(memaddr, op, text, |op.fields|);
    assert !ParsesAt(memaddr, op, text, n);
  }

  lemma OperandSilent(memaddr: Word, op: Opcode, text: seq<Word>, n: nat)
    requires n < |op.fields| && op.IsSilent(n) && AllParse(memaddr, op, text, n)
    ensures AllParse(memaddr, op, text, n + 1) && Written(op, n + 1) == Written(op, n)
    ensures AssembledWord(memaddr, op, text, n + 1) == AssembledWord(memaddr, op, text, n)
  {
  }

  /** One operand of the loop: ORs it into the instruction, if it is written and can be taken. */
  method AssembleOperand(memaddr: Word, op: Opcode, text: seq<Word>, n: nat, used: nat, instr: Word)
    returns (param: Parsed, used': nat, instr': Word)
    requires n < |op.fields| && AllParse(memaddr, op, text, n)
    requires used == Written(op, n) <= |text| && instr == AssembledWord(memaddr, op, text, n)
    ensures param.Data? ==>
      && AllParse(memaddr, op, text, n + 1)
      && used' == Written(op, n + 1) <= |text| && instr' == AssembledWord(memaddr, op, text, n + 1)
    ensures param.Bad? ==> !op.IsSilent(n) && param == NextOperand(memaddr, op, text, n, used)
  {
    used', instr' := used, instr;
    if op.IsSilent(n) {
      OperandSilent(memaddr, op, text, n);
      param := Data(instr);
    } else {
      param := NextOperand(memaddr, op, text, n, used);
      if param.Data? {
        OperandTaken(memaddr, op, text, n, param.data);
        used', instr' := used + 1, Or(instr, Pack(op.fields[n], param.data));
      }
    }
  }

  /** The loop over the operands, up to the first that cannot be taken. */
  method AssembleOperands(memaddr: Word, op: Opcode, text: seq<Word>) returns (param: Parsed, n: nat, instr: Word)
    ensures n <= |op.fields| && AllParse(memaddr, op, text, n)
    ensures param.Data? ==> n == |op.fields| && instr == AssembledWord(memaddr, op, text, n)
    ensures param.Bad? ==>
      n < |op.fields| && !op.IsSilent(n) && param == NextOperand(memaddr, op, text, n, Written(op, n))
  {
    instr := op.opcode;
    param := Data(instr);
    n := 0;
    var used := 0;
    while n < |op.fields|
      invariant 0 <= n <= |op.fields| && used == Written(op, n) <= |text| && param.Data?
      invariant AllParse(memaddr, op, text, n)
      invariant instr == AssembledWord(memaddr, op, text, n)
    {
      param, used, instr := AssembleOperand(memaddr, op, text, n, used, instr);
      if param.Bad? {
        return;
      }
      n := n + 1;
    }
  }

  /** Assembles one instruction from the numbers of its operands; failedAt is the operand it could not take. */
  method Assemble(memaddr: Word, op: Opcode, text: seq<Word>) returns (r: Assembled, failedAt: nat)
    requires op.WellFormed()
    ensures r.Instruction? <==> AllParse(memaddr, op, text, |op.fields|)
    ensures r.Instruction? ==> Assembling(memaddr, op, text, |op.fields|, r.instr)
    ensures r.Failed? ==>
      && failedAt < |op.fields| && !op.IsSilent(failedAt) && AllParse(memaddr, op, text, failedAt)
      && NextOperand(memaddr, op, text, failedAt, Written(op, failedAt)) == Bad(r.error)
  {
    var param, instr;
    param, failedAt, instr := AssembleOperands(memaddr, op, text);
    if param.Bad? {
      OperandRefused(memaddr, op, text, failedAt);
      r := Failed(param.error);
    } else {
      AssemblingDone(memaddr, op, text, failedAt);
      r := Instruction(instr);
    }
  }

  /** get_operand_value: the operand's value if the instruction has that operand. */
  method GetOperandValue(op: Opcode, instr: Word, field: Field) returns (found: bool, value: Word)
    ensures found <==> field in op.fields
    ensures found ==> value == Unpack(field, instr)
  {
    for i := 0 to |op.fields|
      invariant field !in op.fields[..i]
    {
      if op.fields[i] == field {
        return true, Unpack(field, instr);
      }
    }
    return false, instr;
  }

  /**
   * Assembling and disassembling undo each other: the word matches its opcode, silent operands read as
   * the opcode has them, and every other operand is printed as the number it was typed as exactly when
   * that number fits its field.
   */
  lemma AssembledReadsBack(memaddr: Word, op: Opcode, text: seq<Word>, instr: Word, j: nat)
    requires op.WellFormed() && j < |op.fields|
    requires Assembling(memaddr, op, text, |op.fields|, instr)
    ensures op.Matches(instr)
    ensures op.IsSilent(j) ==> Unpack(op.fields[j], instr) == Unpack(op.fields[j], op.opcode)
    ensures !op.IsSilent(j) ==>
      && OperandParses(memaddr, op, text, j)
      && var n := text[Written(op, j)];
         && Unpack(op.fields[j], instr)
           == And(ParseOperand(memaddr, op.relative, op.fields[j], n).data, LowMask(Info(op.fields[j]).bits))
         && (Printed(memaddr, op.relative, op.fields[j], instr) == n <==> Fits(memaddr, op.relative, op.fields[j], n))
  {
    var f := op.fields[j];
    if op.IsSilent(j) {
      forall i | 0 <= i < 32
        ensures And(instr, FieldMask(f))[i] == And(op.opcode, FieldMask(f))[i]
      {
        assert And(instr, op.mask)[i] == op.opcode[i];
      }
      UnpackLocal(f, instr, op.opcode);
    } else {
      assert Placed(memaddr, op, text, j, instr);
      var n := text[Written(op, j)];
      var data := ParseOperand(memaddr, op.relative, f, n).data;
      PackFits(f, data);
      MaskTwice(instr, f, Pack(f, data));
      OperandRoundTrip(memaddr, op.relative, f, n, instr);
    }
  }

  /** An instruction with one written operand, its first. */
  lemma OnlyOperandReadsBack(memaddr: Word, op: Opcode, n: Word, instr: Word)
    requires op.WellFormed() && |op.fields| > 0 && !op.IsSilent(0)
    requires Assembling(memaddr, op, [n], |op.fields|, instr)
    ensures op.Matches(instr)
    ensures Printed(memaddr, op.relative, op.fields[0], instr) == n <==> Fits(memaddr, op.relative, op.fields[0], n)
  {
    AssembledReadsBack(memaddr, op, [n], instr, 0);
  }

  // Finding an instruction in the table.

  /** The numeric comparison find_opcode makes: below, at or above the entry. */
  function Compare(op: Opcode, instr: Word): int { Val(And(instr, op.mask)) - Val(op.opcode) }

  /** Seen from instr, entries go from those below it to those above it. */
  ghost predicate OrderedFor(table: seq<Opcode>, instr: Word) {
    forall j, k | 0 <= j < k < |table| :: Compare(table[j], instr) <= 0 ==> Compare(table[k], instr) < 0
  }

  /**
   * The layout of the repository's opcode table: sorted by opcode, with one mask for each primary opcode
   * (the top six bits), a mask that always includes those bits.
   */
  ghost predicate TableSorted(table: seq<Opcode>) {
    && (forall j | 0 <= j < |table| :: Within(table[j].opcode, table[j].mask))
    && (forall j, i | 0 <= j < |table| && 26 <= i < 32 :: table[j].mask[i])
    && (forall j, k | 0 <= j < k < |table| :: InOrder(table[j], table[k]))
  }

  ghost predicate InOrder(a: Opcode, b: Opcode) {
    && Val(a.opcode) < Val(b.opcode)
    && (a.opcode[26..] == b.opcode[26..] ==> a.mask == b.mask)
  }

  lemma PairOrdered(a: Opcode, b: Opcode, instr: Word)
    requires InOrder(a, b) && forall i | 26 <= i < 32 :: a.mask[i] && b.mask[i]
    ensures Compare(a, instr) <= 0 ==> Compare(b, instr) < 0
  {
    if a.opcode[26..] != b.opcode[26..] {
      if Val(a.opcode[26..]) == Val(b.opcode[26..]) {
        ValInjective(a.opcode[26..], b.opcode[26..]);
      }
      var x, y := And(instr, a.mask), And(instr, b.mask);
      assert x[26..] == y[26..];
      UpperDecides(b.opcode, a.opcode);
      UpperDecides(a.opcode, x);
      UpperDecides(y, b.opcode);
    }
  }

  /** Of two words the one with the greater top six bits is greater. */
  lemma UpperDecides(v: Word, w: Word)
    ensures Val(v[26..]) < Val(w[26..]) ==> Val(v) < Val(w)
  {
    if Val(v[26..]) < Val(w[26..]) {
      ValSplit(v, 26);
      ValSplit(w, 26);
      StepUp(Pow2(26), Val(v[26..]), Val(w[26..]));
    }
  }

  lemma StepUp(p: nat, a: nat, b: nat)
    requires a < b
    ensures p * a + p <= p * b
  {
    assert p * b == p * (b - 1) + p;
    if a < b - 1 {
      StepUp(p, a, b - 1);
    }
  }

  /** In a table so laid out every word sees the entries in order, which is what binary search needs. */
  lemma SortedIsOrdered(table: seq<Opcode>, instr: Word)
    requires TableSorted(table)
    ensures OrderedFor(table, instr)
  {
    forall j, k | 0 <= j < k < |table|
      ensures Compare(table[j], instr) <= 0 ==> Compare(table[k], instr) < 0
    {
      PairOrdered(table[j], table[k], instr);
    }
  }

  /** Binary search by masked comparison; at is -1 when nothing is found. */
  method FindOpcode(table: seq<Opcode>, instr: Word) returns (at: int)
    ensures -1 <= at < |table|
    ensures at >= 0 ==> table[at].Matches(instr)
    ensures OrderedFor(table, instr) && at < 0 ==> forall k | 0 <= k < |table| :: !table[k].Matches(instr)
    ensures OrderedFor(table, instr) && at >= 0 ==> forall k | 0 <= k < |table| && table[k].Matches(instr) :: k == at
  {
    var top, bottom := 0, |table| - 1;
    while top <= bottom
      invariant 0 <= top <= bottom + 1 <= |table|
      invariant OrderedFor(table, instr) ==> forall k | 0 <= k < top || bottom < k < |table| :: !table[k].Matches(instr)
    {
      var idx := (top + bottom) / 2;
      var c := Compare(table[idx], instr);
      if c < 0 {
        bottom := idx - 1;
      } else if c > 0 {
        top := idx + 1;
      } else {
        ValInjective(And(instr, table[idx].mask), table[idx].opcode);
        return idx;
      }
    }
    return -1;
  }
}
