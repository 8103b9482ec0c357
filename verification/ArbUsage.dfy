/** What ARB assembly programs take of an implementation's limits, and how much more they take
    once rewritten (native/src/arb_program_guard.c; sections 2.14 of GL_ARB_vertex_program and
    3.11 of GL_ARB_fragment_program, by which a program past a limit does not load). */
module ArbUsage {
  import opened Options
  import opened Text
  import opened ArbGuard
  import opened ArbMachine

  // ---------------------------------------------------------------- limits

  /** What the implementation leaves to the statements of a program, besides what its options take.
      Which parameters an operand or a line binds, and which of them are the same, is left open. */
  datatype Loader = Loader(
    instructions: nat,
    arithmetic: nat,
    temporaries: nat,
    parameters: nat,
    bindings: string -> set<string>)

  /** Instructions, those among them that do not sample a texture, declared temporaries, the
      rewriter's parameters and those of the program. */
  datatype Usage = Usage(instructions: nat, arithmetic: nat, temporaries: nat, own: nat, bindings: set<string>)

  predicate Within(l: Loader, u: Usage)
  {
    && u.instructions <= l.instructions && u.arithmetic <= l.arithmetic
    && u.temporaries <= l.temporaries && u.own + |u.bindings| <= l.parameters
  }

  function Plus(u: Usage, v: Usage): Usage {
    Usage(u.instructions + v.instructions, u.arithmetic + v.arithmetic, u.temporaries + v.temporaries, u.own + v.own,
      u.bindings + v.bindings)
  }

  const NOTHING: Usage := Usage(0, 0, 0, 0, {})
  const ONE: Usage := Usage(1, 1, 0, 0, {})

  function More(n: nat): Usage {
    Usage(n, n, 0, 0, {})
  }

  // ---------------------------------------------------------------- what a line takes

  predicate NameChar(c: char) {
    'a' <= c <= 'z' || 'A' <= c <= 'Z' || '0' <= c <= '9' || c == '_' || c == '$'
  }

  /** The line's first word, with any blank after it or none. */
  predicate Starts(line: string, word: string)
  {
    var o := line[Blanks(line)..];
    |o| >= |word| && o[..|word|] == word && (|o| == |word| || !NameChar(o[|word|]))
  }

  /** Lines that no limit counts. */
  predicate Uncounted(line: string)
  {
    || Idle(line) || Starts(line, "OPTION") || Starts(line, "END")
    || Starts(line, "ATTRIB") || Starts(line, "OUTPUT") || Starts(line, "ADDRESS") || Starts(line, "ALIAS")
  }

  predicate Sampling(line: string) {
    Starts(line, "TEX") || Starts(line, "TXP") || Starts(line, "TXB") || Starts(line, "KIL")
  }

  function Commas(t: string): nat {
    if t == "" then 0 else (if t[0] == ',' then 1 else 0) + Commas(t[1..])
  }

  function OperandBindings(l: Loader, operands: seq<string>): set<string>
  {
    if operands == [] then {}
    else (if Own(operands[0]) then {} else l.bindings(operands[0])) + OperandBindings(l, operands[1..])
  }

  function LineBindings(l: Loader, line: string): set<string>
  {
    if Contains(line, RESERVED) then
      if Parse(line).Some? then OperandBindings(l, Operands(Parse(line).value)) else {}
    else if Guarding(line) then l.bindings(Parse(line).value.rest)
    else l.bindings(line)
  }

  function LineUses(l: Loader, line: string): Usage
  {
    if Uncounted(line) then NOTHING
    else if Starts(line, "TEMP") then Usage(0, 0, Commas(line[..Find(line, '#')]) + 1, 0, {})
    else if line == PARAMETER then Usage(0, 0, 0, 1, {})
    else if Starts(line, "PARAM") then Usage(0, 0, 0, 0, LineBindings(l, line))
    else Usage(1, if Sampling(line) then 0 else 1, 0, 0, LineBindings(l, line))
  }

  function Uses(l: Loader, t: string): Usage
    decreases |t|
  {
    if t == "" then NOTHING else Plus(LineUses(l, t[..LineEnd(t)]), Uses(l, t[NextLine(t)..]))
  }

  /** The first line starts with the header, which takes nothing; what follows it there counts. */
  function ProgramUses(l: Loader, t: string): Usage
  {
    if LineEnd(t) < 10 then NOTHING else Plus(LineUses(l, t[10..LineEnd(t)]), Uses(l, t[NextLine(t)..]))
  }

  // ---------------------------------------------------------------- reading on

  lemma PlusLaws(u: Usage, v: Usage, w: Usage)
    ensures Plus(Plus(u, v), w) == Plus(u, Plus(v, w)) && Plus(u, v) == Plus(v, u)
    ensures Plus(u, NOTHING) == u == Plus(NOTHING, u)
  {
  }

  lemma {:induction false} UsesConcat(l: Loader, a: string, b: string)
    requires WholeLines(a) || b == ""
    ensures Uses(l, a + b) == Plus(Uses(l, a), Uses(l, b))
    decreases |a|
  {
    hide LineUses, LineEnd, NextLine, WholeLines, Plus;
    PlusLaws(Uses(l, a), Uses(l, b), NOTHING);
    if b == "" {
      assert a + b == a;
    } else if a == "" {
      assert a + b == b;
      PlusLaws(Uses(l, b), NOTHING, NOTHING);
    } else {
      var rest := a[NextLine(a)..];
      FirstLineOfTwo(a, b);
      assert (a + b)[..LineEnd(a)] == a[..LineEnd(a)];
      assert (a + b)[NextLine(a)..] == rest + b;
      UsesConcat(l, rest, b);
      PlusLaws(LineUses(l, a[..LineEnd(a)]), Uses(l, rest), Uses(l, b));
    }
  }

  lemma OneLineUses(l: Loader, line: string, more: string)
    requires !Has(line, '\n')
    ensures Uses(l, line + "\n" + more) == Plus(LineUses(l, line), Uses(l, more))
  {
    hide LineUses, LineEnd, NextLine, Plus;
    FirstLine(line, more);
    var t := line + "\n" + more;
    assert t[..|line|] == line && t[|line| + 1..] == more;
  }

  // ---------------------------------------------------------------- printed instructions

  /** A three-letter word and a blank: neither a declaration nor any other three-letter word. */
  lemma NotStarts(line: string, op: string, word: string)
    requires |op| == 3 && !Blank(op[0]) && 3 <= |word| && word != op && (|word| > 3 ==> !Blank(word[3]))
    requires var t := line[Blanks(line)..]; |t| >= 4 && t[..3] == op && Blank(t[3])
    ensures !Starts(line, word)
  {
    var o := line[Blanks(line)..];
    assert |o| >= |word| > 3 ==> o[..|word|][3] == o[3];
    assert |o| >= |word| ==> o[..|word|][..3] == o[..3];
  }

  predicate Instruction(op: string) {
    op == "RSQ" || op == "RCP" || op == "MAX" || op == "ABS" || op == "MUL" || op == "MAD" || op == "SLT" || op == "MOV"
  }

  /** Such an instruction is counted as one, and it samples nothing. */
  lemma CountedOnce(l: Loader, line: string, op: string)
    requires Instruction(op)
    requires var t := line[Blanks(line)..]; |t| >= 4 && t[..3] == op && Blank(t[3])
    ensures LineUses(l, line) == Usage(1, 1, 0, 0, LineBindings(l, line))
  {
    hide Starts, LineBindings, Blanks, Idle;
    NotIdleWord(line, op);
    NotStarts(line, op, "OPTION");
    NotStarts(line, op, "END");
    NotStarts(line, op, "ATTRIB");
    NotStarts(line, op, "OUTPUT");
    NotStarts(line, op, "ADDRESS");
    NotStarts(line, op, "ALIAS");
    NotStarts(line, op, "TEMP");
    NotStarts(line, op, "PARAM");
    NotStarts(line, op, "TEX");
    NotStarts(line, op, "TXP");
    NotStarts(line, op, "TXB");
    NotStarts(line, op, "KIL");
    NotParameter(line, op);
  }

  lemma NotIdleWord(line: string, op: string)
    requires Instruction(op)
    requires var t := line[Blanks(line)..]; |t| >= 4 && t[..3] == op && Blank(t[3])
    ensures |op| == 3 && !Blank(op[0]) && !Idle(line)
  {
    hide Blanks;
    var t := line[Blanks(line)..];
    assert t[0] == t[..3][0] == op[0];
  }

  lemma NotParameter(line: string, op: string)
    requires |op| == 3 && !Blank(op[0])
    requires var t := line[Blanks(line)..]; |t| >= 4 && t[..3] == op && Blank(t[3])
    ensures line != PARAMETER
  {
    hide Blanks;
    ParameterText();
  }

  lemma ParameterText()
    ensures PARAMETER[0] == 'P' && PARAMETER[3] == 'A' && PARAMETER[0..] == PARAMETER
  {
  }

  lemma PrintedUses(l: Loader, op: string, dst: string, rest: string, more: string)
    requires Instruction(op) && Printable(op, dst, rest)
    ensures Uses(l, Line(op, dst, rest, more)) ==
            Plus(Usage(1, 1, 0, 0, OperandBindings(l, Operands(Statement(op, dst, rest, "")))), Uses(l, more))
  {
    hide Parse, Contains, LineUses, Plus, OperandBindings, Operands, Blanks, Uses, Instruction;
    var line := op + " " + dst + ", " + rest + ";";
    PrintedLine(op, dst, rest);
    LineStarts(op, dst, rest);
    CountedOnce(l, line, op);
    OneLineUses(l, line, more);
  }

  lemma LineStarts(op: string, dst: string, rest: string)
    requires Opcode(op) && !Has(dst, '\n') && !Has(rest, '\n')
    ensures var line := op + " " + dst + ", " + rest + ";";
            var t := line[Blanks(line)..]; |t| >= 4 && t[..3] == op && Blank(t[3]) && !Has(line, '\n')
  {
    hide Blanks;
    var line := op + " " + dst + ", " + rest + ";";
    assert line[0] == op[0] && line[0..] == line;
  }

  lemma {:induction false} OwnBindNothing(l: Loader, operands: seq<string>)
    requires forall k :: 0 <= k < |operands| ==> Own(operands[k])
    ensures OperandBindings(l, operands) == {}
  {
    hide Own;
    if operands != [] {
      OwnBindNothing(l, operands[1..]);
    }
  }

  lemma UsesOne(l: Loader, op: string, dst: string, a: string, more: string)
    requires op == "MOV" || op == "ABS" || op == "RSQ" || op == "RCP"
    requires Destination(dst) && Operand(a) && (Own(dst) || Own(a))
    ensures Uses(l, Line(op, dst, a, more)) ==
            Plus(Usage(1, 1, 0, 0, if Own(a) then {} else l.bindings(a)), Uses(l, more))
  {
    hide Own, Destination, Operand, Line, Printable, Uses, Plus;
    PrintsOne(op, dst, a);
    PrintedUses(l, op, dst, a, more);
    assert OperandBindings(l, []) == {} && [a][1..] == [];
    assert OperandBindings(l, [a]) == if Own(a) then {} else l.bindings(a);
  }

  predicate SeveralOperands(op: string) {
    op == "MAX" || op == "SLT" || op == "MUL" || op == "MAD"
  }

  lemma Splits(op: string, dst: string, rest: string)
    requires SeveralOperands(op)
    ensures Instruction(op) && Opcode(op) && Operands(Statement(op, dst, rest, "")) == Split(rest)
  {
    hide Split;
    assert op[2] != "MOV"[2] && op[0] != "ABS"[0] && op[0] != "RSQ"[0] && op[0] != "RCP"[0];
  }

  lemma UsesTwo(l: Loader, op: string, dst: string, a: string, b: string, more: string)
    requires (op == "MAX" || op == "SLT" || op == "MUL") && Destination(dst) && Own(a) && Own(b)
    ensures Uses(l, Line(op, dst, a + ", " + b, more)) == Plus(ONE, Uses(l, more))
  {
    hide Own, Destination, Line, Printable, Uses, Split, Plus, Operands, Instruction, Opcode;
    Splits(op, dst, a + ", " + b);
    PrintsTwo(op, dst, a, b);
    PrintedUses(l, op, dst, a + ", " + b, more);
    OwnBindNothing(l, [a, b]);
  }

  lemma UsesThree(l: Loader, dst: string, a: string, b: string, c: string, more: string)
    requires Destination(dst) && Own(a) && Own(b) && Own(c)
    ensures Uses(l, Line("MAD", dst, a + ", " + b + ", " + c, more)) == Plus(ONE, Uses(l, more))
  {
    hide Own, Destination, Line, Printable, Uses, Split, Plus, Operands, Instruction, Opcode;
    Splits("MAD", dst, a + ", " + b + ", " + c);
    PrintsThree("MAD", dst, a, b, c);
    PrintedUses(l, "MAD", dst, a + ", " + b + ", " + c, more);
    OwnBindNothing(l, [a, b, c]);
  }

  // ---------------------------------------------------------------- the expansions

  lemma OwnDestinations()
    ensures Own(SCRATCH_X) && Own(SCRATCH_Y) && Own(GUARD_X) && Own(GUARD_Y) && Own(GUARD_Z) && Own(GUARD_W)
    ensures Destination(SCRATCH_X) && Destination(SCRATCH_Y) && Operand(SCRATCH_X)
  {
    OwnWords(SCRATCH_X);
    OwnWords(SCRATCH_Y);
  }

  lemma NothingUsed(l: Loader)
    ensures Uses(l, "") == NOTHING
  {
  }

  /** Adding up, from the last instruction back to the first, which reads the operand. */
  lemma AddOne(n: nat)
    ensures Plus(ONE, More(n)) == More(n + 1) && Plus(ONE, NOTHING) == More(1)
  {
    hide Plus;
    PlusLaws(ONE, NOTHING, NOTHING);
    AddFirst({}, n);
  }

  lemma AddFirst(b: set<string>, n: nat)
    ensures Plus(Usage(1, 1, 0, 0, b), More(n)) == Usage(n + 1, n + 1, 0, 0, b)
  {
  }

  /** An RSQ becomes three instructions, which bind what its operand binds. */
  lemma RsqUses(l: Loader, dst: string, operand: string)
    requires Outside(dst, operand)
    ensures Uses(l, GuardedRsq(dst, operand)) == Usage(3, 3, 0, 0, l.bindings(operand))
  {
    hide Own, Destination, Operand, Line, Uses, Plus, More;
    OwnDestinations();
    NothingUsed(l);
    AddOne(0);
    AddOne(1);
    AddFirst(l.bindings(operand), 2);
    var r3 := Line("RSQ", dst, SCRATCH_X, "");
    UsesOne(l, "RSQ", dst, SCRATCH_X, "");
    UsesTwo(l, "MAX", SCRATCH_X, SCRATCH_X, GUARD_X, r3);
    UsesOne(l, "ABS", SCRATCH_X, operand, Line("MAX", SCRATCH_X, SCRATCH_X + ", " + GUARD_X, r3));
  }

  /** An RCP becomes seven. */
  lemma RcpUses(l: Loader, dst: string, operand: string)
    requires Outside(dst, operand)
    ensures Uses(l, GuardedRcp(dst, operand)) == Usage(7, 7, 0, 0, l.bindings(operand))
  {
    hide Own, Destination, Operand, Line, Uses, Plus, More;
    OwnDestinations();
    NothingUsed(l);
    AddOne(0);
    AddOne(1);
    AddOne(2);
    AddOne(3);
    AddOne(4);
    AddOne(5);
    AddFirst(l.bindings(operand), 6);
    var p7 := Line("MUL", dst, SCRATCH_X + ", " + SCRATCH_Y, "");
    var p6 := Line("MAD", SCRATCH_Y, SCRATCH_Y + ", " + GUARD_Y + ", " + GUARD_Z, p7);
    var p5 := Line("RCP", SCRATCH_X, SCRATCH_X, p6);
    var p4 := Line("MAX", SCRATCH_X, SCRATCH_X + ", " + GUARD_X, p5);
    var p3 := Line("ABS", SCRATCH_X, SCRATCH_X, p4);
    var p2 := Line("SLT", SCRATCH_Y, SCRATCH_X + ", " + GUARD_W, p3);
    UsesTwo(l, "MUL", dst, SCRATCH_X, SCRATCH_Y, "");
    UsesThree(l, SCRATCH_Y, SCRATCH_Y, GUARD_Y, GUARD_Z, p7);
    UsesOne(l, "RCP", SCRATCH_X, SCRATCH_X, p6);
    UsesTwo(l, "MAX", SCRATCH_X, SCRATCH_X, GUARD_X, p5);
    UsesOne(l, "ABS", SCRATCH_X, SCRATCH_X, p4);
    UsesTwo(l, "SLT", SCRATCH_Y, SCRATCH_X, GUARD_W, p3);
    UsesOne(l, "MOV", SCRATCH_X, operand, p2);
  }

  lemma GuardingUses(l: Loader, line: string)
    requires PlainLine(line) && Guarding(line)
    ensures LineUses(l, line) == Usage(1, 1, 0, 0, l.bindings(Parse(line).value.rest))
  {
    hide LineUses, Alone, Contains;
    CountedOnce(l, line, Parse(line).value.op);
  }

  // ---------------------------------------------------------------- whole programs

  /** The instructions a line gains. */
  function Gained(line: string): nat {
    if Unary(line, RSQ).Some? then 2 else if Unary(line, RCP).Some? then 6 else 0
  }

  /** The instructions a program gains: two for each RSQ and six for each RCP. */
  function Gain(t: string): nat {
    2 * Count(t, RSQ) + 6 * Count(t, RCP)
  }

  lemma GainSteps(t: string)
    requires t != ""
    ensures Gain(t) == Gained(t[..LineEnd(t)]) + Gain(t[NextLine(t)..])
  {
    hide LineEnd, NextLine, Parse;
  }

  lemma ReplacedUses(l: Loader, t: string)
    requires t != "" && PlainLine(t[..LineEnd(t)])
    ensures Uses(l, Replaced(t)) == Plus(LineUses(l, t[..LineEnd(t)]), More(Gained(t[..LineEnd(t)])))
    ensures WholeLines(Replaced(t)) || NextLine(t) == |t|
  {
    var line := t[..LineEnd(t)];
    assert !Has(line, '\n');
    hide LineEnd, NextLine, WholeLines, Uses, LineUses, Parse, PlainLine, GuardedRsq, GuardedRcp, Has, Outside, UpToNul;
    if Guarding(line) {
      ExpansionUses(l, line);
    } else {
      KeptLineUses(l, t);
      PlusLaws(LineUses(l, line), NOTHING, NOTHING);
    }
  }

  lemma ExpansionUses(l: Loader, line: string)
    requires PlainLine(line) && Guarding(line) && !Has(line, '\n')
    ensures Expansion(line).Some? && WholeLines(Expansion(line).value)
    ensures Uses(l, Expansion(line).value) == Plus(LineUses(l, line), More(Gained(line)))
  {
    hide Parse, WholeLines, Uses, LineUses, PlainLine, GuardedRsq, GuardedRcp, Outside, UpToNul, Has, Plus, More;
    hide Alone;
    var st := Parse(line).value;
    StatementOutside(line);
    GuardingUses(l, line);
    GuardedEndsLine(st.dst, st.rest);
    AddFirst(l.bindings(st.rest), Gained(line));
    if st.op == RSQ {
      RsqUses(l, st.dst, st.rest);
    } else {
      RcpUses(l, st.dst, st.rest);
    }
  }

  lemma KeptLineUses(l: Loader, t: string)
    requires t != ""
    ensures Uses(l, t[..NextLine(t)]) == LineUses(l, t[..LineEnd(t)])
    ensures WholeLines(t[..NextLine(t)]) || NextLine(t) == |t|
  {
    hide LineUses, Has, Plus, Uses;
    var n, line := NextLine(t), t[..LineEnd(t)];
    LacksNewline(t);
    NothingUsed(l);
    PlusLaws(LineUses(l, line), NOTHING, NOTHING);
    if n == LineEnd(t) + 1 {
      OneLineUses(l, line, "");
      assert line + "\n" + "" == t[..n];
    } else {
      LastLineUses(l, t);
    }
  }

  lemma LacksNewline(t: string)
    ensures !Has(t[..LineEnd(t)], '\n')
  {
  }

  lemma LastLineUses(l: Loader, t: string)
    requires t != "" && LineEnd(t) == |t|
    ensures Uses(l, t) == LineUses(l, t) && t[..LineEnd(t)] == t[..NextLine(t)] == t
  {
    hide LineUses, Plus, LineEnd;
    NothingUsed(l);
    PlusLaws(LineUses(l, t), NOTHING, NOTHING);
    assert t[..|t|] == t && t[|t|..] == "";
  }

  /** Rewriting adds two instructions for each RSQ and six for each RCP, and binds nothing new. */
  lemma {:induction false} RewrittenUses(l: Loader, t: string)
    requires Plain(t)
    ensures Uses(l, Rewritten(t)) == Plus(Uses(l, t), More(Gain(t)))
    decreases |t|
  {
    hide LineEnd, NextLine, WholeLines, Replaced, LineUses, PlainLine, Gained, Gain, Plus, More;
    if t == "" {
      NoGain();
    } else {
      var line, rest := t[..LineEnd(t)], t[NextLine(t)..];
      ReplacedUses(l, t);
      RewrittenUses(l, rest);
      UsesConcat(l, Replaced(t), Rewritten(rest));
      GainSteps(t);
      Exchange(LineUses(l, line), Gained(line), Uses(l, rest), Gain(rest));
    }
  }

  lemma Exchange(u: Usage, n: nat, v: Usage, k: nat)
    ensures Plus(Plus(u, More(n)), Plus(v, More(k))) == Plus(Plus(u, v), More(n + k))
  {
  }

  lemma NoGain()
    ensures Gain("") == 0 && Plus(NOTHING, More(0)) == NOTHING
  {
    hide Plus;
    PlusLaws(NOTHING, NOTHING, NOTHING);
  }

  /** The declarations take one temporary and one parameter. */
  lemma DeclarationsUse(l: Loader)
    ensures Uses(l, Declarations()) == Usage(0, 0, 1, 1, {})
  {
    hide Uses, LineUses, Has, Declarations, Plus;
    DeclarationsAdd();
    DeclarationsText();
    NoNewline(PARAMETER);
    NoNewline(SCRATCH);
    NothingUsed(l);
    ParameterUses(l);
    ScratchUses(l);
    OneLineUses(l, SCRATCH, "");
    OneLineUses(l, PARAMETER, SCRATCH + "\n");
  }

  lemma DeclarationsText()
    ensures Declarations() == PARAMETER + "\n" + (SCRATCH + "\n") && SCRATCH + "\n" + "" == SCRATCH + "\n"
  {
    Associates(PARAMETER + "\n", SCRATCH, "\n");
    NothingAfter(SCRATCH + "\n");
  }

  lemma NothingAfter(t: string)
    ensures t + "" == t
  {
  }

  lemma DeclarationsAdd()
    ensures Plus(Usage(0, 0, 1, 0, {}), NOTHING) == Usage(0, 0, 1, 0, {})
    ensures Plus(Usage(0, 0, 0, 1, {}), Usage(0, 0, 1, 0, {})) == Usage(0, 0, 1, 1, {})
  {
    hide Plus;
    PlusLaws(Usage(0, 0, 1, 0, {}), NOTHING, NOTHING);
    OwnBinding(Usage(0, 0, 1, 0, {}));
  }

  lemma OwnBinding(u: Usage)
    ensures Plus(Usage(0, 0, 0, 1, {}), u) == u.(own := u.own + 1)
  {
  }

  /** Text that starts otherwise than a word does not start with it. */
  lemma OtherWord(line: string, word: string, k: nat)
    requires line != "" && !Blank(line[0]) && k < |word| && k < |line| && line[k] != word[k]
    ensures !Starts(line, word)
  {
    assert Blanks(line) == 0 && line[0..] == line;
    assert |line| >= |word| ==> line[..|word|][k] == line[k];
  }

  lemma ParameterUses(l: Loader)
    ensures LineUses(l, PARAMETER) == Usage(0, 0, 0, 1, {})
  {
    assert PARAMETER[0] == 'P';
    NotIdle(PARAMETER);
    hide Starts, Idle, LineBindings;
    OtherWord(PARAMETER, "OPTION", 0);
    OtherWord(PARAMETER, "END", 0);
    OtherWord(PARAMETER, "ATTRIB", 0);
    OtherWord(PARAMETER, "OUTPUT", 0);
    OtherWord(PARAMETER, "ADDRESS", 0);
    OtherWord(PARAMETER, "ALIAS", 0);
    OtherWord(PARAMETER, "TEMP", 0);
  }

  lemma ScratchUses(l: Loader)
    ensures LineUses(l, SCRATCH) == Usage(0, 0, 1, 0, {})
  {
    hide Idle, LineBindings, Blanks, Find, Commas, Starts, Has;
    ScratchText();
    NotIdle(SCRATCH);
    OtherWord(SCRATCH, "OPTION", 0);
    OtherWord(SCRATCH, "END", 0);
    OtherWord(SCRATCH, "ATTRIB", 0);
    OtherWord(SCRATCH, "OUTPUT", 0);
    OtherWord(SCRATCH, "ADDRESS", 0);
    OtherWord(SCRATCH, "ALIAS", 0);
    FindsNothing(SCRATCH, '#');
    NoCommas(SCRATCH);
  }

  lemma ScratchText()
    ensures SCRATCH[0] == 'T' && SCRATCH[..|SCRATCH|] == SCRATCH && !Has(SCRATCH, '#') && !Has(SCRATCH, ',')
    ensures Starts(SCRATCH, "TEMP")
  {
    hide Starts, Has;
    ScratchLacks('#');
    ScratchLacks(',');
    ScratchStarts();
    WholeText(SCRATCH);
  }

  lemma ScratchLacks(c: char)
    requires c == '#' || c == ','
    ensures !Has(SCRATCH, c)
  {
  }

  lemma WholeText(t: string)
    ensures t[..|t|] == t == t[0..]
  {
  }

  lemma ScratchStarts()
    ensures SCRATCH[0] == 'T' && Starts(SCRATCH, "TEMP")
  {
    hide Blanks;
    ScratchWord();
    WholeText(SCRATCH);
  }

  lemma ScratchWord()
    ensures SCRATCH[0] == 'T' && SCRATCH[..4] == "TEMP" && SCRATCH[4] == ' ' && |SCRATCH| > 4
  {
  }

  lemma NoCommas(t: string)
    requires !Has(t, ',')
    ensures Commas(t) == 0
  {
    if t != "" {
      assert forall i :: 0 <= i < |t[1..]| ==> t[1..][i] == t[i + 1];
      NoCommas(t[1..]);
    }
  }

  lemma NotIdle(line: string)
    requires line != "" && !Blank(line[0]) && line[0] != '#' && line[0] != '\r'
    ensures !Idle(line)
  {
    assert Blanks(line) == 0 && line[0..] == line;
  }
}
