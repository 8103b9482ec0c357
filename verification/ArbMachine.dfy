/** What ARB assembly programs do, and that the rewritten ones do the same
    (native/src/arb_program_guard.c; sections 2.14.5 of GL_ARB_vertex_program and 3.11.5 of
    GL_ARB_fragment_program for the instructions). */
module ArbMachine {
  import opened Options
  import opened Text
  import opened ArbGuard

  /** What a program does to its own registers. */
  datatype Access = Read(operand: string) | Write(dst: string, value: real) | Other(line: string)

  /** How a program's own registers answer: reading a scalar operand, writing a scalar to the
      components a destination names, and running any other line. The approximation the
      hardware uses for reciprocal square roots, and what it makes of a division by zero
      and of a register nobody declared, are left open. */
  datatype Machine<!P> = Machine(
    read: (P, string) -> real,
    write: (P, string, real) -> P,
    other: (P, string) -> P,
    rsq: real -> real,
    rcpOfZero: real,
    undeclared: real)

  datatype Core<P> = Core(prog: P, log: seq<Access>)

  datatype Scratch = Scratch(x: real, y: real)
  datatype Params = Params(x: real, y: real, z: real, w: real)

  /** The program's registers and the two the rewriter declares. */
  datatype State<P> = State(core: Core<P>, scratch: Option<Scratch>, guard: Option<Params>)

  const RESERVED: string := "lp32_"

  // ---------------------------------------------------------------- numbers and declarations

  function Natural(t: string): real
  {
    if t == "" then 0.0 else Natural(t[..|t| - 1]) * 10.0 + (t[|t| - 1] as int - '0' as int) as real
  }

  function Power(n: nat): (p: real)
    ensures p > 0.0
  {
    if n == 0 then 1.0 else 10.0 * Power(n - 1)
  }

  function Scale(t: string): real
  {
    if t != "" && t[0] == '-' then 1.0 / Power(Whole(t[1..])) else Power(Whole(t))
  }

  function Whole(t: string): nat {
    var n := Natural(t).Floor;
    if n < 0 then -n else n
  }

  function Unsigned(t: string): real
  {
    var e := Find(t, 'e');
    if e == |t| then Natural(t) else Natural(t[..e]) * Scale(t[e + 1..])
  }

  function Numeral(t: string): real
  {
    if t != "" && t[0] == '-' then -Unsigned(t[1..]) else Unsigned(t)
  }

  function Split(t: string): (parts: seq<string>)
    decreases |t|
  {
    var f := FieldBefore(t, ',');
    if f.None? || |f.value.after| >= |t| then [t[Blanks(t)..][..Trimmed(t[Blanks(t)..])]]
    else [f.value.text] + Split(f.value.after)
  }

  const PARAM: string := "PARAM lp32_math_guard = {"

  function Declared(line: string): Option<Params>
  {
    if |line| < |PARAM| || line[..|PARAM|] != PARAM then None
    else
      var f := FieldBefore(line[|PARAM|..], '}');
      if f.None? || f.value.after != ";" then None
      else
        var v := Split(f.value.text);
        if |v| != 4 then None else Some(Params(Numeral(v[0]), Numeral(v[1]), Numeral(v[2]), Numeral(v[3])))
  }

  const EPSILON: real := 0.00000000000000000001

  lemma LastField(b: string, token: string)
    requires AllBlank(b) && Token(token) && !Has(token, ',')
    ensures Split(b + token) == [token]
  {
    hide Blanks, Trimmed, Find;
    SkipsBlanks(b, token);
    assert (b + token)[|b|..] == token;
    FindsNothing(token, ',');
    TrimsBlanks(token, "");
    assert token + "" == token;
  }

  lemma FirstField(b: string, token: string, after: string)
    requires AllBlank(b) && Token(token) && !Has(token, ',')
    ensures Split(b + token + "," + after) == [token] + Split(after)
  {
    hide Blanks, Trimmed, Find, FieldBefore;
    ReadsField(b, token, "", ',', after);
    assert b + (token + ("" + ([','] + after))) == b + token + "," + after;
  }

  lemma Numbers()
    ensures Numeral("1e-20") == EPSILON && Numeral("-2") == -2.0 && Numeral("1") == 1.0 && Numeral("0") == 0.0
  {
    assert Find("1e-20", 'e') == 1;
    assert "1e-20"[..1] == "1" && "1e-20"[2..] == "-20" && "-20"[1..] == "20" && "-2"[1..] == "2";
    assert Natural("") == 0.0;
    assert "20"[..1] == "2" && "2"[..0] == "";
    assert Natural("2") == 2.0 && Natural("20") == 20.0;
    assert Power(10) == 10000000000.0;
    PowerAdds(10, 10);
    assert Find("2", 'e') == 1 && Find("1", 'e') == 1 && Find("0", 'e') == 1;
  }

  lemma {:induction false} PowerAdds(n: nat, k: nat)
    ensures Power(n + k) == Power(n) * Power(k)
  {
    if k != 0 {
      PowerAdds(n, k - 1);
    }
  }

  lemma FourFields()
    ensures Split("1e-20, -2, 1, 0") == ["1e-20", "-2", "1", "0"]
  {
    hide FieldBefore, Split;
    FirstField("", "1e-20", " -2, 1, 0");
    FirstField(" ", "-2", " 1, 0");
    FirstField(" ", "1", " 0");
    LastField(" ", "0");
    assert "" + "1e-20" + "," + " -2, 1, 0" == "1e-20, -2, 1, 0";
    assert " " + "-2" + "," + " 1, 0" == " -2, 1, 0";
    assert " " + "1" + "," + " 0" == " 1, 0";
    assert " " + "0" == " 0";
  }

  /** The declared constants are 1e-20, -2, 1 and 0. */
  lemma ParameterDeclares()
    ensures Declared(PARAMETER) == Some(Params(EPSILON, -2.0, 1.0, 0.0))
  {
    hide FieldBefore, Split, Numeral;
    var fields := "1e-20, -2, 1, 0";
    assert PARAMETER[..|PARAM|] == PARAM;
    assert PARAMETER[|PARAM|..] == " " + (fields + (" " + ("}" + ";")));
    ReadsField(" ", fields, " ", '}', ";");
    FourFields();
    Numbers();
  }

  // ---------------------------------------------------------------- instructions

  function Magnitude(x: real): real {
    if x < 0.0 then -x else x
  }

  function Larger(x: real, y: real): real {
    if x < y then y else x
  }

  function Reciprocal<P>(m: Machine<P>, x: real): real {
    if x == 0.0 then m.rcpOfZero else 1.0 / x
  }

  /** What an instruction computes from the values of its operands. */
  function Compute<P>(m: Machine<P>, op: string, v: seq<real>): real
  {
    if |v| == 1 && op == "MOV" then v[0]
    else if |v| == 1 && op == "ABS" then Magnitude(v[0])
    else if |v| == 1 && op == "RSQ" then m.rsq(Magnitude(v[0]))
    else if |v| == 1 && op == "RCP" then Reciprocal(m, v[0])
    else if |v| == 2 && op == "MAX" then Larger(v[0], v[1])
    else if |v| == 2 && op == "MUL" then v[0] * v[1]
    else if |v| == 2 && op == "SLT" then (if v[0] < v[1] then 1.0 else 0.0)
    else if |v| == 3 && op == "MAD" then v[0] * v[1] + v[2]
    else m.undeclared
  }

  /** An operand of a one-operand instruction may hold commas: a literal vector. */
  function Operands(st: Statement): seq<string>
  {
    if st.op == "MOV" || st.op == "ABS" || st.op == "RSQ" || st.op == "RCP" then [st.rest] else Split(st.rest)
  }

  predicate Own(operand: string)
  {
    || operand == SCRATCH_X || operand == SCRATCH_Y
    || operand == GUARD_X || operand == GUARD_Y || operand == GUARD_Z || operand == GUARD_W
  }

  function OwnValue<P>(m: Machine<P>, s: State<P>, operand: string): real
  {
    if operand == SCRATCH_X && s.scratch.Some? then s.scratch.value.x
    else if operand == SCRATCH_Y && s.scratch.Some? then s.scratch.value.y
    else if operand == GUARD_X && s.guard.Some? then s.guard.value.x
    else if operand == GUARD_Y && s.guard.Some? then s.guard.value.y
    else if operand == GUARD_Z && s.guard.Some? then s.guard.value.z
    else if operand == GUARD_W && s.guard.Some? then s.guard.value.w
    else m.undeclared
  }

  function ValueOf<P>(m: Machine<P>, s: State<P>, a: string): real
  {
    if Own(a) then OwnValue(m, s, a) else m.read(s.core.prog, a)
  }

  function Values<P>(m: Machine<P>, s: State<P>, operands: seq<string>): seq<real>
  {
    if operands == [] then []
    else [ValueOf(m, s, operands[0])] + Values(m, s, operands[1..])
  }

  function Reads(operands: seq<string>): seq<Access>
  {
    if operands == [] then [] else (if Own(operands[0]) then [] else [Read(operands[0])]) + Reads(operands[1..])
  }

  function Store<P>(m: Machine<P>, s: State<P>, dst: string, v: real): State<P>
  {
    if dst == SCRATCH_X then (if s.scratch.None? then s else s.(scratch := Some(s.scratch.value.(x := v))))
    else if dst == SCRATCH_Y then (if s.scratch.None? then s else s.(scratch := Some(s.scratch.value.(y := v))))
    else s.(core := Core(m.write(s.core.prog, dst, v), s.core.log + [Write(dst, v)]))
  }

  function Apply<P>(m: Machine<P>, s: State<P>, st: Statement): State<P>
  {
    var operands := Operands(st);
    Store(m, s.(core := Core(s.core.prog, s.core.log + Reads(operands))), st.dst,
      Compute(m, st.op, Values(m, s, operands)))
  }

  // ---------------------------------------------------------------- programs

  /** Nothing but blanks or a comment. */
  predicate Idle(t: string)
  {
    var r := t[Blanks(t)..];
    r == "" || r[0] == '#' || r == "\r"
  }

  /** The line holds this statement and no other. */
  predicate Alone(st: Statement)
  {
    !Has(st.dst, ';') && !Has(st.dst, '#') && !Has(st.rest, '#') && Idle(st.tail)
  }

  predicate Guarding(line: string)
  {
    Parse(line).Some? && (Parse(line).value.op == RSQ || Parse(line).value.op == RCP)
  }

  /** One line of a program. Lines that use the rewriter's names are statements over its
      registers; RSQ and RCP on their own line are statements; any other line is the machine's. */
  function Exec<P>(m: Machine<P>, s: State<P>, line: string): State<P>
  {
    if Contains(line, RESERVED) then
      if line == SCRATCH then s.(scratch := Some(Scratch(m.undeclared, m.undeclared)))
      else if Declared(line).Some? then s.(guard := Declared(line))
      else if Parse(line).Some? then Apply(m, s, Parse(line).value)
      else s
    else if Guarding(line) && Alone(Parse(line).value) then Apply(m, s, Parse(line).value)
    else s.(core := Core(m.other(s.core.prog, line), s.core.log + [Other(line)]))
  }

  function Run<P>(m: Machine<P>, s: State<P>, t: string): State<P>
    decreases |t|
  {
    if t == "" then s else Run(m, Exec(m, s, t[..LineEnd(t)]), t[NextLine(t)..])
  }

  // ---------------------------------------------------------------- what guarding promises

  function Clamp(x: real): real {
    Larger(x, EPSILON)
  }

  /** The reciprocal of `x`, or of the number closest to it of magnitude 1e-20 and its sign. */
  function SignedReciprocal(x: real): real {
    if x < 0.0 then -1.0 / Clamp(-x) else 1.0 / Clamp(x)
  }

  function ExecClamped<P>(m: Machine<P>, c: Core<P>, line: string): Core<P>
  {
    if Guarding(line) && Alone(Parse(line).value) then
      var st := Parse(line).value;
      var x := m.read(c.prog, st.rest);
      var v := if st.op == RSQ then m.rsq(Clamp(Magnitude(x))) else SignedReciprocal(x);
      Core(m.write(c.prog, st.dst, v), c.log + [Read(st.rest), Write(st.dst, v)])
    else Core(m.other(c.prog, line), c.log + [Other(line)])
  }

  /** A run in which every RSQ and RCP sees an operand of magnitude 1e-20 or more. */
  function RunClamped<P>(m: Machine<P>, c: Core<P>, t: string): Core<P>
    decreases |t|
  {
    if t == "" then c else RunClamped(m, ExecClamped(m, c, t[..LineEnd(t)]), t[NextLine(t)..])
  }

  /** One statement to a line, and none of the rewriter's names. */
  predicate PlainLine(line: string)
  {
    !Contains(line, RESERVED) && !Has(line, '\0') && (Guarding(line) ==> Alone(Parse(line).value))
  }

  predicate Plain(t: string)
    decreases |t|
  {
    t == "" || (PlainLine(t[..LineEnd(t)]) && Plain(t[NextLine(t)..]))
  }

  /** Along the run of a program every RSQ and RCP operand has magnitude 1e-20 or more. */
  predicate LargeEnough<P>(m: Machine<P>, s: State<P>, t: string)
    decreases |t|
  {
    t == "" ||
    (var line := t[..LineEnd(t)];
     (Guarding(line) ==> Magnitude(m.read(s.core.prog, Parse(line).value.rest)) >= EPSILON) &&
     LargeEnough(m, Exec(m, s, line), t[NextLine(t)..]))
  }

  // ---------------------------------------------------------------- runs of printed lines

  lemma {:induction false} RunConcat<P>(m: Machine<P>, s: State<P>, a: string, b: string)
    requires WholeLines(a) || b == ""
    ensures Run(m, s, a + b) == Run(m, Run(m, s, a), b)
    decreases |a|
  {
    hide Exec, LineEnd, NextLine, WholeLines;
    if b == "" {
      assert a + b == a;
    } else if a == "" {
      assert a + b == b;
    } else {
      FirstLineOfTwo(a, b);
      assert (a + b)[..LineEnd(a)] == a[..LineEnd(a)];
      assert (a + b)[NextLine(a)..] == a[NextLine(a)..] + b;
      RunConcat(m, Exec(m, s, a[..LineEnd(a)]), a[NextLine(a)..], b);
    }
  }

  predicate Printable(op: string, dst: string, rest: string)
  {
    && WellFormed(Statement(op, dst, rest, ""))
    && !Has(op, '\n') && !Has(dst, '\n') && !Has(rest, '\n')
    && (Contains(dst, RESERVED) || Contains(rest, RESERVED))
  }

  /** A printed statement over the rewriter's registers does what it says. */
  lemma LineRuns<P>(m: Machine<P>, s: State<P>, op: string, dst: string, rest: string, more: string)
    requires Printable(op, dst, rest)
    ensures Run(m, s, Line(op, dst, rest, more)) == Run(m, Apply(m, s, Statement(op, dst, rest, "")), more)
  {
    hide Parse, Apply, Declared, Contains, LineEnd, NextLine;
    var line := op + " " + dst + ", " + rest + ";";
    PrintedLine(op, dst, rest);
    assert !Has(line, '\n');
    FirstLine(line, more);
    var t := Line(op, dst, rest, more);
    assert t == line + "\n" + more;
    assert t[..|line|] == line && t[|line| + 1..] == more;
  }

  lemma PrintedLine(op: string, dst: string, rest: string)
    requires Printable(op, dst, rest)
    ensures var line := op + " " + dst + ", " + rest + ";";
            && Contains(line, RESERVED) && line != SCRATCH && Declared(line) == None
            && Parse(line) == Some(Statement(op, dst, rest, ""))
  {
    hide Parse, Contains;
    var line := op + " " + dst + ", " + rest + ";";
    var g, st := Gaps("", " ", "", " ", ""), Statement(op, dst, rest, "");
    ParsesPrinted(g, st);
    assert StatementText(g, st) == line;
    ContainsPart(op + " ", dst, ", " + rest + ";");
    ContainsPart(op + " " + dst + ", ", rest, ";");
    assert line == op + " " + dst + (", " + rest + ";");
    assert line[3] == ' ' && SCRATCH[3] == 'P' && PARAM[3] == 'A';
  }

  lemma ContainsPart(a: string, t: string, b: string)
    ensures Contains(t, RESERVED) ==> Contains(a + t + b, RESERVED)
  {
    if Contains(t, RESERVED) {
      ContainsInside(a, t, b, RESERVED);
    }
  }

  // ---------------------------------------------------------------- what the expansions compute

  predicate Name(t: string)
  {
    Token(t) && !Has(t, ',') && !Has(t, ';') && !Has(t, '\n') && Contains(t, RESERVED)
  }

  lemma OwnName(t: string)
    requires Own(t)
    ensures Name(t)
  {
    assert At(t, 0, RESERVED);
  }

  lemma Distinct()
    ensures SCRATCH_X != SCRATCH_Y && SCRATCH_X != GUARD_X && SCRATCH_X != GUARD_Y && SCRATCH_X != GUARD_Z
    ensures SCRATCH_X != GUARD_W
    ensures SCRATCH_Y != GUARD_X && SCRATCH_Y != GUARD_Y && SCRATCH_Y != GUARD_Z && SCRATCH_Y != GUARD_W
    ensures GUARD_X != GUARD_Y && GUARD_X != GUARD_Z && GUARD_X != GUARD_W
    ensures GUARD_Y != GUARD_Z && GUARD_Y != GUARD_W && GUARD_Z != GUARD_W
  {
    assert SCRATCH_X[5] == 'r' == SCRATCH_Y[5] && GUARD_X[5] == 'm' == GUARD_Y[5] == GUARD_Z[5] == GUARD_W[5];
    assert SCRATCH_X[17] == 'x' && SCRATCH_Y[17] == 'y';
    assert GUARD_X[16] == 'x' && GUARD_Y[16] == 'y' && GUARD_Z[16] == 'z' && GUARD_W[16] == 'w';
  }

  lemma SplitTwo(a: string, b: string)
    requires Name(a) && Name(b)
    ensures Split(a + ", " + b) == [a, b]
  {
    hide Split, Contains;
    FirstField("", a, " " + b);
    LastField(" ", b);
    assert "" + a + "," + (" " + b) == a + ", " + b;
  }

  lemma SplitThree(a: string, b: string, c: string)
    requires Name(a) && Name(b) && Name(c)
    ensures Split(a + ", " + b + ", " + c) == [a, b, c]
  {
    hide Split, Contains;
    FirstField("", a, " " + b + ", " + c);
    FirstField(" ", b, " " + c);
    LastField(" ", c);
    assert "" + a + "," + (" " + b + ", " + c) == a + ", " + b + ", " + c;
    assert " " + b + "," + (" " + c) == " " + b + ", " + c;
  }

  predicate Opcode(op: string)
  {
    |op| == 3 && !Blank(op[0]) && !Has(op, '\n')
  }

  lemma FirstOperand<P>(m: Machine<P>, s: State<P>, a: string, rest: seq<string>)
    ensures Values(m, s, [a] + rest) == [ValueOf(m, s, a)] + Values(m, s, rest)
    ensures Reads([a] + rest) == (if Own(a) then [] else [Read(a)]) + Reads(rest)
    ensures Values(m, s, []) == [] && Reads([]) == []
  {
    assert ([a] + rest)[1..] == rest;
  }

  lemma AppliesOne<P>(m: Machine<P>, s: State<P>, op: string, dst: string, a: string, tail: string)
    requires op == "MOV" || op == "ABS" || op == "RSQ" || op == "RCP"
    ensures Apply(m, s, Statement(op, dst, a, tail)) ==
            Store(m, s.(core := Core(s.core.prog, s.core.log + (if Own(a) then [] else [Read(a)]))), dst,
              Compute(m, op, [ValueOf(m, s, a)]))
  {
    hide Own, ValueOf, Store, Compute, Values, Reads;
    FirstOperand(m, s, a, []);
    assert [a] + [] == [a];
    assert Values(m, s, [a]) == [ValueOf(m, s, a)] && Reads([a]) == if Own(a) then [] else [Read(a)];
  }

  /** Reading only the rewriter's registers leaves no trace. */
  lemma Traceless<P>(s: State<P>)
    ensures s.(core := Core(s.core.prog, s.core.log + [])) == s
  {
    assert s.core.log + [] == s.core.log;
  }

  lemma AppliesTwo<P>(m: Machine<P>, s: State<P>, op: string, dst: string, rest: string, a: string, b: string)
    requires op == "MAX" || op == "SLT" || op == "MUL"
    requires Own(a) && Own(b) && Split(rest) == [a, b]
    ensures Apply(m, s, Statement(op, dst, rest, "")) ==
            Store(m, s, dst, Compute(m, op, [OwnValue(m, s, a), OwnValue(m, s, b)]))
  {
    hide Own, OwnValue, Store, Compute, Split, Values, Reads;
    assert op[2] != "MOV"[2] && op[0] != "ABS"[0] && op[0] != "RSQ"[0] && op[0] != "RCP"[0];
    FirstOperand(m, s, a, [b]);
    FirstOperand(m, s, b, []);
    assert [a] + [b] == [a, b] && [b] + [] == [b];
    assert Values(m, s, [a, b]) == [OwnValue(m, s, a), OwnValue(m, s, b)] && Reads([a, b]) == [];
    Traceless(s);
  }

  lemma AppliesThree<P>(m: Machine<P>, s: State<P>, dst: string, rest: string, a: string, b: string, c: string)
    requires Own(a) && Own(b) && Own(c) && Split(rest) == [a, b, c]
    ensures Apply(m, s, Statement("MAD", dst, rest, "")) ==
            Store(m, s, dst, Compute(m, "MAD", [OwnValue(m, s, a), OwnValue(m, s, b), OwnValue(m, s, c)]))
  {
    hide Own, OwnValue, Store, Compute, Split, Values, Reads;
    assert "MAD"[2] != "MOV"[2] && "MAD"[0] != "ABS"[0] && "MAD"[0] != "RSQ"[0] && "MAD"[0] != "RCP"[0];
    FirstOperand(m, s, a, [b, c]);
    FirstOperand(m, s, b, [c]);
    FirstOperand(m, s, c, []);
    assert [a] + [b, c] == [a, b, c] && [b] + [c] == [b, c] && [c] + [] == [c];
    assert Values(m, s, [a, b, c]) == [OwnValue(m, s, a), OwnValue(m, s, b), OwnValue(m, s, c)]
      && Reads([a, b, c]) == [];
    Traceless(s);
  }

  predicate Destination(dst: string)
  {
    Token(dst) && !Has(dst, ',') && !Has(dst, '\n')
  }

  predicate Operand(a: string)
  {
    Token(a) && !Has(a, ';') && !Has(a, '\n')
  }

  lemma OwnWords(t: string)
    requires Own(t)
    ensures Destination(t) && Operand(t) && Contains(t, RESERVED)
  {
    OwnName(t);
  }

  lemma PrintsOne(op: string, dst: string, a: string)
    requires Opcode(op) && Destination(dst) && Operand(a) && (Own(dst) || Own(a))
    ensures Printable(op, dst, a)
  {
    if Own(dst) { OwnWords(dst); } else { OwnWords(a); }
    hide Own, Contains, Token;
  }

  lemma Joined(a: string, b: string)
    requires Name(a) && Operand(b)
    ensures Operand(a + ", " + b) && Contains(a + ", " + b, RESERVED)
  {
    ContainsPart("", a, ", " + b);
    hide Contains;
    assert "" + a + (", " + b) == a + ", " + b;
  }

  /** An instruction over one register, or two or three of the rewriter's own, on its own line. */
  lemma RunsOne<P>(m: Machine<P>, s: State<P>, op: string, dst: string, a: string, more: string)
    requires Opcode(op) && (op == "MOV" || op == "ABS" || op == "RSQ" || op == "RCP")
    requires Destination(dst) && Operand(a) && (Own(dst) || Own(a))
    ensures Run(m, s, Line(op, dst, a, more)) ==
            Run(m, Store(m, s.(core := Core(s.core.prog, s.core.log + (if Own(a) then [] else [Read(a)]))), dst,
              Compute(m, op, [ValueOf(m, s, a)])), more)
  {
    PrintsOne(op, dst, a);
    hide Own, ValueOf, Store, Compute, Apply, Run, Line, Printable;
    LineRuns(m, s, op, dst, a, more);
    AppliesOne(m, s, op, dst, a, "");
  }

  lemma RunsTwo<P>(m: Machine<P>, s: State<P>, op: string, dst: string, a: string, b: string, more: string)
    requires Opcode(op) && (op == "MAX" || op == "SLT" || op == "MUL")
    requires Destination(dst) && Own(a) && Own(b)
    ensures Run(m, s, Line(op, dst, a + ", " + b, more)) ==
            Run(m, Store(m, s, dst, Compute(m, op, [OwnValue(m, s, a), OwnValue(m, s, b)])), more)
  {
    hide Own, OwnValue, Store, Compute, Apply, Run, Line;
    PrintsTwo(op, dst, a, b);
    hide Printable;
    LineRuns(m, s, op, dst, a + ", " + b, more);
    AppliesTwo(m, s, op, dst, a + ", " + b, a, b);
  }

  lemma PrintsTwo(op: string, dst: string, a: string, b: string)
    requires Opcode(op) && Destination(dst) && Own(a) && Own(b)
    ensures Printable(op, dst, a + ", " + b) && Split(a + ", " + b) == [a, b]
  {
    hide Own;
    OwnName(a);
    OwnName(b);
    OwnWords(b);
    SplitTwo(a, b);
    hide Name, Split, Contains, Token;
    Joined(a, b);
  }

  lemma Associates(a: string, b: string, c: string)
    ensures a + b + c == a + (b + c)
  {
  }

  lemma PrintsThree(op: string, dst: string, a: string, b: string, c: string)
    requires Opcode(op) && Destination(dst) && Own(a) && Own(b) && Own(c)
    ensures Printable(op, dst, a + ", " + b + ", " + c) && Split(a + ", " + b + ", " + c) == [a, b, c]
  {
    hide Own;
    OwnName(a);
    OwnName(b);
    OwnName(c);
    OwnWords(c);
    SplitThree(a, b, c);
    hide Name, Split, Contains, Token;
    Joined(b, c);
    Joined(a, b + ", " + c);
    Associates(a + ", ", b, ", " + c);
    Associates(b, ", ", c);
    Associates(a + ", " + b, ", ", c);
  }

  lemma RunsThree<P>(m: Machine<P>, s: State<P>, dst: string, a: string, b: string, c: string, more: string)
    requires Destination(dst) && Own(a) && Own(b) && Own(c)
    ensures Run(m, s, Line("MAD", dst, a + ", " + b + ", " + c, more)) ==
            Run(m, Store(m, s, dst, Compute(m, "MAD", [OwnValue(m, s, a), OwnValue(m, s, b), OwnValue(m, s, c)])), more)
  {
    hide Own, OwnValue, Store, Compute, Apply, Run, Line;
    PrintsThree("MAD", dst, a, b, c);
    hide Printable;
    LineRuns(m, s, "MAD", dst, a + ", " + b + ", " + c, more);
    AppliesThree(m, s, dst, a + ", " + b + ", " + c, a, b, c);
  }

  /** Both declarations have been run. */
  predicate Ready<P>(s: State<P>)
  {
    s.scratch.Some? && s.guard == Some(Params(EPSILON, -2.0, 1.0, 0.0))
  }

  /** Program text that can stand as a destination or an operand. */
  predicate Outside(dst: string, operand: string)
  {
    Destination(dst) && !Own(dst) && Operand(operand) && !Own(operand)
  }

  function Written<P>(m: Machine<P>, c: Core<P>, dst: string, operand: string, v: real): Core<P>
  {
    Core(m.write(c.prog, dst, v), c.log + [Read(operand), Write(dst, v)])
  }

  function SetX<P>(s: State<P>, v: real): State<P>
    requires s.scratch.Some?
  {
    s.(scratch := Some(s.scratch.value.(x := v)))
  }

  function SetY<P>(s: State<P>, v: real): State<P>
    requires s.scratch.Some?
  {
    s.(scratch := Some(s.scratch.value.(y := v)))
  }

  /** Reading a program's operand into the scratch register. */
  lemma Loads<P>(m: Machine<P>, s: State<P>, op: string, operand: string, more: string)
    requires Ready(s) && Operand(operand) && !Own(operand) && (op == "ABS" || op == "MOV")
    ensures var x := m.read(s.core.prog, operand);
            var s' := s.(core := Core(s.core.prog, s.core.log + [Read(operand)]));
            Run(m, s, Line(op, SCRATCH_X, operand, more)) ==
              Run(m, SetX(s', if op == "ABS" then Magnitude(x) else x), more)
  {
    assert Own(SCRATCH_X);
    hide Run, Line;
    OwnWords(SCRATCH_X);
    hide Own, Destination, Operand;
    RunsOne(m, s, op, SCRATCH_X, operand, more);
  }

  lemma ClampsX<P>(m: Machine<P>, s: State<P>, more: string)
    requires Ready(s)
    ensures Run(m, s, Line("MAX", SCRATCH_X, SCRATCH_X + ", " + GUARD_X, more)) ==
            Run(m, SetX(s, Clamp(s.scratch.value.x)), more)
  {
    Distinct();
    hide Run, Line;
    OwnWords(SCRATCH_X);
    hide Destination, Operand;
    RunsTwo(m, s, "MAX", SCRATCH_X, SCRATCH_X, GUARD_X, more);
  }

  lemma RsqRuns<P>(m: Machine<P>, s: State<P>, dst: string, operand: string)
    requires Ready(s) && Outside(dst, operand)
    ensures Ready(Run(m, s, GuardedRsq(dst, operand)))
    ensures Run(m, s, GuardedRsq(dst, operand)).core ==
            Written(m, s.core, dst, operand, m.rsq(Clamp(Magnitude(m.read(s.core.prog, operand)))))
  {
    var x := m.read(s.core.prog, operand);
    var line3 := Line("RSQ", dst, SCRATCH_X, "");
    var line2 := Line("MAX", SCRATCH_X, SCRATCH_X + ", " + GUARD_X, line3);
    hide Line, Run;
    Loads(m, s, "ABS", operand, line2);
    var s1 := SetX(s.(core := Core(s.core.prog, s.core.log + [Read(operand)])), Magnitude(x));
    ClampsX(m, s1, line3);
    StoresRsq(m, SetX(s1, Clamp(Magnitude(x))), dst);
  }

  lemma StoresRsq<P>(m: Machine<P>, s: State<P>, dst: string)
    requires Ready(s) && Destination(dst) && !Own(dst) && s.scratch.value.x >= 0.0
    ensures Run(m, s, Line("RSQ", dst, SCRATCH_X, "")) ==
            s.(core := Core(m.write(s.core.prog, dst, m.rsq(s.scratch.value.x)),
              s.core.log + [Write(dst, m.rsq(s.scratch.value.x))]))
  {
    OwnWords(SCRATCH_X);
    hide Line, Destination, Operand;
    RunsOne(m, s, "RSQ", dst, SCRATCH_X, "");
    hide Run;
    assert s.core.log + [] == s.core.log;
  }

  function Negative(x: real): real {
    if x < 0.0 then 1.0 else 0.0
  }

  lemma ComparesX<P>(m: Machine<P>, s: State<P>, more: string)
    requires Ready(s)
    ensures Run(m, s, Line("SLT", SCRATCH_Y, SCRATCH_X + ", " + GUARD_W, more)) ==
            Run(m, SetY(s, Negative(s.scratch.value.x)), more)
  {
    Distinct();
    hide Run, Line;
    OwnWords(SCRATCH_Y);
    hide Destination, Operand;
    RunsTwo(m, s, "SLT", SCRATCH_Y, SCRATCH_X, GUARD_W, more);
  }

  lemma ChangesX<P>(m: Machine<P>, s: State<P>, op: string, more: string)
    requires Ready(s) && (op == "ABS" || op == "RCP")
    ensures Run(m, s, Line(op, SCRATCH_X, SCRATCH_X, more)) ==
            Run(m, SetX(s, if op == "ABS" then Magnitude(s.scratch.value.x) else Reciprocal(m, s.scratch.value.x)),
              more)
  {
    hide Run, Line;
    OwnWords(SCRATCH_X);
    hide Destination, Operand;
    RunsOne(m, s, op, SCRATCH_X, SCRATCH_X, more);
    Traceless(s);
  }

  lemma SignsY<P>(m: Machine<P>, s: State<P>, more: string)
    requires Ready(s)
    ensures Run(m, s, Line("MAD", SCRATCH_Y, SCRATCH_Y + ", " + GUARD_Y + ", " + GUARD_Z, more)) ==
            Run(m, SetY(s, s.scratch.value.y * -2.0 + 1.0), more)
  {
    Distinct();
    hide Run, Line;
    OwnWords(SCRATCH_Y);
    hide Destination, Operand;
    RunsThree(m, s, SCRATCH_Y, SCRATCH_Y, GUARD_Y, GUARD_Z, more);
  }

  lemma StoresProduct<P>(m: Machine<P>, s: State<P>, dst: string)
    requires Ready(s) && Destination(dst) && !Own(dst)
    ensures var v := s.scratch.value.x * s.scratch.value.y;
            Run(m, s, Line("MUL", dst, SCRATCH_X + ", " + SCRATCH_Y, "")) ==
            s.(core := Core(m.write(s.core.prog, dst, v), s.core.log + [Write(dst, v)]))
  {
    Distinct();
    var product := Compute(m, "MUL", [s.scratch.value.x, s.scratch.value.y]);
    assert product == s.scratch.value.x * s.scratch.value.y;
    StoredOutside(m, s, dst, product);
    hide Line, Destination, Compute, Store, Run;
    RunsTwo(m, s, "MUL", dst, SCRATCH_X, SCRATCH_Y, "");
    RunNothing(m, Store(m, s, dst, product));
  }

  lemma RunNothing<P>(m: Machine<P>, s: State<P>)
    ensures Run(m, s, "") == s
  {
  }

  lemma StoredOutside<P>(m: Machine<P>, s: State<P>, dst: string, v: real)
    requires !Own(dst)
    ensures Store(m, s, dst, v) == s.(core := Core(m.write(s.core.prog, dst, v), s.core.log + [Write(dst, v)]))
  {
  }

  /** The sign is put back by a factor of 1 or -1. */
  lemma SignRestored<P>(m: Machine<P>, x: real)
    ensures Reciprocal(m, Clamp(Magnitude(x))) * (Negative(x) * -2.0 + 1.0) == SignedReciprocal(x)
  {
    var a := Clamp(Magnitude(x));
    assert a > 0.0;
    if x < 0.0 {
      assert (1.0 / a) * -1.0 == -1.0 / a;
    }
  }

  lemma RcpRuns<P>(m: Machine<P>, s: State<P>, dst: string, operand: string)
    requires Ready(s) && Outside(dst, operand)
    ensures Ready(Run(m, s, GuardedRcp(dst, operand)))
    ensures Run(m, s, GuardedRcp(dst, operand)).core ==
            Written(m, s.core, dst, operand, SignedReciprocal(m.read(s.core.prog, operand)))
  {
    var x := m.read(s.core.prog, operand);
    var line7 := Line("MUL", dst, SCRATCH_X + ", " + SCRATCH_Y, "");
    var line6 := Line("MAD", SCRATCH_Y, SCRATCH_Y + ", " + GUARD_Y + ", " + GUARD_Z, line7);
    var line5 := Line("RCP", SCRATCH_X, SCRATCH_X, line6);
    var line4 := Line("MAX", SCRATCH_X, SCRATCH_X + ", " + GUARD_X, line5);
    var line3 := Line("ABS", SCRATCH_X, SCRATCH_X, line4);
    var line2 := Line("SLT", SCRATCH_Y, SCRATCH_X + ", " + GUARD_W, line3);
    hide Line, Run, Destination, Operand, Own;
    Loads(m, s, "MOV", operand, line2);
    var s1 := SetX(s.(core := Core(s.core.prog, s.core.log + [Read(operand)])), x);
    ComparesX(m, s1, line3);
    var s2 := SetY(s1, Negative(x));
    ChangesX(m, s2, "ABS", line4);
    var s3 := SetX(s2, Magnitude(x));
    ClampsX(m, s3, line5);
    var s4 := SetX(s3, Clamp(Magnitude(x)));
    ChangesX(m, s4, "RCP", line6);
    var s5 := SetX(s4, Reciprocal(m, Clamp(Magnitude(x))));
    SignsY(m, s5, line7);
    var s6 := SetY(s5, Negative(x) * -2.0 + 1.0);
    StoresProduct(m, s6, dst);
    SignRestored(m, x);
  }

  // ---------------------------------------------------------------- whole programs

  lemma SingleLine<P>(m: Machine<P>, s: State<P>, t: string)
    requires t != ""
    ensures Run(m, s, t[..NextLine(t)]) == Exec(m, s, t[..LineEnd(t)])
    ensures WholeLines(t[..NextLine(t)]) || NextLine(t) == |t|
    ensures t == t[..NextLine(t)] + t[NextLine(t)..]
  {
    hide Exec;
    var n, line := NextLine(t), t[..LineEnd(t)];
    if n == LineEnd(t) + 1 {
      FirstLine(line, "");
      assert line + "\n" + "" == t[..n];
      assert t[..n][..|line|] == line && t[..n][n..] == "";
    } else {
      assert t[..n] == t == line && t[n..] == "";
    }
  }

  /** A line runs as the program's own when nothing on it is guarded. */
  lemma OtherLine<P>(m: Machine<P>, s: State<P>, line: string)
    requires PlainLine(line) && !Guarding(line)
    ensures Exec(m, s, line) == s.(core := ExecClamped(m, s.core, line))
  {
  }

  lemma StatementParts(line: string) returns (a: string, b: string, c: string, d: string)
    requires Parse(line).Some?
    ensures WellFormed(Parse(line).value)
    ensures line == a + Parse(line).value.dst + b && line == c + Parse(line).value.rest + d
  {
    hide Parse;
    var st := Parse(line).value;
    var g := ParsedIsPrinted(line);
    a, b := g.beforeOp + st.op + g.afterOp, g.afterDst + "," + g.beforeRest + st.rest + g.afterRest + ";" + st.tail;
    c, d := g.beforeOp + st.op + g.afterOp + st.dst + g.afterDst + "," + g.beforeRest, g.afterRest + ";" + st.tail;
  }

  lemma PartLacks(a: string, t: string, b: string, c: char)
    requires !Has(a + t + b, c)
    ensures !Has(t, c)
  {
    forall i | 0 <= i < |t| ensures t[i] != c {
      assert (a + t + b)[|a| + i] == t[i];
    }
  }

  lemma PartNotOwn(a: string, t: string, b: string)
    requires !Contains(a + t + b, RESERVED)
    ensures !Own(t)
  {
    hide Contains;
    if Own(t) {
      OwnName(t);
      ContainsPart(a, t, b);
    }
  }

  lemma StatementOutside(line: string)
    requires PlainLine(line) && Parse(line).Some? && !Has(line, '\n')
    ensures Outside(Parse(line).value.dst, Parse(line).value.rest)
    ensures !Has(Parse(line).value.dst, '\0') && !Has(Parse(line).value.rest, '\0')
  {
    hide Parse, Own, Contains, Token;
    var st := Parse(line).value;
    var a, b, c, d := StatementParts(line);
    PartLacks(a, st.dst, b, '\n');
    PartLacks(a, st.dst, b, '\0');
    PartLacks(c, st.rest, d, '\n');
    PartLacks(c, st.rest, d, '\0');
    PartNotOwn(a, st.dst, b);
    PartNotOwn(c, st.rest, d);
  }

  /** What replaces a guarded line does what the guarded instruction promises. */
  lemma ExpansionRuns<P>(m: Machine<P>, s: State<P>, line: string)
    requires Ready(s) && PlainLine(line) && Guarding(line) && !Has(line, '\n')
    ensures Expansion(line).Some? && Ready(Run(m, s, Expansion(line).value))
    ensures Run(m, s, Expansion(line).value).core == ExecClamped(m, s.core, line)
  {
    StatementOutside(line);
    var st := Parse(line).value;
    hide Parse, Outside, Run, GuardedRsq, GuardedRcp, Alone, UpToNul, Has;
    if st.op == RSQ {
      RsqRuns(m, s, st.dst, st.rest);
    } else {
      RcpRuns(m, s, st.dst, st.rest);
    }
  }

  lemma GuardedEndsLine(dst: string, operand: string)
    ensures WholeLines(GuardedRsq(dst, operand)) && WholeLines(GuardedRcp(dst, operand))
  {
    var r, p := Line("RSQ", dst, SCRATCH_X, ""), Line("MUL", dst, SCRATCH_X + ", " + SCRATCH_Y, "");
    assert r[|r| - 1] == '\n' && p[|p| - 1] == '\n';
    hide Line;
    LineEndsLine("MAX", SCRATCH_X, SCRATCH_X + ", " + GUARD_X, r);
    LineEndsLine("ABS", SCRATCH_X, operand, Line("MAX", SCRATCH_X, SCRATCH_X + ", " + GUARD_X, r));
    var p6 := Line("MAD", SCRATCH_Y, SCRATCH_Y + ", " + GUARD_Y + ", " + GUARD_Z, p);
    LineEndsLine("MAD", SCRATCH_Y, SCRATCH_Y + ", " + GUARD_Y + ", " + GUARD_Z, p);
    var p5 := Line("RCP", SCRATCH_X, SCRATCH_X, p6);
    LineEndsLine("RCP", SCRATCH_X, SCRATCH_X, p6);
    var p4 := Line("MAX", SCRATCH_X, SCRATCH_X + ", " + GUARD_X, p5);
    LineEndsLine("MAX", SCRATCH_X, SCRATCH_X + ", " + GUARD_X, p5);
    var p3 := Line("ABS", SCRATCH_X, SCRATCH_X, p4);
    LineEndsLine("ABS", SCRATCH_X, SCRATCH_X, p4);
    var p2 := Line("SLT", SCRATCH_Y, SCRATCH_X + ", " + GUARD_W, p3);
    LineEndsLine("SLT", SCRATCH_Y, SCRATCH_X + ", " + GUARD_W, p3);
    LineEndsLine("MOV", SCRATCH_X, operand, p2);
  }

  lemma LineEndsLine(op: string, dst: string, rest: string, more: string)
    requires more != "" && WholeLines(more)
    ensures WholeLines(Line(op, dst, rest, more)) && Line(op, dst, rest, more) != ""
  {
    var t := Line(op, dst, rest, more);
    assert t[|t| - 1] == more[|more| - 1];
  }

  /** Replacing one line: the same accesses, in the same order, with the same values. */
  lemma LineSimulates<P>(m: Machine<P>, s: State<P>, t: string)
    requires t != "" && Ready(s) && PlainLine(t[..LineEnd(t)])
    ensures Ready(Run(m, s, Replaced(t)))
    ensures Run(m, s, Replaced(t)).core == ExecClamped(m, s.core, t[..LineEnd(t)])
    ensures WholeLines(Replaced(t)) || NextLine(t) == |t|
  {
    var line := t[..LineEnd(t)];
    assert !Has(line, '\n');
    hide LineEnd, NextLine, WholeLines, Run, Exec, ExecClamped, Parse, PlainLine, GuardedRsq, GuardedRcp, UpToNul;
    if Guarding(line) {
      ExpansionRuns(m, s, line);
      if Unary(line, RSQ).Some? {
        GuardedEndsLine(UpToNul(Unary(line, RSQ).value.dst), UpToNul(Unary(line, RSQ).value.rest));
      } else {
        GuardedEndsLine(UpToNul(Unary(line, RCP).value.dst), UpToNul(Unary(line, RCP).value.rest));
      }
    } else {
      SingleLine(m, s, t);
      OtherLine(m, s, line);
    }
  }

  /** The rewritten lines simulate the guarded run of the original ones. */
  lemma {:induction false} RewrittenRuns<P>(m: Machine<P>, s: State<P>, t: string)
    requires Ready(s) && Plain(t)
    ensures Ready(Run(m, s, Rewritten(t)))
    ensures Run(m, s, Rewritten(t)).core == RunClamped(m, s.core, t)
    decreases |t|
  {
    hide LineEnd, NextLine, WholeLines, Run, ExecClamped, Replaced, PlainLine, Ready;
    if t == "" {
      RunNothing(m, s);
    } else {
      var rest := t[NextLine(t)..];
      LineSimulates(m, s, t);
      RunConcat(m, s, Replaced(t), Rewritten(rest));
      RewrittenRuns(m, Run(m, s, Replaced(t)), rest);
    }
  }

  /** The declarations make the rewriter's registers usable and touch nothing else. */
  lemma DeclarationsRun<P>(m: Machine<P>, s: State<P>)
    ensures Ready(Run(m, s, Declarations())) && Run(m, s, Declarations()).core == s.core
    ensures WholeLines(Declarations())
  {
    hide Exec, Ready, Contains, LineEnd, NextLine, Run;
    DeclaresOne(m, s, PARAMETER, SCRATCH + "\n");
    assert PARAMETER + "\n" + (SCRATCH + "\n") == Declarations();
    var s1 := Exec(m, s, PARAMETER);
    DeclaresOne(m, s1, SCRATCH, "");
    assert SCRATCH + "\n" + "" == SCRATCH + "\n";
    RunNothing(m, Exec(m, s1, SCRATCH));
    DeclarationLines(m, s);
  }

  lemma DeclarationLines<P>(m: Machine<P>, s: State<P>)
    ensures var r := Exec(m, Exec(m, s, PARAMETER), SCRATCH); Ready(r) && r.core == s.core
  {
    ParameterRuns(m, s);
    ScratchRuns(m, Exec(m, s, PARAMETER));
    hide Exec;
  }

  lemma ParameterRuns<P>(m: Machine<P>, s: State<P>)
    ensures Exec(m, s, PARAMETER) == s.(guard := Some(Params(EPSILON, -2.0, 1.0, 0.0)))
  {
    ParameterDeclares();
    hide Declared, Apply, Guarding, Alone;
    assert PARAMETER[6] == 'l' && PARAMETER[7] == 'p' && PARAMETER[8] == '3' && PARAMETER[9] == '2'
      && PARAMETER[10] == '_';
    assert At(PARAMETER, 6, RESERVED);
    assert PARAMETER[0] == 'P' && SCRATCH[0] == 'T';
  }

  lemma ScratchRuns<P>(m: Machine<P>, s: State<P>)
    ensures Exec(m, s, SCRATCH) == s.(scratch := Some(Scratch(m.undeclared, m.undeclared)))
  {
    hide Declared, Apply, Guarding, Alone;
    assert At(SCRATCH, 5, RESERVED);
  }

  lemma ParameterParts()
    ensures !Has(PARAMETER, '\n')
  {
    var a, b := "PARAM lp32_math_guard", " = { 1e-20, -2, 1, 0 };";
    assert !Has(a, '\n');
    assert !Has(b, '\n');
    assert PARAMETER == a + b;
  }

  lemma NoNewline(line: string)
    requires line == PARAMETER || line == SCRATCH
    ensures !Has(line, '\n')
  {
    if line == PARAMETER {
      ParameterParts();
    }
  }

  lemma DeclaresOne<P>(m: Machine<P>, s: State<P>, line: string, more: string)
    requires line == PARAMETER || line == SCRATCH
    ensures Run(m, s, line + "\n" + more) == Run(m, Exec(m, s, line), more)
  {
    NoNewline(line);
    hide Exec, LineEnd, NextLine, Has;
    FirstLine(line, more);
    var t := line + "\n" + more;
    assert t[..|line|] == line && t[|line| + 1..] == more;
  }

  lemma NotGuarding(line: string)
    requires OptionLine(line) || (|line| >= 10 && line[0] == '!')
    ensures !Guarding(line)
  {
    NotUnary(line, RSQ);
    NotUnary(line, RCP);
    hide Parse, OptionLine;
  }

  lemma FirstIsOption(t: string)
    requires OptionsEnd(t) != 0
    ensures t != "" && OptionLine(t[..LineEnd(t)]) && OptionsEnd(t) == NextLine(t) + OptionsEnd(t[NextLine(t)..])
  {
  }

  lemma Unfolds<P>(m: Machine<P>, c: Core<P>, t: string)
    requires t != ""
    ensures Plain(t) <==> PlainLine(t[..LineEnd(t)]) && Plain(t[NextLine(t)..])
    ensures RunClamped(m, c, t) == RunClamped(m, ExecClamped(m, c, t[..LineEnd(t)]), t[NextLine(t)..])
  {
    hide PlainLine, ExecClamped;
  }

  /** The OPTION lines run unchanged. */
  lemma {:induction false} OptionsRun<P>(m: Machine<P>, s: State<P>, t: string)
    requires Plain(t)
    ensures Plain(t[OptionsEnd(t)..]) && (WholeLines(t[..OptionsEnd(t)]) || OptionsEnd(t) == |t|)
    ensures RunClamped(m, s.core, t) == RunClamped(m, Run(m, s, t[..OptionsEnd(t)]).core, t[OptionsEnd(t)..])
    decreases |t|
  {
    hide PlainLine, LineEnd, NextLine, Run, Exec, ExecClamped, WholeLines, OptionLine, Guarding, OptionsEnd;
    hide RunClamped, Plain;
    if OptionsEnd(t) == 0 {
      NothingRuns(m, s, t);
    } else {
      FirstIsOption(t);
      Unfolds(m, s.core, t);
      NotGuarding(t[..LineEnd(t)]);
      var rest := t[NextLine(t)..];
      FirstLineRuns(m, s, t, OptionsEnd(rest));
      OptionsRun(m, Exec(m, s, t[..LineEnd(t)]), rest);
    }
  }

  lemma NothingRuns<P>(m: Machine<P>, s: State<P>, t: string)
    ensures Run(m, s, t[..0]) == s && t[0..] == t && WholeLines(t[..0])
  {
    assert t[..0] == "";
  }

  /** Running a text up to `n` past its first line, when that line is not guarded. */
  lemma FirstLineRuns<P>(m: Machine<P>, s: State<P>, t: string, n: nat)
    requires t != "" && PlainLine(t[..LineEnd(t)]) && !Guarding(t[..LineEnd(t)]) && n <= |t[NextLine(t)..]|
    ensures var s', rest := Exec(m, s, t[..LineEnd(t)]), t[NextLine(t)..];
            && Run(m, s, t[..NextLine(t) + n]) == Run(m, s', rest[..n])
            && s'.core == ExecClamped(m, s.core, t[..LineEnd(t)])
            && t[NextLine(t) + n..] == rest[n..]
            && (WholeLines(rest[..n]) || n == |rest| ==> WholeLines(t[..NextLine(t) + n]) || NextLine(t) + n == |t|)
  {
    hide PlainLine, LineEnd, NextLine, Run, Exec, ExecClamped, Guarding;
    var first, rest := t[..NextLine(t)], t[NextLine(t)..];
    OtherLine(m, s, t[..LineEnd(t)]);
    SingleLine(m, s, t);
    RunConcat(m, s, first, rest[..n]);
    assert first + rest[..n] == t[..NextLine(t) + n];
    if n > 0 {
      assert t[..NextLine(t) + n][NextLine(t) + n - 1] == rest[..n][n - 1];
    }
  }

  lemma HeaderRuns<P>(m: Machine<P>, s: State<P>, t: string)
    requires IsArb(t) && Plain(t)
    ensures Plain(t[HeaderEnd(t)..]) && (WholeLines(t[..HeaderEnd(t)]) || HeaderEnd(t) == |t|)
    ensures RunClamped(m, s.core, t) == RunClamped(m, Run(m, s, t[..HeaderEnd(t)]).core, t[HeaderEnd(t)..])
  {
    hide PlainLine, LineEnd, NextLine, Run, Exec, ExecClamped, WholeLines, OptionLine, Guarding, OptionsEnd;
    hide RunClamped, Plain;
    ArbFirstLine(t);
    NotGuarding(t[..LineEnd(t)]);
    Unfolds(m, s.core, t);
    hide IsArb;
    var rest := t[NextLine(t)..];
    FirstLineRuns(m, s, t, OptionsEnd(rest));
    OptionsRun(m, Exec(m, s, t[..LineEnd(t)]), rest);
  }

  /** Whatever the machine and its state, running the rewritten text touches the program's own
      registers in the same order as the original, each destination once, and with the values
      of a run in which RSQ and RCP operands are kept away from zero. */
  lemma GuardedRuns<P>(m: Machine<P>, s: State<P>, t: string)
    requires Guarded(t).Some? && Plain(t)
    ensures Run(m, s, Guarded(t).value).core == RunClamped(m, s.core, t)
  {
    var h := HeaderEnd(t);
    HeaderRuns(m, s, t);
    HeaderHoldsNone(t, RSQ);
    HeaderHoldsNone(t, RCP);
    assert h < |t|;
    hide HeaderEnd, Run, RunClamped, WholeLines, Plain, Rewritten, Declarations, Count, Ready;
    DeclarationsRun(m, Run(m, s, t[..h]));
    RunConcat(m, s, t[..h], Declarations() + Rewritten(t[h..]));
    RunConcat(m, Run(m, s, t[..h]), Declarations(), Rewritten(t[h..]));
    RewrittenRuns(m, Run(m, Run(m, s, t[..h]), Declarations()), t[h..]);
    Associates(t[..h], Declarations(), Rewritten(t[h..]));
  }

  lemma LargeLine<P>(m: Machine<P>, s: State<P>, line: string)
    requires PlainLine(line) && !Has(line, '\n')
    requires Guarding(line) ==> Magnitude(m.read(s.core.prog, Parse(line).value.rest)) >= EPSILON
    ensures Exec(m, s, line) == s.(core := ExecClamped(m, s.core, line))
  {
    hide Exec, ExecClamped, PlainLine, Alone;
    if Guarding(line) {
      LargeGuarded(m, s, line);
    } else {
      OtherLine(m, s, line);
    }
  }

  lemma GuardedLine<P>(m: Machine<P>, s: State<P>, line: string)
    requires PlainLine(line) && Guarding(line)
    ensures Exec(m, s, line) == Apply(m, s, Parse(line).value)
  {
    hide Apply;
  }

  lemma LargeGuarded<P>(m: Machine<P>, s: State<P>, line: string)
    requires PlainLine(line) && !Has(line, '\n') && Guarding(line)
    requires Magnitude(m.read(s.core.prog, Parse(line).value.rest)) >= EPSILON
    ensures Exec(m, s, line) == s.(core := ExecClamped(m, s.core, line))
  {
    StatementOutside(line);
    GuardedLine(m, s, line);
    ClampedLine(m, s.core, line);
    hide PlainLine, Guarding, ExecClamped, Exec, Parse;
    LargeApplies(m, s, Parse(line).value);
  }

  lemma ClampedLine<P>(m: Machine<P>, c: Core<P>, line: string)
    requires PlainLine(line) && Guarding(line)
    ensures var st, x := Parse(line).value, m.read(c.prog, Parse(line).value.rest);
            ExecClamped(m, c, line) ==
            Written(m, c, st.dst, st.rest, if st.op == RSQ then m.rsq(Clamp(Magnitude(x))) else SignedReciprocal(x))
  {
    hide Parse, Alone, Contains, SignedReciprocal;
  }

  lemma LargeApplies<P>(m: Machine<P>, s: State<P>, st: Statement)
    requires Outside(st.dst, st.rest) && (st.op == RSQ || st.op == RCP)
    requires Magnitude(m.read(s.core.prog, st.rest)) >= EPSILON
    ensures var x := m.read(s.core.prog, st.rest);
            Apply(m, s, st) ==
            s.(core := Written(m, s.core, st.dst, st.rest, if st.op == RSQ then m.rsq(Clamp(Magnitude(x)))
              else SignedReciprocal(x)))
  {
    var x := m.read(s.core.prog, st.rest);
    LargeValue(m, st.op, x);
    hide Own, Apply, Compute, Destination, Operand, Store, SignedReciprocal;
    AppliesOne(m, s, st.op, st.dst, st.rest, st.tail);
    var v := Compute(m, st.op, [x]);
    StoredOutside(m, s.(core := Core(s.core.prog, s.core.log + [Read(st.rest)])), st.dst, v);
    assert s.core.log + [Read(st.rest)] + [Write(st.dst, v)] == s.core.log + [Read(st.rest), Write(st.dst, v)];
  }

  lemma LargeValue<P>(m: Machine<P>, op: string, x: real)
    requires (op == RSQ || op == RCP) && Magnitude(x) >= EPSILON
    ensures Compute(m, op, [x]) == if op == RSQ then m.rsq(Clamp(Magnitude(x))) else SignedReciprocal(x)
  {
    assert RSQ[1] != "MOV"[1] && RSQ[0] != "ABS"[0] && RSQ[1] != RCP[1] && RCP[1] != "MOV"[1] && RCP[0] != "ABS"[0];
    if op == RCP && x < 0.0 {
      assert -1.0 / -x == 1.0 / x;
    }
  }

  /** Without small operands the guards change nothing. */
  lemma {:induction false} LargeRuns<P>(m: Machine<P>, s: State<P>, t: string)
    requires Plain(t) && LargeEnough(m, s, t)
    ensures Run(m, s, t).core == RunClamped(m, s.core, t)
    decreases |t|
  {
    if t != "" {
      assert !Has(t[..LineEnd(t)], '\n');
      hide LineEnd, NextLine, Exec, ExecClamped, PlainLine, Guarding;
      LargeLine(m, s, t[..LineEnd(t)]);
      LargeRuns(m, Exec(m, s, t[..LineEnd(t)]), t[NextLine(t)..]);
    }
  }

  /** What operands smaller than 1e-20 give in the rewritten text: the value at 1e-20, for RCP with
      the sign of the operand, and that of a positive one for zero. */
  lemma SmallOperands<P>(m: Machine<P>, s: State<P>, line: string)
    requires Ready(s) && PlainLine(line) && Guarding(line) && !Has(line, '\n')
    requires Magnitude(m.read(s.core.prog, Parse(line).value.rest)) < EPSILON
    ensures Expansion(line).Some?
    ensures var st, x := Parse(line).value, m.read(s.core.prog, Parse(line).value.rest);
            Run(m, s, Expansion(line).value).core ==
            Written(m, s.core, st.dst, st.rest,
                    if st.op == RSQ then m.rsq(EPSILON)
                    else if x < 0.0 then -100000000000000000000.0 else 100000000000000000000.0)
  {
    hide Run, Expansion, ExecClamped, Parse, Alone, PlainLine, Has, Ready, Magnitude, SignedReciprocal, Clamp;
    ExpansionRuns(m, s, line);
    ClampedLine(m, s.core, line);
    SmallValues(m, m.read(s.core.prog, Parse(line).value.rest));
  }

  lemma SmallValues<P>(m: Machine<P>, x: real)
    requires Magnitude(x) < EPSILON
    ensures m.rsq(Clamp(Magnitude(x))) == m.rsq(EPSILON)
    ensures SignedReciprocal(x) == if x < 0.0 then -100000000000000000000.0 else 100000000000000000000.0
  {
  }
}
