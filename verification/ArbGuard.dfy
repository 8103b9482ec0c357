/** The rewriting of RSQ and RCP in ARB assembly programs (native/src/arb_program_guard.c). */
module ArbGuard {
  import opened Options
  import opened Text

  // ---------------------------------------------------------------- statements

  /** `op dst, rest;` and what follows it on its line. */
  datatype Statement = Statement(op: string, dst: string, rest: string, tail: string)

  /** The statement on a line, if it has the shape the rewriter looks for. */
  function Parse(line: string): Option<Statement>
  {
    var t := line[Blanks(line)..];
    if |t| < 4 || !Blank(t[3]) then None
    else
      var dst := FieldBefore(t[4..], ',');
      if dst.None? then None
      else
        var rest := FieldBefore(dst.value.after, ';');
        if rest.None? then None else Some(Statement(t[..3], dst.value.text, rest.value.text, rest.value.after))
  }

  /** A statement in the shape that can be printed and read back. */
  predicate WellFormed(st: Statement)
  {
    && |st.op| == 3 && !Blank(st.op[0])
    && Token(st.dst) && !Has(st.dst, ',')
    && Token(st.rest) && !Has(st.rest, ';')
  }

  /** The blanks around the parts of a statement. */
  datatype Gaps = Gaps(beforeOp: string, afterOp: string, afterDst: string, beforeRest: string, afterRest: string)

  /** Spaces and tabs. */
  predicate Gap(t: string) {
    forall i :: 0 <= i < |t| ==> t[i] == ' ' || t[i] == '\t'
  }

  lemma GapIsBlank(t: string)
    ensures Gap(t) <==> AllBlank(t)
  {
  }

  predicate AllGaps(g: Gaps)
  {
    && Gap(g.beforeOp) && Gap(g.afterOp) && g.afterOp != ""
    && Gap(g.afterDst) && Gap(g.beforeRest) && Gap(g.afterRest)
  }

  lemma GapsAreBlank(g: Gaps)
    ensures AllGaps(g) <==>
            && AllBlank(g.beforeOp) && AllBlank(g.afterOp) && g.afterOp != ""
            && AllBlank(g.afterDst) && AllBlank(g.beforeRest) && AllBlank(g.afterRest)
  {
  }

  function StatementText(g: Gaps, st: Statement): string
  {
    g.beforeOp + (st.op + (g.afterOp + (st.dst + (g.afterDst +
      ("," + (g.beforeRest + (st.rest + (g.afterRest + (";" + st.tail)))))))))
  }

  /** A printed statement is read back, whatever the blanks. */
  lemma ParsesPrinted(g: Gaps, st: Statement)
    requires WellFormed(st) && AllGaps(g)
    ensures Parse(StatementText(g, st)) == Some(st)
  {
    hide Blanks, FieldBefore;
    GapsAreBlank(g);
    hide AllGaps;
    var r := g.beforeRest + (st.rest + (g.afterRest + (";" + st.tail)));
    var d := st.dst + (g.afterDst + ("," + r));
    var t := st.op + (g.afterOp + d);
    SkipsBlanks(g.beforeOp, t);
    assert t[..3] == st.op && t[3] == g.afterOp[0];
    assert t[4..] == g.afterOp[1..] + d;
    ReadsField(g.afterOp[1..], st.dst, g.afterDst, ',', r);
    ReadsField(g.beforeRest, st.rest, g.afterRest, ';', st.tail);
  }

  /** Exactly the lines in the printed shape are recognised, and by what they say. */
  lemma ParsedIsPrinted(line: string) returns (g: Gaps)
    requires Parse(line).Some?
    ensures AllGaps(g) && WellFormed(Parse(line).value) && line == StatementText(g, Parse(line).value)
  {
    hide Blanks, FieldBefore;
    var t := line[Blanks(line)..];
    var dst := FieldBefore(t[4..], ',').value;
    var afterOp, afterDst := FieldRead(t[4..], ',');
    var beforeRest, afterRest := FieldRead(dst.after, ';');
    g := Gaps(line[..Blanks(line)], [t[3]] + afterOp, afterDst, beforeRest, afterRest);
    GapsAreBlank(g);
    assert line == g.beforeOp + t;
    FourthIsBlank(t, afterOp, dst.text + (afterDst + ("," + dst.after)));
  }

  lemma FourthIsBlank(t: string, blanks: string, more: string)
    requires |t| >= 4 && t[4..] == blanks + more
    ensures t == t[..3] + (([t[3]] + blanks) + more)
  {
    assert t == t[..3] + ([t[3]] + t[4..]);
  }

  /** The recognised lines, exactly. */
  lemma Recognised(line: string, st: Statement)
    ensures Parse(line) == Some(st) <==> WellFormed(st) && exists g :: AllGaps(g) && line == StatementText(g, st)
  {
    hide Parse, StatementText, WellFormed, AllGaps;
    if Parse(line) == Some(st) {
      var g := ParsedIsPrinted(line);
    }
    forall g | WellFormed(st) && AllGaps(g) && line == StatementText(g, st) ensures Parse(line) == Some(st) {
      ParsesPrinted(g, st);
    }
  }

  /** The statement on a line, if it is of the given operation. */
  function Unary(line: string, op: string): (st: Option<Statement>)
  {
    if Parse(line).Some? && Parse(line).value.op == op then Parse(line) else None
  }

  method SkipBlanks(source: string, from: nat, end: nat) returns (cursor: nat)
    requires from <= end <= |source|
    ensures cursor == from + Blanks(source[from..end])
  {
    cursor := from;
    while cursor < end && Blank(source[cursor])
      invariant from <= cursor <= end
      invariant from + Blanks(source[from..end]) == cursor + Blanks(source[cursor..end])
    {
      assert source[cursor..end][1..] == source[cursor + 1..end];
      cursor := cursor + 1;
    }
  }

  method ScanTo(source: string, from: nat, end: nat, c: char) returns (cursor: nat)
    requires from <= end <= |source|
    ensures cursor == from + Find(source[from..end], c)
  {
    cursor := from;
    while cursor < end && source[cursor] != c
      invariant from <= cursor <= end
      invariant from + Find(source[from..end], c) == cursor + Find(source[cursor..end], c)
    {
      assert source[cursor..end][1..] == source[cursor + 1..end];
      cursor := cursor + 1;
    }
  }

  method TrimBack(source: string, start: nat, from: nat) returns (end: nat)
    requires start <= from <= |source|
    ensures end == start + Trimmed(source[start..from])
  {
    end := from;
    while end > start && Blank(source[end - 1])
      invariant start <= end <= from
      invariant Trimmed(source[start..from]) == Trimmed(source[start..end])
    {
      assert source[start..end][..end - start - 1] == source[start..end - 1];
      end := end - 1;
    }
  }

  /** A run of text that ends before `c`, without the blanks around it. */
  method ReadField(source: string, from: nat, end: nat, c: char) returns (ok: bool, start: nat, size: nat, next: nat)
    requires from <= end <= |source|
    ensures ok <==> FieldBefore(source[from..end], c).Some?
    ensures ok ==> from <= start && start + size < next <= end &&
                   FieldBefore(source[from..end], c) == Some(Field(source[start..start + size], source[next..end]))
  {
    hide Blanks, Find, Trimmed, FieldBefore;
    ghost var t := source[from..end];
    start := SkipBlanks(source, from, end);
    ghost var r := source[start..end];
    assert t[Blanks(t)..] == r;
    var cursor := ScanTo(source, start, end, c);
    assert source[start..cursor] == r[..cursor - start];
    var stop := TrimBack(source, start, cursor);
    size, next := stop - start, cursor;
    FieldIs(t, c, cursor - start, size);
    if cursor == end || stop == start {
      return false, start, size, next;
    }
    ok, next := true, cursor + 1;
    assert source[start..start + size] == r[..size] && source[next..end] == r[cursor - start + 1..];
  }

  lemma FieldIs(t: string, c: char, n: nat, size: nat)
    requires n == Find(t[Blanks(t)..], c) && size == Trimmed(t[Blanks(t)..][..n])
    ensures var r := t[Blanks(t)..];
            FieldBefore(t, c) == if n == |r| || size == 0 then None else Some(Field(r[..size], r[n + 1..]))
  {
    hide Blanks, Find, Trimmed;
  }

  /** parse_unary: finds the destination and the operand of `opcode` on a line. */
  method ParseUnary(source: string, position: nat, size: nat, opcode: string)
    returns (found: bool, dst: nat, dstSize: nat, operand: nat, operandSize: nat)
    requires position + size <= |source| && |opcode| == 3
    ensures found <==> Unary(source[position..position + size], opcode).Some?
    ensures found ==>
              && dst + dstSize < operand && operand + operandSize < position + size
              && var st := Unary(source[position..position + size], opcode).value;
                 st.dst == source[dst..dst + dstSize] && st.rest == source[operand..operand + operandSize]
  {
    hide Blanks, FieldBefore;
    ghost var line := source[position..position + size];
    var end := position + size;
    var cursor := SkipBlanks(source, position, end);
    assert line[Blanks(line)..] == source[cursor..end];
    assert end - cursor >= 4 ==>
        source[cursor..end][..3] == source[cursor..cursor + 3] && source[cursor..end][3] == source[cursor + 3];
    if end - cursor < 4 || source[cursor..cursor + 3] != opcode || !Blank(source[cursor + 3]) {
      return false, 0, 0, 0, 0;
    }
    assert source[cursor..end][4..] == source[cursor + 4..end];
    found, dst, dstSize, cursor := ReadField(source, cursor + 4, end, ',');
    if !found {
      return false, 0, 0, 0, 0;
    }
    found, operand, operandSize, cursor := ReadField(source, cursor, end, ';');
  }

  // ---------------------------------------------------------------- what is written

  const RSQ: string := "RSQ"
  const RCP: string := "RCP"
  const SCRATCH_X: string := "lp32_rcp_scratch.x"
  const SCRATCH_Y: string := "lp32_rcp_scratch.y"
  const GUARD_X: string := "lp32_math_guard.x"
  const GUARD_Y: string := "lp32_math_guard.y"
  const GUARD_Z: string := "lp32_math_guard.z"
  const GUARD_W: string := "lp32_math_guard.w"
  const PARAMETER: string := "PARAM lp32_math_guard = { 1e-20, -2, 1, 0 };"
  const SCRATCH: string := "TEMP lp32_rcp_scratch;"

  /** A statement on a line of its own, and the lines after it. */
  function Line(op: string, dst: string, rest: string, more: string): (text: string)
    ensures |text| == |op| + |dst| + |rest| + 5 + |more|
  {
    op + " " + dst + ", " + rest + ";" + "\n" + more
  }

  function GuardedRsq(dst: string, operand: string): (text: string)
  {
    Line("ABS", SCRATCH_X, operand,
    Line("MAX", SCRATCH_X, SCRATCH_X + ", " + GUARD_X,
    Line("RSQ", dst, SCRATCH_X, "")))
  }

  function GuardedRcp(dst: string, operand: string): (text: string)
  {
    Line("MOV", SCRATCH_X, operand,
    Line("SLT", SCRATCH_Y, SCRATCH_X + ", " + GUARD_W,
    Line("ABS", SCRATCH_X, SCRATCH_X,
    Line("MAX", SCRATCH_X, SCRATCH_X + ", " + GUARD_X,
    Line("RCP", SCRATCH_X, SCRATCH_X,
    Line("MAD", SCRATCH_Y, SCRATCH_Y + ", " + GUARD_Y + ", " + GUARD_Z,
    Line("MUL", dst, SCRATCH_X + ", " + SCRATCH_Y, "")))))))
  }

  /** What "%.*s" prints of `t`. */
  function UpToNul(t: string): (r: string)
    ensures |r| <= |t| && (!Has(t, '\0') ==> r == t)
    ensures r == t[..|r|] && !Has(r, '\0') && (|r| < |t| ==> t[|r|] == '\0')
  {
    t[..Find(t, '\0')]
  }

  /** What replaces a line, if anything does. */
  function Expansion(line: string): (text: Option<string>)
  {
    if Unary(line, RSQ).Some? then
      Some(GuardedRsq(UpToNul(Unary(line, RSQ).value.dst), UpToNul(Unary(line, RSQ).value.rest)))
    else if Unary(line, RCP).Some? then
      Some(GuardedRcp(UpToNul(Unary(line, RCP).value.dst), UpToNul(Unary(line, RCP).value.rest)))
    else None
  }

  function Replaced(t: string): (text: string)
  {
    if Expansion(t[..LineEnd(t)]).Some? then Expansion(t[..LineEnd(t)]).value else t[..NextLine(t)]
  }

  function Rewritten(t: string): (text: string)
  {
    if t == "" then "" else Replaced(t) + Rewritten(t[NextLine(t)..])
  }

  /** How many lines hold the operation. */
  function Count(t: string, op: string): (n: nat)
    ensures n <= |t|
  {
    if t == "" then 0 else (if Unary(t[..LineEnd(t)], op).Some? then 1 else 0) + Count(t[NextLine(t)..], op)
  }

  predicate IsArb(t: string)
  {
    |t| >= 10 && (t[..10] == "!!ARBvp1.0" || t[..10] == "!!ARBfp1.0")
  }

  predicate OptionLine(line: string)
  {
    var o := line[Blanks(line)..];
    |o| >= 7 && o[..7] == "OPTION "
  }

  function OptionsEnd(t: string): (n: nat)
    ensures n <= |t|
  {
    if t == "" || !OptionLine(t[..LineEnd(t)]) then 0 else NextLine(t) + OptionsEnd(t[NextLine(t)..])
  }

  /** The end of the first line and of the OPTION lines right after it. */
  function HeaderEnd(t: string): (n: nat)
    ensures n <= |t|
  {
    NextLine(t) + OptionsEnd(t[NextLine(t)..])
  }

  function Declarations(): string {
    PARAMETER + "\n" + SCRATCH + "\n"
  }

  /** The rewritten program, or nothing for text that needs no rewriting. */
  function Guarded(t: string): (text: Option<string>)
  {
    if !IsArb(t) || Count(t, RSQ) + Count(t, RCP) == 0 then None
    else Some(t[..HeaderEnd(t)] + Declarations() + Rewritten(t[HeaderEnd(t)..]))
  }

  function Capacity(t: string): nat {
    2 * |t| + (|PARAMETER| + 2) + (|SCRATCH| + 2) + (Count(t, RSQ) + Count(t, RCP)) * 512 + 1
  }

  // ---------------------------------------------------------------- where the declarations go

  /** Text that starts with an OPTION line as the rewriter knows them. */
  ghost predicate StartsOption(t: string) {
    exists b: string, a: string :: Gap(b) && t == b + "OPTION " + a
  }

  predicate ArbHeader(line: string) {
    |line| >= 10 && (line[..10] == "!!ARBvp1.0" || line[..10] == "!!ARBfp1.0") && !Has(line, '\n')
  }

  function AsLines(lines: seq<string>): string {
    if lines == [] then "" else lines[0] + "\n" + AsLines(lines[1..])
  }

  lemma OptionIs(line: string)
    ensures OptionLine(line) <==> StartsOption(line)
  {
    hide Blanks;
    var n := Blanks(line);
    if OptionLine(line) {
      GapIsBlank(line[..n]);
      assert line == line[..n] + "OPTION " + line[n..][7..];
    }
    forall b: string, a: string | Gap(b) && line == b + "OPTION " + a ensures OptionLine(line) {
      GapIsBlank(b);
      SkipsBlanks(b, "OPTION " + a);
      assert line == b + ("OPTION " + a);
      assert line[|b|..] == "OPTION " + a && ("OPTION " + a)[..7] == "OPTION ";
    }
  }

  lemma NoOptionFirst(t: string)
    requires !StartsOption(t)
    ensures OptionsEnd(t) == 0
  {
    hide OptionLine, StartsOption, LineEnd;
    var n := LineEnd(t);
    OptionIs(t[..n]);
    OptionExtends(t[..n], t[n..]);
    assert t == t[..n] + t[n..];
  }

  lemma OptionExtends(line: string, more: string)
    ensures StartsOption(line) ==> StartsOption(line + more)
  {
    if StartsOption(line) {
      var b: string, a: string :| Gap(b) && line == b + "OPTION " + a;
      assert line + more == b + "OPTION " + (a + more);
    }
  }

  lemma {:induction false} OptionLinesPassed(options: seq<string>, rest: string)
    requires forall k :: 0 <= k < |options| ==> StartsOption(options[k]) && !Has(options[k], '\n')
    requires !StartsOption(rest)
    ensures OptionsEnd(AsLines(options) + rest) == |AsLines(options)|
  {
    hide StartsOption, OptionLine, LineEnd, NextLine, Has;
    if options == [] {
      assert AsLines(options) + rest == rest;
      NoOptionFirst(rest);
    } else {
      var line, more := options[0], AsLines(options[1..]) + rest;
      var t := AsLines(options) + rest;
      assert t == line + "\n" + more;
      FirstLine(line, more);
      assert t[..|line|] == line && t[|line| + 1..] == more;
      OptionIs(line);
      OptionLinesPassed(options[1..], rest);
    }
  }

  lemma HeaderIs(head: string, options: seq<string>, rest: string)
    requires ArbHeader(head) && !StartsOption(rest)
    requires forall k :: 0 <= k < |options| ==> StartsOption(options[k]) && !Has(options[k], '\n')
    ensures var t := head + "\n" + AsLines(options) + rest;
            HeaderEnd(t) == |head| + 1 + |AsLines(options)| && IsArb(t)
  {
    hide LineEnd, NextLine, StartsOption, OptionsEnd, Has;
    var more := AsLines(options) + rest;
    var t := head + "\n" + AsLines(options) + rest;
    assert t == head + "\n" + more;
    FirstLine(head, more);
    assert t[|head| + 1..] == more && t[..10] == head[..10];
    OptionLinesPassed(options, rest);
  }

  /** The declarations go between the OPTION lines right after the first line, however many there
      are, and the rest, and only the rest is rewritten. */
  lemma DeclarationsPlaced(head: string, options: seq<string>, rest: string)
    requires ArbHeader(head) && !StartsOption(rest)
    requires forall k :: 0 <= k < |options| ==> StartsOption(options[k]) && !Has(options[k], '\n')
    ensures var t := head + "\n" + AsLines(options) + rest;
            Guarded(t).Some? ==>
              Guarded(t).value == head + "\n" + AsLines(options) +
                ("PARAM lp32_math_guard = { 1e-20, -2, 1, 0 };" + "\n" + "TEMP lp32_rcp_scratch;" + "\n") +
                  Rewritten(rest)
  {
    hide StartsOption, HeaderEnd, Rewritten, Count, IsArb;
    var t := head + "\n" + AsLines(options) + rest;
    HeaderIs(head, options, rest);
    assert t[..HeaderEnd(t)] == head + "\n" + AsLines(options) && t[HeaderEnd(t)..] == rest;
  }

  lemma {:induction false} CountConcat(a: string, b: string, op: string)
    requires WholeLines(a)
    ensures Count(a + b, op) == Count(a, op) + Count(b, op)
    decreases |a|
  {
    hide LineEnd, NextLine, WholeLines, Unary;
    if a == "" {
      assert a + b == b;
    } else {
      FirstLineOfTwo(a, b);
      assert (a + b)[..LineEnd(a)] == a[..LineEnd(a)];
      assert (a + b)[NextLine(a)..] == a[NextLine(a)..] + b;
      CountConcat(a[NextLine(a)..], b, op);
    }
  }

  /** A vertex or fragment program with an RSQ or RCP on any line is rewritten. */
  lemma EveryProgramGuarded(head: string, a: string, g: Gaps, st: Statement, b: string)
    requires ArbHeader(head) && WholeLines(a) && AllGaps(g) && WellFormed(st) && (st.op == "RSQ" || st.op == "RCP")
    requires !Has(StatementText(g, st), '\n')
    ensures Guarded(head + "\n" + a + StatementText(g, st) + "\n" + b).Some?
  {
    hide StatementText, Parse, WholeLines, Has, WellFormed, AllGaps, ArbHeader, Guarded;
    var line := StatementText(g, st);
    var rest := a + (line + "\n" + b);
    ParsesPrinted(g, st);
    CountOne(line, b, st.op);
    CountConcat(a, line + "\n" + b, st.op);
    GuardedBehind(head, rest, st.op);
    Regroup(head, a, line, b);
  }

  lemma Regroup(head: string, a: string, line: string, b: string)
    ensures head + "\n" + a + line + "\n" + b == head + "\n" + (a + (line + "\n" + b))
  {
  }

  lemma GuardedBehind(head: string, rest: string, op: string)
    requires ArbHeader(head) && (op == RSQ || op == RCP) && Count(rest, op) > 0
    ensures Guarded(head + "\n" + rest).Some?
  {
    hide LineEnd, NextLine, Unary, Has;
    FirstLine(head, rest);
    var t := head + "\n" + rest;
    assert t[..10] == head[..10] && t[|head| + 1..] == rest;
  }

  lemma CountOne(line: string, b: string, op: string)
    requires !Has(line, '\n') && Unary(line, op).Some?
    ensures Count(line + "\n" + b, op) > 0
  {
    hide LineEnd, NextLine, Unary, Has;
    FirstLine(line, b);
    var t := line + "\n" + b;
    assert t[..|line|] == line;
  }

  // ---------------------------------------------------------------- how much is written

  lemma StatementFits(line: string, op: string)
    requires Unary(line, op).Some?
    ensures |Unary(line, op).value.dst| + |Unary(line, op).value.rest| + 6 <= |line|
  {
    var g := ParsedIsPrinted(line);
  }

  lemma ReplacedFits(t: string)
    requires t != ""
    ensures |Replaced(t)| <= NextLine(t) + 512 * ((if Unary(t[..LineEnd(t)], RSQ).Some? then 1 else 0) +
            (if Unary(t[..LineEnd(t)], RCP).Some? then 1 else 0))
  {
    hide Parse;
    var line := t[..LineEnd(t)];
    if Unary(line, RSQ).Some? {
      StatementFits(line, RSQ);
    } else if Unary(line, RCP).Some? {
      StatementFits(line, RCP);
    }
  }

  lemma {:induction false} RewrittenFits(t: string)
    ensures |Rewritten(t)| <= |t| + 512 * (Count(t, RSQ) + Count(t, RCP))
  {
    hide Replaced, Unary;
    if t != "" {
      ReplacedFits(t);
      RewrittenFits(t[NextLine(t)..]);
    }
  }

  lemma NotUnary(line: string, op: string)
    requires op == RSQ || op == RCP
    requires OptionLine(line) || (|line| >= 10 && line[0] == '!')
    ensures Unary(line, op) == None
  {
    if OptionLine(line) {
      var o := line[Blanks(line)..];
      assert o[..7][0] == 'O' == o[..3][0];
    } else {
      assert Blanks(line) == 0 && line[0..][..3][0] == '!';
    }
  }

  lemma {:induction false} OptionsHoldNone(t: string, op: string)
    requires op == RSQ || op == RCP
    ensures Count(t[OptionsEnd(t)..], op) == Count(t, op)
  {
    hide Unary, OptionLine;
    if t != "" && OptionLine(t[..LineEnd(t)]) {
      NotUnary(t[..LineEnd(t)], op);
      OptionsHoldNone(t[NextLine(t)..], op);
      assert t[NextLine(t)..][OptionsEnd(t[NextLine(t)..])..] == t[OptionsEnd(t)..];
    }
  }

  lemma ArbFirstLine(t: string)
    requires IsArb(t)
    ensures LineEnd(t) >= 10 && t[0] == '!' && t[..LineEnd(t)][0] == '!'
  {
    hide Find;
    assert t[..10][0] == '!' == t[0];
    assert forall i :: 0 <= i < 10 ==> t[i] == t[..10][i] != '\n';
  }

  /** Counting starts at the first line and rewriting after the header; they agree. */
  lemma HeaderHoldsNone(t: string, op: string)
    requires IsArb(t) && (op == RSQ || op == RCP)
    ensures Count(t[HeaderEnd(t)..], op) == Count(t, op)
  {
    var rest := t[NextLine(t)..];
    ArbFirstLine(t);
    NotUnary(t[..LineEnd(t)], op);
    hide Unary, OptionsEnd;
    OptionsHoldNone(rest, op);
    assert rest[OptionsEnd(rest)..] == t[HeaderEnd(t)..];
  }

  /** The output and its terminator always fit the buffer. */
  lemma OutputFits(t: string)
    requires Guarded(t).Some?
    ensures |Guarded(t).value| + |t| + 3 <= Capacity(t)
  {
    hide Rewritten, Count, HeaderEnd;
    RewrittenFits(t[HeaderEnd(t)..]);
    HeaderHoldsNone(t, RSQ);
    HeaderHoldsNone(t, RCP);
  }

  // ---------------------------------------------------------------- the rewriter

  method FindLine(source: string, position: nat) returns (lineEnd: nat, next: nat)
    requires position <= |source|
    ensures lineEnd == position + LineEnd(source[position..]) <= next ==
            position + NextLine(source[position..]) <= |source|
    ensures source[position..lineEnd] == source[position..][..LineEnd(source[position..])]
    ensures source[next..] == source[position..][NextLine(source[position..])..]
    ensures position < |source| ==> position < next
  {
    lineEnd := ScanTo(source, position, |source|, '\n');
    assert source[position..|source|] == source[position..];
    next := if lineEnd < |source| then lineEnd + 1 else lineEnd;
  }

  method CountGuards(source: string) returns (rsq: nat, rcp: nat)
    ensures rsq == Count(source, RSQ) && rcp == Count(source, RCP)
  {
    hide Parse, LineEnd, NextLine;
    var position := 0;
    rsq, rcp := 0, 0;
    assert source[0..] == source;
    while position < |source|
      invariant position <= |source|
      invariant rsq + Count(source[position..], RSQ) == Count(source, RSQ)
      invariant rcp + Count(source[position..], RCP) == Count(source, RCP)
    {
      var lineEnd, next := FindLine(source, position);
      var isRsq, _, _, _, _ := ParseUnary(source, position, lineEnd - position, RSQ);
      if isRsq {
        rsq := rsq + 1;
      } else {
        var isRcp, _, _, _, _ := ParseUnary(source, position, lineEnd - position, RCP);
        if isRcp {
          rcp := rcp + 1;
        }
      }
      position := next;
    }
  }

  method IsOption(source: string, position: nat, lineEnd: nat) returns (yes: bool)
    requires position <= lineEnd <= |source|
    ensures yes == OptionLine(source[position..lineEnd])
  {
    hide Blanks;
    var option := SkipBlanks(source, position, lineEnd);
    ghost var line := source[position..lineEnd];
    assert line[Blanks(line)..] == source[option..lineEnd];
    yes := lineEnd - option >= 7 && source[option..option + 7] == "OPTION ";
    assert lineEnd - option >= 7 ==> source[option..lineEnd][..7] == source[option..option + 7];
  }

  /** Past the first line and the OPTION lines after it. */
  method FindHeaderEnd(source: string) returns (end: nat)
    ensures end == HeaderEnd(source)
  {
    hide LineEnd, NextLine, OptionLine;
    assert source[0..] == source;
    var lineEnd, next := FindLine(source, 0);
    end := next;
    while end < |source|
      invariant end <= |source|
      invariant end + OptionsEnd(source[end..]) == HeaderEnd(source)
    {
      lineEnd, next := FindLine(source, end);
      var isOption := IsOption(source, end, lineEnd);
      if !isOption {
        return;
      }
      end := next;
    }
  }

  /** Adds text to the buffer, unless that would not leave room for a terminator. */
  method Append(output: array<char>, used: nat, text: string) returns (fits: bool)
    requires used <= output.Length
    modifies output
    ensures fits <==> used + |text| < output.Length
    ensures fits ==> output[..used + |text|] == old(output[..used]) + text
  {
    if |text| >= output.Length - used {
      return false;
    }
    forall k | 0 <= k < |text| {
      output[used + k] := text[k];
    }
    fits := true;
  }

  /** The text that replaces the line at `position`. */
  method Emitted(source: string, position: nat, lineEnd: nat, next: nat) returns (text: string)
    requires position < |source| && lineEnd == position + LineEnd(source[position..]) <= |source|
    requires next == position + NextLine(source[position..]) <= |source|
    ensures text == Replaced(source[position..])
  {
    hide Parse, LineEnd, NextLine, GuardedRsq, GuardedRcp;
    assert source[position..lineEnd] == source[position..][..LineEnd(source[position..])];
    var isRsq, dst, dstSize, operand, operandSize := ParseUnary(source, position, lineEnd - position, RSQ);
    if isRsq {
      return GuardedRsq(UpToNul(source[dst..dst + dstSize]), UpToNul(source[operand..operand + operandSize]));
    }
    var isRcp;
    isRcp, dst, dstSize, operand, operandSize := ParseUnary(source, position, lineEnd - position, RCP);
    if isRcp {
      return GuardedRcp(UpToNul(source[dst..dst + dstSize]), UpToNul(source[operand..operand + operandSize]));
    }
    assert source[position..next] == source[position..][..NextLine(source[position..])];
    text := source[position..next];
  }

  /** Rewrites the lines from `position` on into a buffer that has room for them. */
  method Rewrite(output: array<char>, start: nat, source: string, position: nat) returns (used: nat)
    requires position <= |source| && start + |Rewritten(source[position..])| < output.Length
    modifies output
    ensures used == start + |Rewritten(source[position..])|
    ensures output[..used] == old(output[..start]) + Rewritten(source[position..])
  {
    hide LineEnd, NextLine, Replaced;
    used := start;
    ghost var whole := output[..start] + Rewritten(source[position..]);
    var line := position;
    while line < |source|
      invariant line <= |source| && used < output.Length
      invariant output[..used] + Rewritten(source[line..]) == whole
    {
      var lineEnd, next := FindLine(source, line);
      var text := Emitted(source, line, lineEnd, next);
      var fits := Append(output, used, text);
      if !fits {
        assert false;
      }
      used, line := used + |text|, next;
    }
  }

  /** The whole output: header, declarations, rewritten lines. */
  method Write(output: array<char>, source: string) returns (used: nat)
    requires |source[..HeaderEnd(source)] + Declarations() + Rewritten(source[HeaderEnd(source)..])| < output.Length
    modifies output
    ensures used < output.Length
    ensures output[..used] == source[..HeaderEnd(source)] + Declarations() + Rewritten(source[HeaderEnd(source)..])
  {
    hide HeaderEnd, Rewritten, Declarations;
    var end := FindHeaderEnd(source);
    var fits := Append(output, 0, source[..end]);
    fits := Append(output, end, Declarations());
    assert output[..end + |Declarations()|] == source[..end] + Declarations();
    used := Rewrite(output, end + |Declarations()|, source, end);
  }

  const INT_MAX: nat := 0x7fff_ffff
  const SIZE_MAX: nat := 0xffff_ffff_ffff_ffff

  /** No line comes near what printf can count. */
  ghost predicate ShortLines(source: string)
  {
    forall i, j :: 0 <= i <= j <= |source| && !Has(source[i..j], '\n') ==> j - i + 512 <= INT_MAX
  }

  /** The size of the buffer would not fit a size_t. */
  predicate TooLarge(source: string)
    requires 2 * |source| + |PARAMETER| + |SCRATCH| + 5 <= SIZE_MAX
  {
    Count(source, RSQ) + Count(source, RCP) > (SIZE_MAX - 2 * |source| - (|PARAMETER| + 2) - (|SCRATCH| + 2) - 1) / 512
  }

  /** No source of less than 8 PiB is. */
  lemma SmallEnough(source: string)
    requires |source| <= 0x20_0000_0000_0000
    ensures 2 * |source| + |PARAMETER| + |SCRATCH| + 5 <= SIZE_MAX && !TooLarge(source)
  {
  }

  /** arb_program_guard_undefined_math. `memory` says whether memory can be had. */
  method Guard(source: string, memory: bool) returns (result: Option<string>, rsq: nat, rcp: nat)
    requires 2 * |source| + |PARAMETER| + |SCRATCH| + 5 <= SIZE_MAX && ShortLines(source)
    ensures result == if memory && !TooLarge(source) then Guarded(source) else None
    ensures result.Some? ==>
            rsq == Count(source[HeaderEnd(source)..], RSQ) && rcp == Count(source[HeaderEnd(source)..], RCP)
    ensures result.None? ==> rsq == rcp == 0
  {
    hide HeaderEnd, LineEnd, NextLine, Replaced, Parse;
    if |source| < 10 || (source[..10] != "!!ARBvp1.0" && source[..10] != "!!ARBfp1.0") {
      return None, 0, 0;
    }
    rsq, rcp := CountGuards(source);
    if rsq == 0 && rcp == 0 {
      return None, 0, 0;
    }
    if rsq + rcp > (SIZE_MAX - 2 * |source| - (|PARAMETER| + 2) - (|SCRATCH| + 2) - 1) / 512 {
      return None, 0, 0;
    }
    if !memory {
      return None, 0, 0;
    }
    var capacity := 2 * |source| + (|PARAMETER| + 2) + (|SCRATCH| + 2) + (rsq + rcp) * 512 + 1;
    var output := new char[capacity];
    OutputFits(source);
    HeaderHoldsNone(source, RSQ);
    HeaderHoldsNone(source, RCP);
    hide Count, Rewritten, Declarations;
    var used := Write(output, source);
    result := Some(output[..used]);
  }
}
