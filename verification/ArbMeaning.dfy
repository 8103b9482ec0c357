/** Loading ARB assembly programs, and that rewriting keeps the meaning of those that still load
    (native/src/arb_program_guard.c; both grammars are an option sequence, then statements). */
module ArbMeaning {
  import opened Options
  import opened Text
  import opened ArbGuard
  import opened ArbMachine
  import opened ArbUsage

  // ---------------------------------------------------------------- loading

  /** How far a program has been read: options may still come, or statements have begun, or an
      option came after one and the program is rejected. */
  datatype Phase = Opening | Body | Rejected

  /** An OPTION statement, with any blank after the word or none. */
  predicate OptionStatement(line: string) {
    Starts(line, "OPTION")
  }

  function NextPhase(phase: Phase, line: string): Phase
  {
    if phase == Rejected || Idle(line) then phase
    else if !OptionStatement(line) then Body
    else if phase == Opening then Opening
    else Rejected
  }

  function Phases(phase: Phase, t: string): Phase
    decreases |t|
  {
    if t == "" then phase else Phases(NextPhase(phase, t[..LineEnd(t)]), t[NextLine(t)..])
  }

  /** The first line starts with the header; what follows it on that line counts as well. */
  predicate Ordered(t: string)
  {
    IsArb(t) && LineEnd(t) >= 10 && Phases(NextPhase(Opening, t[10..LineEnd(t)]), t[NextLine(t)..]) != Rejected
  }

  /** A program loads when its options come first and it is within the implementation's limits. */
  predicate Loads(l: Loader, t: string) {
    Ordered(t) && Within(l, ProgramUses(l, t))
  }

  predicate HasOption(t: string)
    decreases |t|
  {
    t != "" && (OptionStatement(t[..LineEnd(t)]) || HasOption(t[NextLine(t)..]))
  }

  /** What running a program does to its own registers, if it loads. */
  function Meaning<P>(l: Loader, m: Machine<P>, s: State<P>, t: string): Option<Core<P>>
  {
    if Loads(l, t) then Some(Run(m, s, t).core) else None
  }

  // ---------------------------------------------------------------- reading on

  lemma {:induction false} PhasesConcat(phase: Phase, a: string, b: string)
    requires WholeLines(a) || b == ""
    ensures Phases(phase, a + b) == Phases(Phases(phase, a), b)
    decreases |a|
  {
    hide NextPhase, LineEnd, NextLine, WholeLines;
    if b == "" {
      assert a + b == a;
    } else if a == "" {
      assert a + b == b;
    } else {
      FirstLineOfTwo(a, b);
      assert (a + b)[..LineEnd(a)] == a[..LineEnd(a)];
      assert (a + b)[NextLine(a)..] == a[NextLine(a)..] + b;
      PhasesConcat(NextPhase(phase, a[..LineEnd(a)]), a[NextLine(a)..], b);
    }
  }

  lemma {:induction false} OptionConcat(a: string, b: string)
    requires WholeLines(a) || b == ""
    ensures HasOption(a + b) <==> HasOption(a) || HasOption(b)
    decreases |a|
  {
    hide OptionStatement, LineEnd, NextLine, WholeLines;
    if b == "" {
      assert a + b == a;
    } else if a == "" {
      assert a + b == b;
    } else {
      FirstLineOfTwo(a, b);
      assert (a + b)[..LineEnd(a)] == a[..LineEnd(a)];
      assert (a + b)[NextLine(a)..] == a[NextLine(a)..] + b;
      OptionConcat(a[NextLine(a)..], b);
    }
  }

  lemma {:induction false} RejectedStays(t: string)
    ensures Phases(Rejected, t) == Rejected
    decreases |t|
  {
    hide LineEnd, NextLine;
    if t != "" {
      RejectedStays(t[NextLine(t)..]);
    }
  }

  lemma NotIdleOption(line: string)
    requires OptionStatement(line)
    ensures !Idle(line)
  {
    var o := line[Blanks(line)..];
    assert o[..6][0] == 'O' == o[0];
  }

  /** Once statements have begun, any option rejects the program. */
  lemma {:induction false} BodyPhases(t: string)
    ensures Phases(Body, t) == if HasOption(t) then Rejected else Body
    decreases |t|
  {
    hide LineEnd, NextLine, OptionStatement, Idle;
    if t != "" {
      var line, rest := t[..LineEnd(t)], t[NextLine(t)..];
      if OptionStatement(line) {
        NotIdleOption(line);
        RejectedStays(rest);
      } else {
        BodyPhases(rest);
      }
    }
  }

  /** Without options nothing is rejected. */
  lemma {:induction false} PlainPhases(phase: Phase, t: string)
    requires phase != Rejected && !HasOption(t)
    ensures Phases(phase, t) != Rejected
    decreases |t|
  {
    hide LineEnd, NextLine, OptionStatement, Idle;
    if t != "" {
      PlainPhases(NextPhase(phase, t[..LineEnd(t)]), t[NextLine(t)..]);
    }
  }

  // ---------------------------------------------------------------- rewriting adds and removes no option

  lemma LineOptions(op: string, dst: string, rest: string, more: string)
    requires |op| == 3 && !Blank(op[0]) && op[0] != 'O' && !Has(op, '\n') && !Has(dst, '\n') && !Has(rest, '\n')
    ensures HasOption(Line(op, dst, rest, more)) <==> HasOption(more)
  {
    var line := op + " " + dst + ", " + rest + ";";
    assert !Has(line, '\n');
    NotOption(line);
    hide LineEnd, NextLine, OptionStatement, Has;
    FirstLine(line, more);
    var t := Line(op, dst, rest, more);
    assert t == line + "\n" + more;
    assert t[..|line|] == line && t[|line| + 1..] == more;
  }

  lemma NotOption(line: string)
    requires line != "" && !Blank(line[0]) && line[0] != 'O'
    ensures !OptionStatement(line)
  {
    assert Blanks(line) == 0 && line[0..] == line;
    assert |line| >= 6 ==> line[..6][0] == line[0];
  }

  lemma OwnText(t: string)
    requires Own(t)
    ensures !Has(t, '\n') && !Has(t, ',')
  {
    OwnName(t);
  }

  lemma JoinedLines(a: string, b: string)
    requires !Has(a, '\n') && !Has(b, '\n')
    ensures !Has(a + ", " + b, '\n')
  {
  }

  lemma OwnTexts()
    ensures !Has(SCRATCH_X, '\n') && !Has(SCRATCH_Y, '\n') && !Has(SCRATCH_X + ", " + GUARD_X, '\n')
    ensures !Has(SCRATCH_X + ", " + GUARD_W, '\n') && !Has(SCRATCH_X + ", " + SCRATCH_Y, '\n')
    ensures !Has(SCRATCH_Y + ", " + GUARD_Y + ", " + GUARD_Z, '\n')
  {
    hide Has;
    OwnText(SCRATCH_X);
    OwnText(SCRATCH_Y);
    OwnText(GUARD_X);
    OwnText(GUARD_Y);
    OwnText(GUARD_Z);
    OwnText(GUARD_W);
    JoinedLines(SCRATCH_X, GUARD_X);
    JoinedLines(SCRATCH_X, GUARD_W);
    JoinedLines(SCRATCH_X, SCRATCH_Y);
    JoinedLines(SCRATCH_Y, GUARD_Y);
    JoinedLines(SCRATCH_Y + ", " + GUARD_Y, GUARD_Z);
  }

  lemma GuardsHoldNone(dst: string, operand: string)
    requires !Has(dst, '\n') && !Has(operand, '\n')
    ensures !HasOption(GuardedRsq(dst, operand)) && !HasOption(GuardedRcp(dst, operand))
  {
    OwnTexts();
    hide Line, HasOption, Has;
    assert !HasOption("") by { NoOption(); }
    var r3 := Line("RSQ", dst, SCRATCH_X, "");
    var r2 := Line("MAX", SCRATCH_X, SCRATCH_X + ", " + GUARD_X, r3);
    Lines("RSQ", dst, SCRATCH_X, "");
    Lines("MAX", SCRATCH_X, SCRATCH_X + ", " + GUARD_X, r3);
    Lines("ABS", SCRATCH_X, operand, r2);
    var p7 := Line("MUL", dst, SCRATCH_X + ", " + SCRATCH_Y, "");
    var p6 := Line("MAD", SCRATCH_Y, SCRATCH_Y + ", " + GUARD_Y + ", " + GUARD_Z, p7);
    var p5 := Line("RCP", SCRATCH_X, SCRATCH_X, p6);
    var p4 := Line("MAX", SCRATCH_X, SCRATCH_X + ", " + GUARD_X, p5);
    var p3 := Line("ABS", SCRATCH_X, SCRATCH_X, p4);
    var p2 := Line("SLT", SCRATCH_Y, SCRATCH_X + ", " + GUARD_W, p3);
    Lines("MUL", dst, SCRATCH_X + ", " + SCRATCH_Y, "");
    Lines("MAD", SCRATCH_Y, SCRATCH_Y + ", " + GUARD_Y + ", " + GUARD_Z, p7);
    Lines("RCP", SCRATCH_X, SCRATCH_X, p6);
    Lines("MAX", SCRATCH_X, SCRATCH_X + ", " + GUARD_X, p5);
    Lines("ABS", SCRATCH_X, SCRATCH_X, p4);
    Lines("SLT", SCRATCH_Y, SCRATCH_X + ", " + GUARD_W, p3);
    Lines("MOV", SCRATCH_X, operand, p2);
  }

  lemma NoOption()
    ensures !HasOption("")
  {
  }

  lemma Lines(op: string, dst: string, rest: string, more: string)
    requires Instruction(op) && !Has(dst, '\n') && !Has(rest, '\n') && !HasOption(more)
    ensures !HasOption(Line(op, dst, rest, more))
  {
    hide Line, HasOption;
    LineOptions(op, dst, rest, more);
  }

  lemma PrefixLacks(t: string, c: char)
    requires !Has(t, c)
    ensures !Has(UpToNul(t), c)
  {
  }

  /** Replacing a line keeps whether it is an option. */
  lemma ReplacedOptions(t: string)
    requires t != ""
    ensures HasOption(Replaced(t)) <==> OptionStatement(t[..LineEnd(t)])
    ensures WholeLines(Replaced(t)) || NextLine(t) == |t|
  {
    var line := t[..LineEnd(t)];
    if Expansion(line).Some? {
      assert !Has(line, '\n');
      hide LineEnd, NextLine, WholeLines, HasOption, OptionStatement, Parse, GuardedRsq, GuardedRcp, UpToNul, Has;
      ExpandedOptions(line);
    } else {
      hide Parse, HasOption, OptionStatement;
      KeptLine(t);
    }
  }

  lemma ExpandedOptions(line: string)
    requires Expansion(line).Some? && !Has(line, '\n')
    ensures !HasOption(Expansion(line).value) && WholeLines(Expansion(line).value) && !OptionStatement(line)
  {
    var op := if Unary(line, RSQ).Some? then RSQ else RCP;
    var st := Unary(line, op).value;
    GuardingIsNoOption(line);
    var a, b, c, d := StatementParts(line);
    hide Parse, HasOption, OptionStatement, WholeLines, GuardedRsq, GuardedRcp, UpToNul;
    PartLacks(a, st.dst, b, '\n');
    PartLacks(c, st.rest, d, '\n');
    PrefixLacks(st.dst, '\n');
    PrefixLacks(st.rest, '\n');
    hide Has;
    GuardsHoldNone(UpToNul(st.dst), UpToNul(st.rest));
    GuardedEndsLine(UpToNul(st.dst), UpToNul(st.rest));
  }

  lemma GuardingIsNoOption(line: string)
    requires Guarding(line)
    ensures !OptionStatement(line)
  {
    var o := line[Blanks(line)..];
    assert o[..3][0] == 'R' == o[0];
    assert |o| >= 6 ==> o[..6][0] == o[0];
  }

  lemma KeptLine(t: string)
    requires t != ""
    ensures HasOption(t[..NextLine(t)]) <==> OptionStatement(t[..LineEnd(t)])
    ensures WholeLines(t[..NextLine(t)]) || NextLine(t) == |t|
  {
    hide OptionStatement;
    var n, line := NextLine(t), t[..LineEnd(t)];
    NoOption();
    if n == LineEnd(t) + 1 {
      FirstLine(line, "");
      assert line + "\n" + "" == t[..n];
      assert t[..n][..|line|] == line && t[..n][n..] == "";
    } else {
      assert t[..n] == t == line && t[n..] == "";
    }
  }

  /** Rewriting leaves exactly the options there were. */
  lemma {:induction false} RewrittenOptions(t: string)
    ensures HasOption(Rewritten(t)) <==> HasOption(t)
    decreases |t|
  {
    hide LineEnd, NextLine, WholeLines, Replaced, OptionStatement;
    if t != "" {
      ReplacedOptions(t);
      RewrittenOptions(t[NextLine(t)..]);
      OptionConcat(Replaced(t), Rewritten(t[NextLine(t)..]));
    }
  }

  // ---------------------------------------------------------------- what still loads

  lemma DeclarationPhases(phase: Phase)
    requires phase != Rejected
    ensures Phases(phase, Declarations()) == Body && WholeLines(Declarations())
  {
    hide Has, LineEnd, NextLine, OptionStatement, Idle, Declarations;
    NoNewline(PARAMETER);
    NoNewline(SCRATCH);
    ParameterText();
    ScratchWord();
    NotOption(PARAMETER);
    NotOption(SCRATCH);
    NotIdle(PARAMETER);
    NotIdle(SCRATCH);
    DeclarationsText();
    OneLine(phase, PARAMETER, SCRATCH + "\n");
    OneLine(Body, SCRATCH, "");
  }

  lemma OneLine(phase: Phase, line: string, more: string)
    requires !Has(line, '\n')
    ensures Phases(phase, line + "\n" + more) == Phases(NextPhase(phase, line), more)
  {
    hide NextPhase, LineEnd, NextLine;
    FirstLine(line, more);
    var t := line + "\n" + more;
    assert t[..|line|] == line && t[|line| + 1..] == more;
  }

  /** The header ends where a line does. */
  lemma {:induction false} OptionsEndLine(t: string)
    ensures WholeLines(t[..OptionsEnd(t)]) || OptionsEnd(t) == |t|
    decreases |t|
  {
    hide LineEnd, OptionLine;
    if OptionsEnd(t) != 0 {
      var n, rest := NextLine(t), t[NextLine(t)..];
      OptionsEndLine(rest);
      assert t[..n + OptionsEnd(rest)] == t[..n] + rest[..OptionsEnd(rest)];
      if OptionsEnd(rest) == 0 {
        KeptLine(t);
      } else {
        assert t[..n + OptionsEnd(rest)][n + OptionsEnd(rest) - 1] == rest[..OptionsEnd(rest)][OptionsEnd(rest) - 1];
      }
    } else {
      assert t[..0] == "";
    }
  }

  /** The text after the first line, cut where the declarations go in. */
  lemma AroundDeclarations(t: string)
    requires Guarded(t).Some?
    ensures var h, n := HeaderEnd(t), NextLine(t); var out := Guarded(t).value;
            && LineEnd(t) >= 10 && n == LineEnd(t) + 1 <= h < |t|
            && IsArb(out) && LineEnd(out) == LineEnd(t) && NextLine(out) == n && out[..LineEnd(t)] == t[..LineEnd(t)]
            && t[n..] == t[n..h] + t[h..] && WholeLines(t[n..h])
            && out[n..] == t[n..h] + (Declarations() + Rewritten(t[h..]))
  {
    hide IsArb, Guarded, Rewritten, Declarations, HeaderEnd, NextLine, LineEnd, WholeLines, Has, Count;
    GuardedIs(t);
    HeaderFacts(t);
    var h, n := HeaderEnd(t), NextLine(t);
    LineLacksNewline(t);
    HeaderCut(t, LineEnd(t), h, Declarations(), Rewritten(t[h..]));
    SameFirstLine(t, Guarded(t).value);
  }

  lemma SameFirstLine(t: string, out: string)
    requires IsArb(t) && 10 <= LineEnd(t) < |t| && NextLine(t) == LineEnd(t) + 1 <= |out| && !Has(t[..LineEnd(t)], '\n')
    requires out == t[..LineEnd(t)] + "\n" + out[LineEnd(t) + 1..]
    ensures IsArb(out) && LineEnd(out) == LineEnd(t) && NextLine(out) == NextLine(t)
  {
    hide LineEnd, NextLine, Has;
    var line := t[..LineEnd(t)];
    FirstLine(line, out[LineEnd(t) + 1..]);
    assert out[..10] == line[..10] == t[..10];
  }

  lemma LineLacksNewline(t: string)
    ensures !Has(t[..LineEnd(t)], '\n')
  {
  }

  lemma GuardedIs(t: string)
    requires Guarded(t).Some?
    ensures IsArb(t) && Count(t, RSQ) + Count(t, RCP) > 0
    ensures Guarded(t).value == t[..HeaderEnd(t)] + Declarations() + Rewritten(t[HeaderEnd(t)..])
  {
    hide Rewritten, Declarations, IsArb, HeaderEnd, Count;
  }

  lemma HeaderFacts(t: string)
    requires IsArb(t) && Count(t, RSQ) + Count(t, RCP) > 0
    ensures LineEnd(t) >= 10 && NextLine(t) == LineEnd(t) + 1 <= HeaderEnd(t) < |t| && t[LineEnd(t)] == '\n'
    ensures WholeLines(t[NextLine(t)..HeaderEnd(t)])
  {
    hide IsArb, Count, OptionsEnd, Find, WholeLines;
    var n := NextLine(t);
    ArbFirstLine(t);
    LinesAfterHeader(t);
    OptionsEndLine(t[n..]);
    assert t[n..][..HeaderEnd(t) - n] == t[n..HeaderEnd(t)];
  }

  lemma LinesAfterHeader(t: string)
    requires IsArb(t) && Count(t, RSQ) + Count(t, RCP) > 0
    ensures HeaderEnd(t) < |t|
  {
    hide IsArb, HeaderEnd, Unary;
    HeaderHoldsNone(t, RSQ);
    HeaderHoldsNone(t, RCP);
  }

  lemma HeaderCut(t: string, e: nat, h: nat, a: string, b: string)
    requires e < h <= |t| && t[e] == '\n'
    ensures var out := t[..h] + a + b;
            && out[..e] == t[..e] && out[e + 1..] == t[e + 1..h] + (a + b) && out == t[..e] + "\n" + out[e + 1..]
            && t[e + 1..] == t[e + 1..h] + t[h..]
  {
    var out := t[..h] + a + b;
    assert out[..h] == t[..h] && out[..e] == t[..h][..e] && out[e] == t[e];
    assert out == t[..h] + (a + b);
  }

  /** The options of the rewritten program come first exactly when those of the original do and it
      has no OPTION after its header, the first line and the OPTION lines right after it. */
  lemma OrderedWhen(t: string)
    requires Guarded(t).Some?
    ensures Ordered(Guarded(t).value) <==> Ordered(t) && !HasOption(t[HeaderEnd(t)..])
  {
    var h, n, out := HeaderEnd(t), NextLine(t), Guarded(t).value;
    AroundDeclarations(t);
    assert out[10..LineEnd(t)] == out[..LineEnd(t)][10..] == t[10..LineEnd(t)];
    var options, tail := t[n..h], t[h..];
    var phase := Phases(NextPhase(Opening, t[10..LineEnd(t)]), options);
    hide HeaderEnd, LineEnd, NextLine, NextPhase, HasOption, Rewritten, Declarations, IsArb, WholeLines, Guarded;
    hide Phases;
    PhasesConcat(NextPhase(Opening, t[10..LineEnd(t)]), options, tail);
    PhasesConcat(NextPhase(Opening, t[10..LineEnd(t)]), options, Declarations() + Rewritten(tail));
    if phase == Rejected {
      RejectedStays(tail);
      RejectedStays(Declarations() + Rewritten(tail));
    } else {
      DeclarationPhases(phase);
      PhasesConcat(phase, Declarations(), Rewritten(tail));
      BodyPhases(Rewritten(tail));
      RewrittenOptions(tail);
      if !HasOption(tail) {
        PlainPhases(phase, tail);
      }
    }
  }

  // ---------------------------------------------------------------- limits

  /** What rewriting adds to a program with a gain of `n` instructions. */
  function Added(n: nat): Usage {
    Usage(n, n, 1, 1, {})
  }

  lemma {:induction false} PlainTail(t: string)
    requires Plain(t)
    ensures Plain(t[OptionsEnd(t)..])
    decreases |t|
  {
    hide LineEnd, NextLine, PlainLine, OptionLine;
    if OptionsEnd(t) != 0 {
      var rest := t[NextLine(t)..];
      PlainTail(rest);
      assert t[OptionsEnd(t)..] == rest[OptionsEnd(rest)..];
    } else {
      assert t[0..] == t;
    }
  }

  lemma PlainBody(t: string)
    requires Plain(t) && IsArb(t)
    ensures Plain(t[HeaderEnd(t)..])
  {
    hide PlainLine, OptionsEnd, NextLine, LineEnd;
    var rest := t[NextLine(t)..];
    PlainTail(rest);
    assert t[HeaderEnd(t)..] == rest[OptionsEnd(rest)..];
  }

  lemma BodyUses(l: Loader, a: string, tail: string)
    requires WholeLines(a) && Plain(tail)
    ensures Uses(l, a + (Declarations() + Rewritten(tail))) == Plus(Uses(l, a + tail), Added(Gain(tail)))
  {
    hide Uses, Rewritten, Declarations, WholeLines, Gain, Plus, Plain;
    DeclarationsUse(l);
    assert WholeLines(Declarations()) by { DeclarationPhases(Body); }
    RewrittenUses(l, tail);
    UsesConcat(l, a, Declarations() + Rewritten(tail));
    UsesConcat(l, Declarations(), Rewritten(tail));
    UsesConcat(l, a, tail);
    AddBoth(Uses(l, a), Uses(l, tail), Gain(tail));
  }

  lemma AddBoth(u: Usage, v: Usage, n: nat)
    ensures Plus(u, Plus(Usage(0, 0, 1, 1, {}), Plus(v, More(n)))) == Plus(Plus(u, v), Added(n))
  {
  }

  /** Rewriting takes two more instructions for each RSQ, six for each RCP, one temporary and one
      parameter. */
  lemma RewrittenTakes(l: Loader, t: string)
    requires Guarded(t).Some? && Plain(t)
    ensures ProgramUses(l, Guarded(t).value) == Plus(ProgramUses(l, t), Added(Gain(t)))
  {
    hide HeaderEnd, LineEnd, NextLine, Rewritten, Declarations, IsArb, WholeLines, Guarded, Plain, Uses, LineUses;
    hide Plus, Count, ProgramUses;
    var h, n, out := HeaderEnd(t), NextLine(t), Guarded(t).value;
    AroundDeclarations(t);
    GuardedIs(t);
    PlainBody(t);
    HeaderHoldsNone(t, RSQ);
    HeaderHoldsNone(t, RCP);
    FirstLineUses(l, t, out);
    BodyUses(l, t[n..h], t[h..]);
    PlusLaws(LineUses(l, t[10..LineEnd(t)]), Uses(l, t[n..]), Added(Gain(t)));
  }

  lemma FirstLineUses(l: Loader, t: string, out: string)
    requires 10 <= LineEnd(t) == LineEnd(out) && out[..LineEnd(t)] == t[..LineEnd(t)]
    ensures ProgramUses(l, t) == Plus(LineUses(l, t[10..LineEnd(t)]), Uses(l, t[NextLine(t)..]))
    ensures ProgramUses(l, out) == Plus(LineUses(l, t[10..LineEnd(t)]), Uses(l, out[NextLine(out)..]))
  {
    hide LineEnd, NextLine, Uses, LineUses, Plus;
    assert out[10..LineEnd(t)] == out[..LineEnd(t)][10..] == t[10..LineEnd(t)];
  }

  /** The limits leave room for what rewriting adds. */
  predicate HasRoom(l: Loader, t: string)
  {
    var u := ProgramUses(l, t);
    && u.instructions + 2 * Count(t, RSQ) + 6 * Count(t, RCP) <= l.instructions
    && u.arithmetic + 2 * Count(t, RSQ) + 6 * Count(t, RCP) <= l.arithmetic
    && u.temporaries + 1 <= l.temporaries
    && u.own + |u.bindings| + 1 <= l.parameters
  }

  /** When the rewritten program loads too. */
  predicate StaysLoadable(l: Loader, t: string) {
    !HasOption(t[HeaderEnd(t)..]) && HasRoom(l, t)
  }

  lemma RoomIs(l: Loader, u: Usage, n: nat)
    ensures Within(l, Plus(u, Added(n))) <==>
            && u.instructions + n <= l.instructions && u.arithmetic + n <= l.arithmetic
            && u.temporaries + 1 <= l.temporaries && u.own + |u.bindings| + 1 <= l.parameters
    ensures Within(l, Plus(u, Added(n))) ==> Within(l, u)
  {
    assert u.bindings + {} == u.bindings;
  }

  /** The rewritten program loads exactly when the original does, has no OPTION after its header
      and leaves room for the instructions, the temporary and the parameter that are added. */
  lemma LoadsWhen(l: Loader, t: string)
    requires Guarded(t).Some? && Plain(t)
    ensures Loads(l, Guarded(t).value) <==> Loads(l, t) && StaysLoadable(l, t)
  {
    hide Guarded, Plain, Ordered, HasOption, HeaderEnd, ProgramUses, Within, Plus, Count;
    OrderedWhen(t);
    RewrittenTakes(l, t);
    RoomIs(l, ProgramUses(l, t), Gain(t));
  }

  /** A program whose options are all on OPTION lines right after its first line still loads once
      rewritten, if it has room for what is added: the usual case. */
  lemma OptionsInFront(l: Loader, head: string, options: seq<string>, rest: string)
    requires ArbHeader(head) && !StartsOption(rest) && !HasOption(rest)
    requires forall k :: 0 <= k < |options| ==> StartsOption(options[k]) && !Has(options[k], '\n')
    requires var t := head + "\n" + AsLines(options) + rest;
             Guarded(t).Some? && Plain(t) && Loads(l, t) && HasRoom(l, t)
    ensures Loads(l, Guarded(head + "\n" + AsLines(options) + rest).value)
  {
    hide Guarded, Plain, Loads, HasOption, HeaderEnd, HasRoom, StartsOption, ArbHeader;
    var t := head + "\n" + AsLines(options) + rest;
    HeaderIs(head, options, rest);
    assert t[HeaderEnd(t)..] == rest;
    LoadsWhen(l, t);
  }

  /** A program that fills its limits, of instructions or of temporaries, no longer loads. */
  lemma FullProgram(l: Loader, t: string)
    requires Guarded(t).Some? && Plain(t) && Loads(l, t)
    requires ProgramUses(l, t).instructions == l.instructions || ProgramUses(l, t).temporaries == l.temporaries
    ensures !Loads(l, Guarded(t).value)
  {
    hide Guarded, Plain, Loads, HasOption, HeaderEnd, ProgramUses, Count;
    LoadsWhen(l, t);
    GuardedIs(t);
  }

  // ---------------------------------------------------------------- meaning

  /** What the rewritten program means, on any machine and in any state: where it loads, the same
      accesses in the same order as the original, with the values of the clamped run. */
  lemma GuardedSimulates<P>(l: Loader, m: Machine<P>, s: State<P>, t: string)
    requires Guarded(t).Some? && Plain(t)
    ensures Meaning(l, m, s, Guarded(t).value) ==
            if Loads(l, t) && StaysLoadable(l, t) then Some(RunClamped(m, s.core, t)) else None
  {
    hide Run, RunClamped, Plain, Guarded, Loads, StaysLoadable;
    LoadsWhen(l, t);
    GuardedRuns(m, s, t);
  }

  /** Without small operands the rewritten program means what the original meant, unless the
      original loads in spite of an OPTION behind its header or of limits too close for the rest. */
  lemma MeaningPreserved<P>(l: Loader, m: Machine<P>, s: State<P>, t: string)
    requires Guarded(t).Some? && Plain(t) && LargeEnough(m, s, t)
    ensures Meaning(l, m, s, Guarded(t).value) == Meaning(l, m, s, t) <==> (Loads(l, t) ==> StaysLoadable(l, t))
  {
    hide Run, RunClamped, Plain, LargeEnough, Guarded, Loads, StaysLoadable;
    GuardedSimulates(l, m, s, t);
    LargeRuns(m, s, t);
  }

  // ---------------------------------------------------------------- a program that no longer loads

  /** A comment before the OPTION. */
  function Commented(): string {
    "!!ARBfp1.0" + "\n" + AfterHeader()
  }

  function AfterHeader(): string {
    "#" + "\n" + AfterComment()
  }

  function AfterComment(): string {
    "OPTION o;" + "\n" + LastLine()
  }

  function LastLine(): string {
    "RCP a, b;" + "\n" + ""
  }

  lemma CommentedLines()
    ensures LineEnd(Commented()) == 10 && NextLine(Commented()) == 11 && Commented()[11..] == AfterHeader()
    ensures Commented()[..10] == "!!ARBfp1.0"
    ensures LineEnd(AfterHeader()) == 1 && NextLine(AfterHeader()) == 2
    ensures AfterHeader()[..1] == "#" && AfterHeader()[2..] == AfterComment()
    ensures LineEnd(AfterComment()) == 9 && NextLine(AfterComment()) == 10
    ensures AfterComment()[..9] == "OPTION o;" && AfterComment()[10..] == LastLine()
    ensures LineEnd(LastLine()) == 9 && NextLine(LastLine()) == 10 && LastLine()[..9] == "RCP a, b;"
    ensures LastLine()[10..] == ""
  {
    hide LineEnd, NextLine;
    FirstLine("!!ARBfp1.0", AfterHeader());
    FirstLine("#", AfterComment());
    FirstLine("OPTION o;", LastLine());
    FirstLine("RCP a, b;", "");
  }

  lemma CommentedStatement()
    ensures Parse("RCP a, b;") == Some(Statement(RCP, "a", "b", ""))
  {
    var g, st := Gaps("", " ", "", " ", ""), Statement(RCP, "a", "b", "");
    hide Parse;
    ParsesPrinted(g, st);
    assert StatementText(g, st) == "RCP a, b;";
  }

  lemma CommentedOptions()
    ensures OptionStatement("OPTION o;") && !OptionStatement("RCP a, b;") && !OptionStatement("#")
    ensures Idle("#") && Idle("") && !OptionLine("#")
  {
    NotOption("RCP a, b;");
    NotOption("#");
    assert "#"[0..] == "#";
    assert Blanks("OPTION o;") == 0;
    assert "OPTION o;"[0..] == "OPTION o;" && "OPTION o;"[..6] == "OPTION";
  }

  lemma CommentedText()
    ensures Commented() == "!!ARBfp1.0\n#\nOPTION o;\nRCP a, b;\n"
  {
    assert LastLine() == "RCP a, b;\n";
    assert AfterComment() == "OPTION o;\nRCP a, b;\n";
    assert AfterHeader() == "#\nOPTION o;\nRCP a, b;\n";
  }

  lemma CommentedCounts()
    ensures Guarded(Commented()).Some? && HeaderEnd(Commented()) == 11
  {
    CommentedLines();
    CommentedStatement();
    CommentedOptions();
    hide LineEnd, NextLine, Parse, OptionLine, Rewritten, Commented, AfterHeader, AfterComment, LastLine;
    assert Count(LastLine(), RCP) >= 1;
    assert Count(AfterComment(), RCP) >= 1;
    assert Count(AfterHeader(), RCP) >= 1;
    assert OptionsEnd(AfterHeader()) == 0;
  }

  lemma CommentedUses(l: Loader)
    ensures ProgramUses(l, Commented()) == Usage(1, 1, 0, 0, l.bindings("b"))
  {
    CommentedLines();
    CommentedStatement();
    CommentedOptions();
    OneRcp(l);
    hide LineEnd, NextLine, Parse, OptionLine, Idle, Starts, Commented, AfterHeader, AfterComment, LastLine;
    hide LineBindings, Plus;
    NothingUsed(l);
    var u := Usage(1, 1, 0, 0, l.bindings("b"));
    PlusLaws(u, NOTHING, NOTHING);
    assert Uses(l, LastLine()) == u;
    assert Uses(l, AfterComment()) == u;
    assert Uses(l, AfterHeader()) == u;
  }

  lemma OneRcp(l: Loader)
    ensures LineUses(l, "RCP a, b;") == Usage(1, 1, 0, 0, l.bindings("b"))
  {
    hide Parse, LineUses, Blanks, Has, Contains;
    CommentedStatement();
    RcpText();
    LacksReserved("RCP a, b;");
    CountedOnce(l, "RCP a, b;", "RCP");
  }

  lemma RcpText()
    ensures var line := "RCP a, b;"; var t := line[Blanks(line)..];
            |t| >= 4 && t[..3] == "RCP" && Blank(t[3]) && !Has(line, '_')
  {
    assert Blanks("RCP a, b;") == 0 && "RCP a, b;"[0..] == "RCP a, b;";
  }

  lemma LacksReserved(t: string)
    requires !Has(t, '_')
    ensures !Contains(t, RESERVED)
  {
    forall i | 0 <= i <= |t| - |RESERVED| ensures !At(t, i, RESERVED) {
      assert t[i..i + |RESERVED|][4] == t[i + 4] != '_' == RESERVED[4];
    }
  }

  /** This program loads where there is room for one instruction, and rewritten it does not however
      much room there is: the declarations come before its OPTION. */
  lemma OptionBehindComment(l: Loader)
    requires Within(l, Usage(1, 1, 0, 0, l.bindings("b")))
    ensures Commented() == "!!ARBfp1.0\n#\nOPTION o;\nRCP a, b;\n"
    ensures Loads(l, Commented()) && Guarded(Commented()).Some? && !Loads(l, Guarded(Commented()).value)
  {
    hide Loads, Guarded, Commented, Within;
    CommentedText();
    CommentedLoads(l);
  }

  lemma CommentedLoads(l: Loader)
    requires Within(l, Usage(1, 1, 0, 0, l.bindings("b")))
    ensures Loads(l, Commented()) && Guarded(Commented()).Some? && !Loads(l, Guarded(Commented()).value)
  {
    hide Ordered, Guarded, Commented, ProgramUses, Within, HasOption, HeaderEnd, AfterHeader;
    CommentedRest();
    CommentedCounts();
    CommentedUses(l);
    CommentedOrder();
    OrderedWhen(Commented());
  }

  lemma CommentedRest()
    ensures |Commented()| >= 11 && Commented()[11..] == AfterHeader()
  {
    hide Commented, AfterHeader;
    CommentedLines();
  }

  /** Its options come first, and one of them is behind the header. */
  lemma CommentedOrder()
    ensures Ordered(Commented()) && HasOption(AfterHeader())
  {
    hide HasOption, NextPhase, OptionStatement, Idle, LineEnd, NextLine, Has, Phases;
    CommentedPhases();
    CommentedNewlines();
    EmptyPhases();
    CommentedFirst();
    OneLine(Opening, "RCP a, b;", "");
    OneLine(Opening, "OPTION o;", LastLine());
    OneLine(Opening, "#", AfterComment());
    OneOption("OPTION o;", LastLine());
    OneOption("#", AfterComment());
    hide Commented, AfterHeader, AfterComment, LastLine;
  }

  lemma CommentedPhases()
    ensures NextPhase(Opening, "") == Opening && NextPhase(Opening, "#") == Opening
    ensures NextPhase(Opening, "OPTION o;") == Opening && NextPhase(Opening, "RCP a, b;") != Rejected
    ensures OptionStatement("OPTION o;")
  {
    hide OptionStatement, Idle;
    CommentedOptions();
  }

  lemma CommentedNewlines()
    ensures !Has("RCP a, b;", '\n') && !Has("OPTION o;", '\n') && !Has("#", '\n')
  {
  }

  lemma EmptyPhases()
    ensures forall phase :: Phases(phase, "") == phase
  {
  }

  lemma CommentedFirst()
    ensures IsArb(Commented()) && LineEnd(Commented()) == 10 && Commented()[10..LineEnd(Commented())] == ""
    ensures Commented()[NextLine(Commented())..] == AfterHeader()
  {
    hide Commented, AfterHeader, LineEnd, NextLine;
    CommentedLines();
    assert Commented()[10..10] == "";
  }

  lemma OneOption(line: string, more: string)
    requires !Has(line, '\n')
    ensures HasOption(line + "\n" + more) <==> OptionStatement(line) || HasOption(more)
  {
    hide OptionStatement, LineEnd, NextLine, Has;
    FirstLine(line, more);
    var t := line + "\n" + more;
    assert t[..|line|] == line && t[|line| + 1..] == more;
  }
}
