/** Compiling a whole pattern: measure, allocate exactly that much, fill it in. */
module Program {
  import opened Opcodes
  import opened Bytecode
  import opened Matching
  import opened Machine
  import opened Pattern
  import opened Translation
  import opened Meaning
  import opened TwoPass
  import opened Measure
  import opened FirstChar
  import opened Compiler

  /** The brackets and branches are complete, and OP_END follows them. */
  lemma {:induction false} FinishProgram(was: seq<byte>, now: seq<byte>, alts: Alts, end: nat)
    requires end == 3 + AltsSize(alts) + 4 <= |was|
    requires was[0] == OP_BRA && AltsAt(was, 0, 3, alts) && KetAt(was, 0, 3 + AltsSize(alts), Ket)
    requires now == was[..end - 1] + [OP_END]
    ensures ProgramAt(now, alts)
  {
    hide AltsAt, ItemAt;
    GroupIntro(was, 0, Top(alts));
    ItemShift(was, 0, end - 1, now, 0, 0, 0, Top(alts));
  }

  /** Everything the compiler promises about the bytes it returns: they match only what the
      pattern denotes, all of it when nothing is possessive, and every match has the
      recorded characters. */
  lemma CompiledMeaning(code: seq<byte>, p: Pattern, s: Subject, i: nat, j: nat)
    requires ProgramAt(code, PatternCode(p, 0)) && i <= |s|
    ensures Runs(code, s, i, j) ==> PatternSpan(p, s, i, j) && SummaryOk(PatternSummary(p, false), s, i, j)
    ensures Backtracks(p) && PatternSpan(p, s, i, j) ==> Runs(code, s, i, j)
  {
    CompilationPreservesMeaning(code, p, s, i, j);
    if PatternSpan(p, s, i, j) {
      PatternSound(p, false, s, i, j);
    }
  }

  /** The second pass over the whole pattern, into a buffer of the measured length. The
      overrun check after it never fires. */
  method FillIn(p: Pattern, code: array<byte>) returns (end: nat, first: Known, req: Known, topBracket: nat)
    requires code.Length == ProgramLength(p) <= MAX_PATTERN_SIZE
    modifies code
    ensures end <= code.Length && (end == code.Length <==> !Drops(p))
    ensures ProgramAt(code[..end], PatternCode(p, 0)) && topBracket == Captures(p)
    ensures first == PatternSummary(p, false).first && req == PatternSummary(p, false).req
  {
    hide AltsAt, PatternSummary, KetAt;
    var cd := new CompileData(code);
    code[0] := OP_BRA;
    PatternFits(p, 0);
    end, first, req := cd.CompileRegex(p, 0, 0);
    topBracket := cd.bracount;
    ghost var was := code[..];
    assert was[0] == OP_BRA;
    code[end] := OP_END;
    end := end + 1;
    if end > code.Length {
      // ERR23: the code has overrun the buffer.
      assert false;
    }
    assert code[..end] == was[..end - 1] + [OP_END];
    FinishProgram(was, code[..end], PatternCode(p, 0), end);
  }

  /** Compiling a pattern. The only failures are a program over the size limit and too
      deep a nesting. */
  method CompileProgram(p: Pattern) returns (error: nat, code: array<byte>, end: nat, first: Known, req: Known, topBracket: nat)
    ensures error == 0 <==> ProgramLength(p) <= MAX_PATTERN_SIZE && Depth(p) <= PARENS_NEST_LIMIT
    ensures error == 0 || (error == ERR20 && ProgramLength(p) > MAX_PATTERN_SIZE) || (error == ERR82 && Depth(p) > PARENS_NEST_LIMIT)
    ensures error == 0 ==> end <= code.Length == ProgramLength(p) && (end == code.Length <==> !Drops(p))
    ensures error == 0 ==> ProgramAt(code[..end], PatternCode(p, 0)) && topBracket == Captures(p)
    ensures error == 0 ==> first == PatternSummary(p, false).first && req == PatternSummary(p, false).req
    ensures error == 0 ==> forall s: Subject, i: nat, j: nat :: i <= |s| && Runs(code[..end], s, i, j) ==>
              PatternSpan(p, s, i, j) && SummaryOk(PatternSummary(p, false), s, i, j)
    ensures error == 0 && Backtracks(p) ==>
              forall s: Subject, i: nat, j: nat :: i <= |s| && PatternSpan(p, s, i, j) ==> Runs(code[..end], s, i, j)
  {
    first, req, end, topBracket := Unset, Unset, 0, 0;
    var r := MeasureProgram(p);
    if r.Failed? {
      error, code := r.code, new byte[0];
      return;
    }
    error, code := 0, new byte[r.n];
    end, first, req, topBracket := FillIn(p, code);
    forall s: Subject, i: nat, j: nat | i <= |s|
      ensures Runs(code[..end], s, i, j) ==> PatternSpan(p, s, i, j) && SummaryOk(PatternSummary(p, false), s, i, j)
      ensures Backtracks(p) && PatternSpan(p, s, i, j) ==> Runs(code[..end], s, i, j)
    {
      CompiledMeaning(code[..end], p, s, i, j);
    }
  }
}
