/** The end of compilation: the optimised program and the header that a search will use. */
module Compile {
  import opened Opcodes
  import opened Bytecode
  import opened Matching
  import opened Machine
  import opened EmptinessScan
  import opened Pattern
  import opened Translation
  import opened TwoPass
  import opened Measure
  import opened Characters
  import opened FirstChar
  import opened Recorded
  import opened AutoPossess
  import opened AutoScan
  import opened Anchoring
  import opened Preferred
  import opened Program

  /** What is stored beside the code. A search tries only the first position when anchored
      is set, and only the beginnings of lines when startline is. */
  datatype Header = Header(anchored: bool, startline: bool, first: Known, req: Known)

  /** A recorded character without what a search does not need: the caseless flag of a
      character that has no other case. */
  function Stored(k: Known): Known
  {
    if k.Fixed? then Fixed(k.c, k.caseless && OtherCase(k.c) != k.c, k.varies) else NoChar
  }

  /** It keeps the flag exactly for a letter, and stands for the same characters. */
  lemma StoredIs(k: Known)
    requires k.Fixed?
    ensures var r := Stored(k);
            && r.Fixed? && r.c == k.c && r.varies == k.varies
            && (r.caseless <==> k.caseless && exists x: byte :: x != k.c && Lower(x) == Lower(k.c))
            && forall x: byte :: Matches(r, x) <==> Matches(k, x)
  {
    if OtherCase(k.c) != k.c {
      FlipsCase(k.c, OtherCase(k.c));
    }
    forall x: byte ensures Lower(x) == Lower(k.c) <==> x == k.c || x == OtherCase(k.c) {
      FlipsCase(k.c, x);
    }
  }

  /** An anchored pattern has no use for its first character, and for the required one only
      when something of variable length comes before it. */
  function HeaderOf(alts: Alts, first: Known, req: Known): Header
  {
    var anchored := Tied(AtStart, alts, false);
    Header(
      anchored,
      !anchored && !first.Fixed? && Tied(AtLine, alts, false),
      if anchored then NoChar else Stored(first),
      if req.Fixed? && (!anchored || req.varies) then Stored(req) else NoChar)
  }

  /** The scan for a first character that an assertion demands, tried when none has been
      recorded. Outside assertions a literal ends it, and a group in which it finds nothing
      does too, so that without assertions the first branch settles that there is none. */
  method FindFirstAsserted(code: seq<byte>, start: nat, ghost h: nat, ghost alts: Alts) returns (r: Known)
    requires start < |code| && h == OpLength(code[start]) >= 3
    requires AltsAt(code, start, h, alts) && CloseAt(code, start + h + AltsSize(alts))
    ensures r == NoChar
    decreases alts
  {
    hide At, EndsAt, AltsAt, CloseAt;
    BranchEnd(code, start, h, alts);
    var scode := start + OpLength(code[start]);
    FirstOpcode(code, scode, alts.code);
    var op := code[scode];
    if IsBracket(op) && op != OP_SBRA && op != OP_SBRAPOS {
      r := FindFirstAsserted(code, scode, BraSize(alts.code.item.bra), alts.code.item.body);
    } else {
      r := NoChar;
    }
  }

  /** From the filled-in program to the finished one. */
  method Finish(code: array<byte>, ghost alts: Alts, first: Known, req: Known) returns (header: Header)
    requires ProgramAt(code[..], alts)
    modifies code
    ensures ProgramAt(code[..], AutoProgram(alts)) && header == HeaderOf(alts, first, req)
  {
    hide ProgramAt, Tied, AutoProgram, AltsAt, CloseAt;
    AutoPossessify(code, alts);
    ghost var auto := AutoProgram(alts);
    AutoProgramTied(alts);
    var anchored := IsAnchored(code[..], auto);
    var startline, fc := false, first;
    if !anchored {
      if !fc.Fixed? {
        ProgramTest(code[..], auto);
        fc := FindFirstAsserted(code[..], 0, 3, auto);
      }
      if !fc.Fixed? {
        startline := IsStartline(code[..], auto);
      }
    }
    header := Header(anchored, startline, if anchored then NoChar else Stored(fc),
                     if req.Fixed? && (!anchored || req.varies) then Stored(req) else NoChar);
  }

  lemma AutoProgramTied(alts: Alts)
    ensures Tied(AtStart, AutoProgram(alts), false) == Tied(AtStart, alts, false)
    ensures Tied(AtLine, AutoProgram(alts), false) == Tied(AtLine, alts, false)
  {
    AutoTied(AtStart, alts, In(Top(alts), Nil, AtEnd), false);
    AutoTied(AtLine, alts, In(Top(alts), Nil, AtEnd), false);
  }

  /** The header by the pattern alone. */
  ghost predicate Describes(h: Header, p: Pattern)
  {
    var first, req := PatternHead(p), PatternNeed(p, false);
    && (h.anchored <==> PatternTied(AtStart, p, false))
    && (h.startline <==> PatternTied(AtLine, p, false) && !h.anchored && !first.Fixed?)
    && h.first == (if h.anchored then NoChar else Stored(first))
    && h.req == (if req.Fixed? && (!h.anchored || req.varies) then Stored(req) else NoChar)
  }

  lemma HeaderDescribes(p: Pattern)
    ensures Describes(HeaderOf(PatternCode(p, 0), PatternSummary(p, false).first, PatternSummary(p, false).req), p)
  {
    hide PatternSummary, PatternNeed, PatternHead, Tied, PatternTied;
    TiedExactly(AtStart, p, 0, false);
    TiedExactly(AtLine, p, 0, false);
    PatternFirstIs(p, false);
    PatternReq(p, false);
  }

  /** A pattern that is not anchored has a first character recorded exactly when it starts
      with it, and the search compares with that as the literal would. */
  lemma HeaderFirst(h: Header, p: Pattern, c: byte)
    requires Describes(h, p) && !h.anchored
    ensures h.first.Fixed? && h.first.c == c <==> exists caseless: bool :: StartsWith(p, Fixed(c, caseless, false))
    ensures forall caseless: bool, x: byte {:trigger StartsWith(p, Fixed(c, caseless, false)), Matches(h.first, x)} ::
              StartsWith(p, Fixed(c, caseless, false)) ==> (Matches(h.first, x) <==> Accepts(Lit(c, caseless, false), x))
  {
    hide Stored, PatternHead, StartsWith, PatternTied;
    var k := PatternHead(p);
    forall caseless: bool | StartsWith(p, Fixed(c, caseless, false))
      ensures h.first.Fixed? && h.first.c == c && forall x: byte :: Matches(h.first, x) <==> Accepts(Lit(c, caseless, false), x)
    {
      HeadIs(p, Fixed(c, caseless, false));
      StoredIs(k);
      forall x: byte ensures Matches(k, x) <==> Accepts(Lit(c, caseless, false), x) {
        RecordedMatches(c, caseless, false, x);
      }
    }
    if k.Fixed? {
      HeadIs(p, k);
      HeadSteady(p);
      StoredIs(k);
      assert StartsWith(p, Fixed(k.c, k.caseless, false));
    } else {
      StoredNone(k);
    }
  }

  lemma StoredNone(k: Known)
    requires !k.Fixed?
    ensures Stored(k) == NoChar
  {
  }

  /** Compiling a pattern to the end. The unused rest of the buffer, which dropped items
      leave behind, is cut off. */
  method CompileAll(p: Pattern) returns (error: nat, code: array<byte>, header: Header, topBracket: nat)
    ensures error == 0 <==> ProgramLength(p) <= MAX_PATTERN_SIZE && Depth(p) <= PARENS_NEST_LIMIT
    ensures error == 0 ==> ProgramAt(code[..], AutoProgram(PatternCode(p, 0))) && topBracket == Captures(p)
    ensures error == 0 ==>
              header == HeaderOf(PatternCode(p, 0), PatternSummary(p, false).first, PatternSummary(p, false).req)
    ensures error == 0 ==> Describes(header, p)
  {
    hide ProgramAt, AutoProgram, HeaderOf, PatternSummary, Describes;
    HeaderDescribes(p);
    var buffer, end, first, req;
    error, buffer, end, first, req, topBracket := CompileProgram(p);
    code, header := new byte[0], Header(false, false, NoChar, NoChar);
    if error == 0 {
      code := new byte[end](i requires 0 <= i < end <= buffer.Length reads buffer => buffer[i]);
      assert code[..] == buffer[..end];
      header := Finish(code, PatternCode(p, 0), first, req);
    }
  }
}
