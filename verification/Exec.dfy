/** The search for a match: the loop over starting positions with its shortcuts, and why it
    finds what trying every position in turn would find. */
module Exec {
  import opened Opcodes
  import opened Bytecode
  import opened Matching
  import opened Machine
  import opened Pattern
  import opened Translation
  import opened FirstChar
  import opened Ordered
  import opened AutoPossess
  import opened Anchoring
  import opened AnchoredFirst
  import opened Preferred
  import opened Preference
  import opened Matcher
  import opened Pairing
  import opened Compile
  import opened TwoPass
  import opened Measure

  /** In a subject of at least this length the required character is not looked for. */
  const REQ_BYTE_MAX := 1000

  datatype Found = Nothing | FoundAt(start: nat, end: nat, caps: Ordered.Captures)

  /** Every position in turn. */
  function Leftmost(code: seq<byte>, s: Subject, from: nat): Found
    requires from <= |s|
    decreases |s| - from
  {
    var r := MatchAt(code, s, from);
    if r.Match? then FoundAt(from, r.end, r.caps)
    else if from == |s| then Nothing
    else Leftmost(code, s, from + 1)
  }

  // ----- what a header promises -----

  /** Something is found at pos. */
  predicate Hits(code: seq<byte>, s: Subject, pos: nat)
    requires pos <= |s|
  {
    MatchAt(code, s, pos).Match?
  }

  predicate LineStart(s: Subject, from: nat, pos: nat)
  {
    pos == from || (0 < pos <= |s| && s[pos - 1] == NEWLINE)
  }

  ghost predicate Promises(h: Header, code: seq<byte>, s: Subject, from: nat)
  {
    && (forall pos: nat {:trigger Hits(code, s, pos)} :: from <= pos <= |s| && Hits(code, s, pos) ==>
          FirstOk(h.first, s, pos, |s|) && ReqOk(h.req, h.first, s, pos, |s|))
    && (h.anchored ==> h.first == NoChar && !h.startline)
    && (h.anchored ==>
          forall pos: nat {:trigger Hits(code, s, pos)} :: from <= pos <= |s| && Hits(code, s, pos) ==> Hits(code, s, from))
    && (h.startline ==>
          forall pos: nat {:trigger Hits(code, s, pos)} :: from <= pos <= |s| && Hits(code, s, pos) ==>
            exists base: nat :: from <= base <= pos && LineStart(s, from, base) && Hits(code, s, base))
  }

  ghost predicate NoneIn(code: seq<byte>, s: Subject, lo: nat, hi: nat)
  {
    forall pos: nat {:trigger Hits(code, s, pos)} :: lo <= pos < hi && pos <= |s| ==> !Hits(code, s, pos)
  }

  lemma {:induction false} LeftmostSkips(code: seq<byte>, s: Subject, from: nat, till: nat)
    requires from <= till <= |s| + 1 && NoneIn(code, s, from, till) && from <= |s|
    ensures Leftmost(code, s, from) == (if till <= |s| then Leftmost(code, s, till) else Nothing)
    decreases till - from
  {
    if from < till {
      assert !Hits(code, s, from);
      if from < |s| {
        LeftmostSkips(code, s, from + 1, till);
      }
    }
  }

  // ----- the loop -----

  /** Nothing is found where the first character is not. */
  lemma NoFirst(h: Header, code: seq<byte>, s: Subject, from: nat, pos: nat)
    requires Promises(h, code, s, from) && h.first.Fixed? && from <= pos < |s| && !Matches(h.first, s[pos])
    ensures !Hits(code, s, pos)
  {
  }

  /** If nothing has been found up to a position inside a line, nothing is found there. */
  lemma LineBefore(h: Header, code: seq<byte>, s: Subject, from: nat, pos: nat) returns (base: nat)
    requires Promises(h, code, s, from) && h.startline && from <= pos <= |s| && Hits(code, s, pos)
    ensures from <= base <= pos && LineStart(s, from, base) && Hits(code, s, base)
  {
    hide Hits, FirstOk, ReqOk;
    base :| from <= base <= pos && LineStart(s, from, base) && Hits(code, s, base);
  }

  lemma NoLine(h: Header, code: seq<byte>, s: Subject, from: nat, pos: nat)
    requires Promises(h, code, s, from) && h.startline && from < pos <= |s| && s[pos - 1] != NEWLINE && NoneIn(code, s, from, pos)
    ensures !Hits(code, s, pos)
  {
    hide Hits, Promises;
    if Hits(code, s, pos) {
      var base := LineBefore(h, code, s, from, pos);
    }
  }

  lemma NoneNext(code: seq<byte>, s: Subject, lo: nat, hi: nat)
    requires NoneIn(code, s, lo, hi) && hi <= |s| && !Hits(code, s, hi)
    ensures NoneIn(code, s, lo, hi + 1)
  {
  }

  /** On to the next position where the first character is, or where a line begins. */
  method Advance(h: Header, ghost code: seq<byte>, s: Subject, from: nat, at: nat) returns (start: nat)
    requires from <= at <= |s|
    ensures at <= start <= |s|
    ensures Promises(h, code, s, from) && NoneIn(code, s, from, at) ==> NoneIn(code, s, from, start)
    ensures !h.first.Fixed? && !h.startline ==> start == at
  {
    hide Promises, NoneIn, Hits, Matches;
    ghost var promised := Promises(h, code, s, from) && NoneIn(code, s, from, at);
    start := at;
    if h.first.Fixed? {
      while start < |s| && !Matches(h.first, s[start])
        invariant at <= start <= |s| && (promised ==> NoneIn(code, s, from, start))
      {
        if promised {
          NoFirst(h, code, s, from, start);
          NoneNext(code, s, from, start);
        }
        start := start + 1;
      }
    } else if h.startline {
      if start > from {
        while start < |s| && s[start - 1] != NEWLINE
          invariant at <= start <= |s| && (promised ==> NoneIn(code, s, from, start))
        {
          if promised {
            NoLine(h, code, s, from, start);
            NoneNext(code, s, from, start);
          }
          start := start + 1;
        }
      }
    }
  }

  /** Looks for the required character from p on. */
  method FindReq(req: Known, s: Subject, p: nat) returns (q: nat)
    requires req.Fixed?
    ensures q >= p && (q < |s| ==> Matches(req, s[q]))
    ensures forall x :: p <= x < q && x < |s| ==> !Matches(req, s[x])
  {
    q := p;
    while q < |s| && !Matches(req, s[q])
      invariant q >= p && forall x :: p <= x < q && x < |s| ==> !Matches(req, s[x])
    {
      q := q + 1;
    }
  }

  /** The required character is nowhere from p on, so nothing is found any more. */
  lemma NoReq(h: Header, code: seq<byte>, s: Subject, from: nat, start: nat)
    requires Promises(h, code, s, from) && h.req.Fixed? && from <= start <= |s| && NoneIn(code, s, from, start)
    requires forall x :: start + (if h.first.Fixed? then 1 else 0) <= x < |s| ==> !Matches(h.req, s[x])
    ensures NoneIn(code, s, from, |s| + 1)
  {
    hide Hits;
  }

  /** After a failure an anchored pattern is not tried anywhere else. */
  lemma NoOther(h: Header, code: seq<byte>, s: Subject, from: nat)
    requires Promises(h, code, s, from) && h.anchored && from <= |s| && !Hits(code, s, from)
    ensures NoneIn(code, s, from, |s| + 1)
  {
    hide Hits;
  }

  /** The search. Whatever it returns is a match of the code; it is the leftmost one when the
      header keeps its promises. */
  method Search(code: seq<byte>, h: Header, s: Subject, from: nat) returns (r: Found)
    requires from <= |s| && (h.anchored ==> !h.first.Fixed? && !h.startline)
    ensures r.FoundAt? ==> from <= r.start <= |s| && MatchAt(code, s, r.start) == Match(r.end, r.caps)
    ensures r.FoundAt? && h.anchored ==> r.start == from
    ensures Promises(h, code, s, from) ==> r == Leftmost(code, s, from)
  {
    hide Promises, NoneIn, Leftmost;
    ghost var promised := Promises(h, code, s, from);
    var start: nat, reqPtr := from, from - 1;
    NoneYet(code, s, from);
    while true
      invariant from <= start <= |s| && (promised ==> NoneIn(code, s, from, start)) && (h.anchored ==> start == from)
      decreases |s| - start
    {
      start := Advance(h, code, s, from, start);
      if h.req.Fixed? && |s| - start < REQ_BYTE_MAX {
        var p := start + if h.first.Fixed? then 1 else 0;
        if p > reqPtr {
          var q := FindReq(h.req, s, p);
          if q >= |s| {
            if promised {
              NoReq(h, code, s, from, start);
              LeftmostSkips(code, s, from, |s| + 1);
            }
            return Nothing;
          }
          reqPtr := q;
        }
      }
      var m := MatchAt(code, s, start);
      if promised {
        LeftmostSkips(code, s, from, start);
      }
      if m.Match? {
        LeftmostHere(code, s, start);
        return FoundAt(start, m.end, m.caps);
      }
      if promised {
        NoneNext(code, s, from, start);
        if h.anchored {
          NoOther(h, code, s, from);
        }
      }
      start := start + 1;
      if h.anchored || start > |s| {
        if promised {
          LeftmostSkips(code, s, from, |s| + 1);
        }
        return Nothing;
      }
    }
  }

  lemma NoneYet(code: seq<byte>, s: Subject, from: nat)
    ensures NoneIn(code, s, from, from)
  {
  }

  lemma LeftmostHere(code: seq<byte>, s: Subject, pos: nat)
    requires pos <= |s| && MatchAt(code, s, pos).Match?
    ensures var m := MatchAt(code, s, pos); Leftmost(code, s, pos) == FoundAt(pos, m.end, m.caps)
  {
  }

  // ----- the header of a compiled pattern keeps its promises -----

  /** The compiler's judgements about the pattern can be believed: auto-possessification did
      not rely on an atomic group that its test had entered, and no leading .* inside a
      possessively repeated group made it look anchored. */
  predicate Judged(p: Pattern)
  {
    var alts, m := PatternCode(p, 0), PatternSummary(p, false);
    var h := HeaderOf(alts, m.first, m.req);
    && FairProgram(alts)
    && (h.anchored ==> Begins(AtStart, alts, false))
    && (h.startline ==> Begins(AtLine, alts, false))
  }

  /** So they can for every pattern without possessive quantifiers. */
  lemma BacktracksJudged(p: Pattern)
    requires Backtracks(p)
    ensures Judged(p)
  {
    var alts := PatternCode(p, 0);
    PatternFree(p, 0);
    FreeFairBranches(alts, In(Top(alts), Nil, AtEnd));
    TiedBegins(AtStart, alts, false);
    TiedBegins(AtLine, alts, false);
  }

  lemma StoredMatches(k: Known, c: byte)
    requires k.Fixed?
    ensures Stored(k).Fixed? && (Matches(Stored(k), c) <==> Matches(k, c))
  {
  }

  /** Where the line of pos begins, but no earlier than from. */
  function LineOf(s: Subject, from: nat, pos: nat): (base: nat)
    requires from <= pos <= |s|
    ensures from <= base <= pos && LineStart(s, from, base)
    ensures Covered(AtLine, s, base, pos)
    decreases pos
  {
    if pos == from || s[pos - 1] == NEWLINE then pos else LineOf(s, from, pos - 1)
  }

  /** The bytes that compilation leaves for a pattern. */
  ghost predicate CodeOf(code: seq<byte>, p: Pattern)
  {
    ProgramAt(code, AutoProgram(PatternCode(p, 0)))
  }

  lemma HitsTree(code: seq<byte>, p: Pattern, s: Subject, pos: nat)
    requires CodeOf(code, p) && pos <= |s|
    ensures Hits(code, s, pos) <==> FirstMatch(AutoProgram(PatternCode(p, 0)), s, pos).Match?
  {
    CompiledFinds(code, p, s, pos);
  }

  /** The recorded characters, as they are stored. */
  lemma CharsPromised(code: seq<byte>, p: Pattern, s: Subject, pos: nat)
    requires CodeOf(code, p) && pos <= |s| && Hits(code, s, pos)
    ensures var m := PatternSummary(p, false); var h := HeaderOf(PatternCode(p, 0), m.first, m.req);
            FirstOk(h.first, s, pos, |s|) && ReqOk(h.req, h.first, s, pos, |s|)
  {
    hide CodeOf, Hits;
    var m := PatternSummary(p, false);
    HitsTree(code, p, s, pos);
    RecordedSearch(p, s, pos);
    if m.first.Fixed? && pos < |s| {
      StoredMatches(m.first, s[pos]);
    }
    if m.req.Fixed? {
      var x :| pos <= x < |s| && (m.first.Fixed? ==> pos < x) && Matches(m.req, s[x]);
      StoredMatches(m.req, s[x]);
    }
  }

  lemma HeaderPromises(code: seq<byte>, p: Pattern, s: Subject, from: nat)
    requires CodeOf(code, p) && Judged(p) && from <= |s|
    ensures var m := PatternSummary(p, false); Promises(HeaderOf(PatternCode(p, 0), m.first, m.req), code, s, from)
  {
    hide PatternSummary, FirstOk, ReqOk, CodeOf, Hits;
    var m := PatternSummary(p, false);
    var h := HeaderOf(PatternCode(p, 0), m.first, m.req);
    forall pos: nat {:trigger Hits(code, s, pos)} | from <= pos <= |s| && Hits(code, s, pos)
      ensures FirstOk(h.first, s, pos, |s|) && ReqOk(h.req, h.first, s, pos, |s|)
      ensures h.anchored ==> Hits(code, s, from)
      ensures h.startline ==> LineStart(s, from, LineOf(s, from, pos)) && Hits(code, s, LineOf(s, from, pos))
    {
      CharsPromised(code, p, s, pos);
      if h.anchored {
        AllCovered(s, from, pos);
        TiedHits(AtStart, code, p, s, from, pos);
      }
      if h.startline {
        TiedHits(AtLine, code, p, s, LineOf(s, from, pos), pos);
      }
    }
  }

  lemma TiedHits(test: Test, code: seq<byte>, p: Pattern, s: Subject, base: nat, pos: nat)
    requires CodeOf(code, p) && Begins(test, PatternCode(p, 0), false) && Covered(test, s, base, pos) && Hits(code, s, pos)
    ensures Hits(code, s, base)
  {
    hide CodeOf, Hits, Begins;
    HitsTree(code, p, s, pos);
    HitsTree(code, p, s, base);
    TiedSearch(test, p, s, base, pos);
  }

  lemma AllCovered(s: Subject, from: nat, pos: nat)
    requires from <= pos <= |s|
    ensures Covered(AtStart, s, from, pos)
  {
  }

  // ----- compiling and searching -----

  /** What a pattern means to a search: the first position with a way to match, and the most
      preferred way there. */
  function Meant(p: Pattern, s: Subject, from: nat): Found
    requires from <= |s|
    decreases |s| - from
  {
    var r := PatternFirst(p, s, from);
    if r.Match? then FoundAt(from, r.end, r.caps)
    else if from == |s| then Nothing
    else Meant(p, s, from + 1)
  }

  lemma {:induction false} LeftmostIsMeant(code: seq<byte>, p: Pattern, s: Subject, from: nat)
    requires CodeOf(code, p) && FairProgram(PatternCode(p, 0)) && from <= |s|
    ensures Leftmost(code, s, from) == Meant(p, s, from)
    decreases |s| - from
  {
    hide CodeOf, FairProgram, MatchAt, FirstMatch, PatternFirst;
    FindsMeant(code, p, s, from);
    if from < |s| {
      LeftmostIsMeant(code, p, s, from + 1);
    }
  }

  /** At one position: the bytes find the most preferred way of the pattern. */
  lemma FindsMeant(code: seq<byte>, p: Pattern, s: Subject, pos: nat)
    requires CodeOf(code, p) && FairProgram(PatternCode(p, 0)) && pos <= |s|
    ensures MatchAt(code, s, pos) == PatternFirst(p, s, pos)
  {
    hide FairProgram, MatchAt, FirstMatch, PatternFirst;
    CompiledFinds(code, p, s, pos);
    AutoPossessionIsInvisible(PatternCode(p, 0), s, pos);
    CodePrefers(p, s, pos);
  }

  /** Compiling a pattern and searching a subject for it with the bytes that result. What is
      found is a match of the pattern; and the result is what the pattern means, by its own
      definition, whenever the compiler's judgements can be believed. */
  method CompileAndSearch(p: Pattern, s: Subject, from: nat) returns (error: nat, r: Found)
    requires from <= |s|
    ensures error == 0 <==> ProgramLength(p) <= MAX_PATTERN_SIZE && Depth(p) <= PARENS_NEST_LIMIT
    ensures error != 0 ==> r == Nothing
    ensures r.FoundAt? ==> from <= r.start && PatternSpan(p, s, r.start, r.end)
    ensures error == 0 && Judged(p) ==> r == Meant(p, s, from)
    ensures error == 0 && Backtracks(p) ==> r == Meant(p, s, from)
  {
    hide Judged, HeaderOf, PatternSummary, FirstMatch, MatchAt;
    var code, header, top;
    error, code, header, top := CompileAll(p);
    r := Nothing;
    if error == 0 {
      HeaderFields(PatternCode(p, 0), PatternSummary(p, false).first, PatternSummary(p, false).req);
      r := Search(code[..], header, s, from);
      if r.FoundAt? {
        CompiledFinds(code[..], p, s, r.start);
        OptimisedMatch(p, s, r.start);
      }
      if Backtracks(p) {
        BacktracksJudged(p);
      }
      if Judged(p) {
        JudgedFair(p);
        HeaderPromises(code[..], p, s, from);
        LeftmostIsMeant(code[..], p, s, from);
      }
    }
  }

  lemma HeaderFields(alts: Alts, first: Known, req: Known)
    ensures var h := HeaderOf(alts, first, req); h.anchored ==> !h.first.Fixed? && !h.startline
  {
  }

  lemma JudgedFair(p: Pattern)
    requires Judged(p)
    ensures FairProgram(PatternCode(p, 0))
  {
  }
}
