/** The matcher on the bytes of a program, opcode by opcode, with its order of preference and
    its captures: the subject position and a stack of the starts of the groups entered. It
    does what the matcher on trees does. */
module Matcher {
  import opened Opcodes
  import opened Bytecode
  import opened Matching
  import opened Machine
  import opened Ordered

  /** The groups that have been entered, the innermost first. Stop stands for the end of what
      is matched on its own: the program, or a group that keeps its first way. */
  datatype Frames = Stop | Frame(start: nat, up: Frames)

  /** How many of them have consumed something. */
  function Moved(f: Frames, pos: nat): nat
  {
    match f
    case Stop => 0
    case Frame(start, up) => (if start < pos then 1 else 0) + Moved(up, pos)
  }

  /** Brackets of groups that keep their first way. */
  predicate KeepsOp(op: byte)
  {
    op == OP_ONCE || op == OP_BRAPOS || op == OP_CBRAPOS || op == OP_SBRAPOS || op == OP_SCBRAPOS
  }

  /** From the opcode at pc. */
  function Run(code: seq<byte>, pc: nat, s: Subject, pos: nat, caps: Captures, f: Frames): (r: Outcome)
    requires pos <= |s|
    ensures r.Match? ==> pos <= r.end <= |s|
    decreases |s| - pos, Moved(f, pos), |code| - pc, 5
  {
    if pc >= |code| then NoMatch else
    match Decode(code, pc)
    case CharItem(sel, rep, size) =>
      var n := Longest(sel, s, pos, RepMax(rep));
      if n < RepMin(rep) || size == 0 then NoMatch
      else if RepMode(rep) == Possessive then Run(code, pc + size, s, pos + n, caps, f)
      else RunCounts(code, pc + size, s, pos, RepMin(rep), n, RepMode(rep) == Greedy, caps, f)
    case Other =>
      var op := code[pc];
      if op == OP_END then Match(pos, caps)
      else if op == OP_CIRC || op == OP_SOD then (if pos == 0 then Run(code, pc + 1, s, pos, caps, f) else NoMatch)
      else if op == OP_EOD then (if Holds(Eod, s, pos) then Run(code, pc + 1, s, pos, caps, f) else NoMatch)
      else if op == OP_DOLL then (if Holds(Doll, s, pos) then Run(code, pc + 1, s, pos, caps, f) else NoMatch)
      else if op == OP_ALT then
        var q := SkipAlts(code, pc);
        if q > pc then Run(code, q, s, pos, caps, f) else NoMatch
      else if IsKet(op) then RunKet(code, pc, s, pos, caps, f)
      else if IsBracket(op) then RunBracket(code, pc, s, pos, caps, f)
      else if IsZero(op) then RunZero(code, pc, s, pos, caps, f)
      else NoMatch
  }

  /** A repeat that may take from lo to hi characters, most first or fewest first; pc is
      behind it. */
  function RunCounts(code: seq<byte>, pc: nat, s: Subject, pos: nat, lo: nat, hi: nat, greedy: bool, caps: Captures, f: Frames): (r: Outcome)
    requires lo <= hi && pos + hi <= |s|
    ensures r.Match? ==> pos <= r.end <= |s|
    decreases |s| - pos, Moved(f, pos), |code| - pc, 6 + hi - lo
  {
    if lo == hi then Run(code, pc, s, pos + lo, caps, f)
    else if greedy then First(Run(code, pc, s, pos + hi, caps, f), RunCounts(code, pc, s, pos, lo, hi - 1, greedy, caps, f))
    else First(Run(code, pc, s, pos + lo, caps, f), RunCounts(code, pc, s, pos, lo + 1, hi, greedy, caps, f))
  }

  /** The branches whose first header, h bytes long, is at p. */
  function RunBranches(code: seq<byte>, p: nat, h: nat, s: Subject, pos: nat, caps: Captures, f: Frames): (r: Outcome)
    requires pos <= |s| && h > 0 && p + 3 <= |code|
    ensures r.Match? ==> pos <= r.end <= |s|
    decreases |s| - pos, Moved(f, pos), |code| - p, 2
  {
    var first, q := Run(code, p + h, s, pos, caps, f), p + Get(code, p + 1);
    if p < q && q + 3 <= |code| && code[q] == OP_ALT then First(first, RunBranches(code, q, 3, s, pos, caps, f)) else first
  }

  /** The bracket at p. */
  function RunBracket(code: seq<byte>, p: nat, s: Subject, pos: nat, caps: Captures, f: Frames): (r: Outcome)
    requires pos <= |s| && p < |code|
    ensures r.Match? ==> pos <= r.end <= |s|
    decreases |s| - pos, Moved(f, pos), |code| - p, 3
  {
    var h, q := BracketLength(code[p]), SkipAlts(code, p);
    if q <= p || q + 3 > |code| then NoMatch
    else if !KeepsOp(code[p]) then RunBranches(code, p, h, s, pos, caps, Frame(pos, f))
    else
      var way := RunBranches(code, p, h, s, pos, caps, Stop);
      if way.NoMatch? then NoMatch else RunKet(code, q, s, way.end, way.caps, Frame(pos, f))
  }

  /** The closing bracket at q. */
  function RunKet(code: seq<byte>, q: nat, s: Subject, pos: nat, caps: Captures, f: Frames): (r: Outcome)
    requires pos <= |s| && q < |code|
    ensures r.Match? ==> pos <= r.end <= |s|
    decreases |s| - pos, Moved(f, pos), |code| - q, 1
  {
    if f == Stop then Match(pos, caps)
    else if q + 3 > |code| || Get(code, q + 1) > q then NoMatch
    else
      var p := q - Get(code, q + 1);
      var caps' := if BracketLength(code[p]) == 5 && p + 5 <= |code| then caps[Get(code, p + 3) as nat := (f.start, pos)] else caps;
      var out := Run(code, q + 3, s, pos, caps', f.up);
      if code[q] == OP_KET || pos <= f.start || p + 3 > |code| then out
      else
        var again := RunBracket(code, p, s, pos, caps', f.up);
        if code[q] == OP_KETRMIN then First(out, again)
        else if code[q] == OP_KETRPOS && RunBranches(code, p, BracketLength(code[p]), s, pos, caps', Stop).Match? then again
        else First(again, out)
  }

  /** A group that may be left out; its bracket is behind pc. */
  function RunZero(code: seq<byte>, pc: nat, s: Subject, pos: nat, caps: Captures, f: Frames): (r: Outcome)
    requires pos <= |s| && pc < |code|
    ensures r.Match? ==> pos <= r.end <= |s|
    decreases |s| - pos, Moved(f, pos), |code| - pc, 4
  {
    var q := SkipAlts(code, pc + 1);
    if q <= pc + 1 || pc + 4 > |code| then NoMatch
    else
      var never := Run(code, q + 3, s, pos, caps, f);
      if code[pc] == OP_SKIPZERO then never
      else
        var once := RunBracket(code, pc + 1, s, pos, caps, f);
        if code[pc] == OP_BRAMINZERO then First(never, once)
        else if code[pc] == OP_BRAPOSZERO && KeepsOp(code[pc + 1])
                && RunBranches(code, pc + 1, BracketLength(code[pc + 1]), s, pos, caps, Stop).Match? then once
        else First(once, never)
  }

  // ----- one opcode -----

  lemma RunChars(code: seq<byte>, pc: nat, sel: Sel, rep: Rep, size: nat, s: Subject, pos: nat, caps: Captures, f: Frames)
    requires pos <= |s| && pc < |code| && Decode(code, pc) == CharItem(sel, rep, size) && size > 0
    ensures Run(code, pc, s, pos, caps, f) ==
            var n := Longest(sel, s, pos, RepMax(rep));
            if n < RepMin(rep) then NoMatch
            else if RepMode(rep) == Possessive then Run(code, pc + size, s, pos + n, caps, f)
            else RunCounts(code, pc + size, s, pos, RepMin(rep), n, RepMode(rep) == Greedy, caps, f)
  {
  }

  lemma RunAnchor(code: seq<byte>, pc: nat, a: Anchor, s: Subject, pos: nat, caps: Captures, f: Frames)
    requires pos <= |s| && pc < |code| && code[pc] == AnchorOp(a)
    ensures Run(code, pc, s, pos, caps, f) == if Holds(a, s, pos) then Run(code, pc + 1, s, pos, caps, f) else NoMatch
  {
  }

  lemma RunCountsStep(code: seq<byte>, pc: nat, s: Subject, pos: nat, lo: nat, hi: nat, greedy: bool, caps: Captures, f: Frames)
    requires lo <= hi && pos + hi <= |s|
    ensures RunCounts(code, pc, s, pos, lo, hi, greedy, caps, f) ==
            if lo == hi then Run(code, pc, s, pos + lo, caps, f)
            else if greedy then First(Run(code, pc, s, pos + hi, caps, f), RunCounts(code, pc, s, pos, lo, hi - 1, greedy, caps, f))
            else First(Run(code, pc, s, pos + lo, caps, f), RunCounts(code, pc, s, pos, lo + 1, hi, greedy, caps, f))
  {
  }

  lemma RunAlt(code: seq<byte>, pc: nat, q: nat, s: Subject, pos: nat, caps: Captures, f: Frames)
    requires pos <= |s| && pc < |code| && code[pc] == OP_ALT && SkipAlts(code, pc) == q && q > pc && CloseAt(code, q)
    ensures Run(code, pc, s, pos, caps, f) == RunKet(code, q, s, pos, caps, f)
  {
    RunClose(code, q, s, pos, caps, f);
  }

  lemma RunClose(code: seq<byte>, q: nat, s: Subject, pos: nat, caps: Captures, f: Frames)
    requires pos <= |s| && CloseAt(code, q)
    ensures Run(code, q, s, pos, caps, f) == RunKet(code, q, s, pos, caps, f)
  {
  }

  lemma RunOpen(code: seq<byte>, p: nat, s: Subject, pos: nat, caps: Captures, f: Frames)
    requires pos <= |s| && p < |code| && (IsBracket(code[p]) || IsZero(code[p]))
    ensures Run(code, p, s, pos, caps, f) ==
            if IsBracket(code[p]) then RunBracket(code, p, s, pos, caps, f) else RunZero(code, p, s, pos, caps, f)
  {
  }

  lemma RunEnd(code: seq<byte>, pc: nat, s: Subject, pos: nat, caps: Captures, f: Frames)
    requires pos <= |s| && pc < |code| && code[pc] == OP_END
    ensures Run(code, pc, s, pos, caps, f) == Match(pos, caps)
  {
  }

  // ----- code whose brackets belong together -----

  /** A group repeated possessively has both of the brackets for that, or neither. */
  predicate Pairs(it: Item)
  {
    it.Group? && it.bra.Paren? ==> (it.bra.pos <==> it.ket == KetRPos)
  }

  predicate Paired(c: Code)
    decreases c
  {
    c.Cons? ==> Pairs(c.item) && Paired(c.next) && (c.item.Group? ==> PairedBranches(c.item.body))
  }

  predicate PairedBranches(alts: Alts)
    decreases alts
  {
    Paired(alts.code) && (alts.More? ==> PairedBranches(alts.rest))
  }

  // ----- the bytes and the tree -----

  /** The bracket of the group it is at p. */
  ghost predicate Opened(code: seq<byte>, p: nat, it: Item)
  {
    && BracketAt(code, p, it) && code[p] == BraOp(it.bra) && (it.bra.Paren? && it.bra.cap ==> Get(code, p + 3) == it.num)
    && Pairs(it) && PairedBranches(it.body)
  }

  /** Where control goes from the end e of a branch. */
  function Closing(code: seq<byte>, e: nat): int
  {
    if e < |code| && code[e] == OP_ALT then SkipAlts(code, e) else e
  }

  /** Behind the closing bracket at q the bytes go on as k does. */
  ghost predicate GoesOn(code: seq<byte>, q: nat, k: Cont, f: Frames)
    decreases k, 0
  {
    && CloseAt(code, q)
    && match k
       case Done => f == Stop
       case Ret(it, next, start, up) =>
         && f.Frame? && f.start == start
         && Get(code, q + 1) <= q && Opened(code, q - Get(code, q + 1), it)
         && q == q - Get(code, q + 1) + BraSize(it.bra) + AltsSize(it.body) && code[q] == KetOp(it.ket)
         && At(code, q + 3, next) && Paired(next) && EndsSo(code, q + 3 + Size(next), up, f.up)
  }

  /** The same from the end e of a branch. */
  ghost predicate EndsSo(code: seq<byte>, e: nat, k: Cont, f: Frames)
    decreases k, 1
  {
    if e < |code| && code[e] == OP_END then k == Done && f == Stop
    else Closing(code, e) >= e && GoesOn(code, Closing(code, e), k, f)
  }

  lemma EndsItem(code: seq<byte>, e: nat, k: Cont, f: Frames)
    requires EndsSo(code, e, k, f)
    ensures ItemEnd(code, e)
  {
  }

  lemma {:induction false} CodeIs(code: seq<byte>, pc: nat, c: Code, s: Subject, pos: nat, caps: Captures, k: Cont, f: Frames)
    requires At(code, pc, c) && Paired(c) && EndsSo(code, pc + Size(c), k, f) && pos <= |s|
    ensures Run(code, pc, s, pos, caps, f) == Try(c, s, pos, caps, k)
    decreases |s| - pos, Size(c) + Weight(k, pos), 2
  {
    hide Run, RunCounts, RunKet, Counts, Exit, ItemAt, EndsSo;
    HeadSize(c);
    if c == Nil {
      EndIs(code, pc, s, pos, caps, k, f);
    } else {
      EndsItem(code, pc + Size(c), k, f);
      CodeStart(code, pc + ItemSize(c.item), c.next);
      if c.item.Group? {
        GroupIs(code, pc, c.item, c.next, s, pos, caps, k, f);
      } else {
        ItemIs(code, pc, c.item, c.next, s, pos, caps, k, f);
      }
    }
  }

  lemma {:induction false} ItemIs(code: seq<byte>, pc: nat, it: Item, next: Code, s: Subject, pos: nat, caps: Captures, k: Cont, f: Frames)
    requires !it.Group? && ItemAt(code, pc, it) && ItemEnd(code, pc + ItemSize(it)) && At(code, pc + ItemSize(it), next) && Paired(next)
    requires EndsSo(code, pc + ItemSize(it) + Size(next), k, f) && pos <= |s|
    ensures Run(code, pc, s, pos, caps, f) == Try(Cons(it, next), s, pos, caps, k)
    decreases |s| - pos, Size(next) + Weight(k, pos), 5 + |s|
  {
    hide Run, Try, EndsSo, At, Decode, OneAt, ManyAt;
    match it
    case One(sel) =>
      DecodeOne(code, pc, sel);
      OneIs(code, pc, sel, next, s, pos, caps, k, f);
    case Many(sel, rep) =>
      DecodeMany(code, pc, sel, rep);
      ManyIs(code, pc, sel, rep, next, s, pos, caps, k, f);
    case Assert(a) =>
      RunAnchor(code, pc, a, s, pos, caps, f);
      TryAssert(a, next, s, pos, caps, k);
      CodeIs(code, pc + 1, next, s, pos, caps, k, f);
  }

  lemma {:induction false} OneIs(code: seq<byte>, pc: nat, sel: Sel, next: Code, s: Subject, pos: nat, caps: Captures, k: Cont, f: Frames)
    requires pc < |code| && Decode(code, pc) == CharItem(sel, Exact(1), OneSize(sel)) && At(code, pc + OneSize(sel), next) && Paired(next)
    requires EndsSo(code, pc + OneSize(sel) + Size(next), k, f) && pos <= |s|
    ensures Run(code, pc, s, pos, caps, f) == Try(Cons(One(sel), next), s, pos, caps, k)
    decreases |s| - pos, Size(next) + Weight(k, pos), 4 + |s|
  {
    hide Run, RunCounts, Try, EndsSo, At, Decode;
    RunChars(code, pc, sel, Exact(1), OneSize(sel), s, pos, caps, f);
    TryOne(sel, next, s, pos, caps, k);
    if pos < |s| && Accepts(sel, s[pos]) {
      RunCountsStep(code, pc + OneSize(sel), s, pos, 1, 1, RepMode(Exact(1)) == Greedy, caps, f);
      CodeIs(code, pc + OneSize(sel), next, s, pos + 1, caps, k, f);
    }
  }

  lemma {:induction false} ManyIs(code: seq<byte>, pc: nat, sel: Sel, rep: Rep, next: Code, s: Subject, pos: nat, caps: Captures, k: Cont, f: Frames)
    requires pc < |code| && Decode(code, pc) == CharItem(sel, rep, ManySize(sel, rep)) && At(code, pc + ManySize(sel, rep), next) && Paired(next)
    requires EndsSo(code, pc + ManySize(sel, rep) + Size(next), k, f) && pos <= |s|
    ensures Run(code, pc, s, pos, caps, f) == Try(Cons(Many(sel, rep), next), s, pos, caps, k)
    decreases |s| - pos, Size(next) + Weight(k, pos), 4 + |s|
  {
    hide Run, RunCounts, Counts, Try, EndsSo, At, Decode;
    var e, n := pc + ManySize(sel, rep), Longest(sel, s, pos, RepMax(rep));
    RunChars(code, pc, sel, rep, ManySize(sel, rep), s, pos, caps, f);
    TryMany(sel, rep, next, s, pos, caps, k);
    if n >= RepMin(rep) {
      CodeIs(code, e, next, s, pos + n, caps, k, f);
      CountsAre(code, e, next, s, pos, RepMin(rep), n, RepMode(rep) == Greedy, caps, k, f);
    }
  }

  lemma {:induction false} CountsAre(code: seq<byte>, pc: nat, next: Code, s: Subject, pos: nat, lo: nat, hi: nat, greedy: bool,
                                     caps: Captures, k: Cont, f: Frames)
    requires At(code, pc, next) && Paired(next) && EndsSo(code, pc + Size(next), k, f) && lo <= hi && pos + hi <= |s|
    ensures RunCounts(code, pc, s, pos, lo, hi, greedy, caps, f) == Counts(next, s, pos, lo, hi, greedy, caps, k)
    decreases |s| - pos, Size(next) + Weight(k, pos), 3 + hi - lo
  {
    hide Run, RunCounts, Try, Counts, EndsSo;
    CountsStep(next, s, pos, lo, hi, greedy, caps, k);
    RunCountsStep(code, pc, s, pos, lo, hi, greedy, caps, f);
    CodeIs(code, pc, next, s, pos + if greedy then hi else lo, caps, k, f);
    if lo < hi {
      if greedy {
        CountsAre(code, pc, next, s, pos, lo, hi - 1, greedy, caps, k, f);
      } else {
        CountsAre(code, pc, next, s, pos, lo + 1, hi, greedy, caps, k, f);
      }
    }
  }

  /** The end of a branch. */
  lemma {:induction false} EndIs(code: seq<byte>, e: nat, s: Subject, pos: nat, caps: Captures, k: Cont, f: Frames)
    requires EndsSo(code, e, k, f) && pos <= |s|
    ensures Run(code, e, s, pos, caps, f) == Exit(s, pos, caps, k)
    decreases |s| - pos, Weight(k, pos), 1
  {
    hide Run, RunKet, GoesOn;
    if e < |code| && code[e] == OP_END {
      RunEnd(code, e, s, pos, caps, f);
    } else {
      var q := Closing(code, e);
      KetIs(code, q, s, pos, caps, k, f);
      GoesClose(code, q, k, f);
      if q == e {
        RunClose(code, q, s, pos, caps, f);
      } else {
        RunAlt(code, e, q, s, pos, caps, f);
      }
    }
  }

  lemma GoesClose(code: seq<byte>, q: nat, k: Cont, f: Frames)
    requires GoesOn(code, q, k, f)
    ensures CloseAt(code, q)
  {
  }

  // ----- groups -----

  /** The bracket of an encoded group, its closing bracket at q and what is behind it. */
  lemma OpenedAt(code: seq<byte>, pc: nat, it: Item, next: Code)
    requires it.Group? && ItemAt(code, pc, it) && Pairs(it) && PairedBranches(it.body)
    ensures var p, q := pc + ZeroSize(it.zero), pc + ItemSize(it) - 3;
            && Opened(code, p, it) && q == p + BraSize(it.bra) + AltsSize(it.body) && CloseAt(code, q)
            && Get(code, q + 1) == q - p && code[q] == KetOp(it.ket) && SkipAlts(code, p) == q
    ensures it.zero != NoZero ==> code[pc] == ZeroOp(it.zero)
  {
    hide AltsAt, At;
    BracketOf(code, pc, it);
    GroupElim(code, pc, it);
    AltsSkip(code, pc + ZeroSize(it.zero), BraSize(it.bra), it.body);
  }

  lemma OpenedKeeps(code: seq<byte>, p: nat, it: Item)
    requires Opened(code, p, it)
    ensures p + BraSize(it.bra) <= |code| && IsBracket(code[p]) && BracketLength(code[p]) == BraSize(it.bra)
    ensures KeepsOp(code[p]) <==> Keeps(it)
  {
    hide AltsAt, KetAt;
  }

  lemma {:induction false} GroupIs(code: seq<byte>, pc: nat, it: Item, next: Code, s: Subject, pos: nat, caps: Captures, k: Cont, f: Frames)
    requires it.Group? && ItemAt(code, pc, it) && At(code, pc + ItemSize(it), next) && Pairs(it) && PairedBranches(it.body) && Paired(next)
    requires EndsSo(code, pc + ItemSize(it) + Size(next), k, f) && pos <= |s|
    ensures Run(code, pc, s, pos, caps, f) == Try(Cons(it, next), s, pos, caps, k)
    decreases |s| - pos, AltsSize(it.body) + 2 + Size(next) + Weight(k, pos), 5
  {
    hide Run, RunBracket, RunBranches, Try, Pass, Branches, EndsSo, ItemAt, Opened, SkipAlts;
    var p, q := pc + ZeroSize(it.zero), pc + ItemSize(it) - 3;
    OpenedAt(code, pc, it, next);
    OpenedKeeps(code, p, it);
    TryGroup(it, next, s, pos, caps, k);
    PassIs(code, p, it, next, s, pos, caps, k, f);
    if it.zero == NoZero {
      RunOpen(code, pc, s, pos, caps, f);
    } else {
      RunOpen(code, pc, s, pos, caps, f);
      CodeIs(code, pc + ItemSize(it), next, s, pos, caps, k, f);
      if Keeps(it) {
        OpenedBranches(code, p, it);
        BranchesAre(code, p, BraSize(it.bra), it.body, s, pos, caps, Done, Stop);
      }
    }
  }

  lemma OpenedBranches(code: seq<byte>, p: nat, it: Item)
    requires Opened(code, p, it)
    ensures AltsAt(code, p, BraSize(it.bra), it.body) && PairedBranches(it.body)
    ensures CloseAt(code, p + BraSize(it.bra) + AltsSize(it.body))
    ensures GoesOn(code, p + BraSize(it.bra) + AltsSize(it.body), Done, Stop)
  {
    hide AltsAt;
  }

  /** Every branch ends at the closing bracket at the end of the group. */
  lemma {:induction false} BranchesAre(code: seq<byte>, p: nat, h: nat, alts: Alts, s: Subject, pos: nat, caps: Captures, k: Cont, f: Frames)
    requires h >= 3 && AltsAt(code, p, h, alts) && PairedBranches(alts) && GoesOn(code, p + h + AltsSize(alts), k, f) && pos <= |s|
    ensures p + 3 <= |code| && RunBranches(code, p, h, s, pos, caps, f) == Branches(alts, s, pos, caps, k)
    decreases |s| - pos, AltsSize(alts) + Weight(k, pos), 3
  {
    hide Run, RunBranches, Try, GoesOn, EndsSo, AltsAt, At, Get;
    BranchEnds(code, p, h, alts, k, f);
    RunFirst(code, p, h, s, pos, caps, f);
    CodeIs(code, p + h, alts.code, s, pos, caps, k, f);
    if alts.More? {
      BranchesAre(code, p + h + Size(alts.code), 3, alts.rest, s, pos, caps, k, f);
    }
  }

  /** The first branch, its end and the header of the next one. */
  lemma BranchEnds(code: seq<byte>, p: nat, h: nat, alts: Alts, k: Cont, f: Frames)
    requires h >= 3 && AltsAt(code, p, h, alts) && GoesOn(code, p + h + AltsSize(alts), k, f)
    ensures var e := p + h + Size(alts.code);
            && p + 3 <= |code| && Get(code, p + 1) == e - p && At(code, p + h, alts.code) && EndsSo(code, e, k, f) && e + 3 <= |code|
            && (if alts.More? then code[e] == OP_ALT && AltsAt(code, e, 3, alts.rest) else code[e] != OP_ALT)
  {
    hide GoesOn, At, Get, Linked, SkipAlts;
    var q, e := p + h + AltsSize(alts), p + h + Size(alts.code);
    GoesClose(code, q, k, f);
    if alts.More? {
      AltsSkip(code, e, 3, alts.rest);
    }
  }

  lemma RunFirst(code: seq<byte>, p: nat, h: nat, s: Subject, pos: nat, caps: Captures, f: Frames)
    requires pos <= |s| && h > 0 && p + 3 <= |code|
    ensures RunBranches(code, p, h, s, pos, caps, f) ==
            var first, q := Run(code, p + h, s, pos, caps, f), p + Get(code, p + 1);
            if p < q && q + 3 <= |code| && code[q] == OP_ALT then First(first, RunBranches(code, q, 3, s, pos, caps, f)) else first
  {
  }

  /** A pass through the group at p. */
  lemma {:induction false} PassIs(code: seq<byte>, p: nat, it: Item, next: Code, s: Subject, pos: nat, caps: Captures, k: Cont, f: Frames)
    requires Opened(code, p, it) && pos <= |s|
    requires var q := p + BraSize(it.bra) + AltsSize(it.body);
             At(code, q + 3, next) && Paired(next) && EndsSo(code, q + 3 + Size(next), k, f)
    ensures p < |code| && RunBracket(code, p, s, pos, caps, f) == Pass(it, next, s, pos, caps, k)
    decreases |s| - pos, AltsSize(it.body) + 1 + Size(next) + Weight(k, pos), 4
  {
    hide Run, RunBranches, RunKet, Try, Branches, Exit, EndsSo, At, AltsAt, SkipAlts;
    var h, q := BraSize(it.bra), p + BraSize(it.bra) + AltsSize(it.body);
    var back := Ret(it, next, pos, k);
    OpenedKeeps(code, p, it);
    OpenedBranches(code, p, it);
    AltsSkip(code, p, h, it.body);
    assert GoesOn(code, q, back, Frame(pos, f));
    if Keeps(it) {
      BranchesAre(code, p, h, it.body, s, pos, caps, Done, Stop);
      var way := Branches(it.body, s, pos, caps, Done);
      if way.Match? {
        KetIs(code, q, s, way.end, way.caps, back, Frame(pos, f));
      }
    } else {
      BranchesAre(code, p, h, it.body, s, pos, caps, back, Frame(pos, f));
    }
  }

  /** The closing bracket. */
  lemma {:induction false} KetIs(code: seq<byte>, q: nat, s: Subject, pos: nat, caps: Captures, k: Cont, f: Frames)
    requires GoesOn(code, q, k, f) && pos <= |s|
    ensures q < |code| && RunKet(code, q, s, pos, caps, f) == Exit(s, pos, caps, k)
    decreases |s| - pos, Weight(k, pos), 0
  {
    hide Run, RunBranches, RunBracket, Try, Pass, Branches, At, AltsAt, EndsSo;
    if k.Ret? {
      var it, p := k.it, q - Get(code, q + 1);
      var caps' := Close(it, k.start, pos, caps);
      OpenedKeeps(code, p, it);
      CodeIs(code, q + 3, k.next, s, pos, caps', k.k, f.up);
      if Loops(it) && pos > k.start {
        PassIs(code, p, it, k.next, s, pos, caps', k.k, f.up);
        if Keeps(it) {
          OpenedBranches(code, p, it);
          BranchesAre(code, p, BraSize(it.bra), it.body, s, pos, caps', Done, Stop);
        }
      }
    }
  }

  // ----- whole programs -----

  /** What the bytes of a program find first at a position. */
  function MatchAt(code: seq<byte>, s: Subject, pos: nat): Outcome
    requires pos <= |s|
  {
    Run(code, 0, s, pos, map[], Stop)
  }

  lemma EndsTop(code: seq<byte>, alts: Alts)
    requires ProgramAt(code, alts)
    ensures Size(Cons(Top(alts), Nil)) == ItemSize(Top(alts)) && EndsSo(code, ItemSize(Top(alts)), Done, Stop)
  {
    hide ItemAt;
  }

  /** What the bytes find is what their tree finds first. */
  lemma BytesFind(code: seq<byte>, alts: Alts, s: Subject, pos: nat)
    requires ProgramAt(code, alts) && PairedBranches(alts) && pos <= |s|
    ensures MatchAt(code, s, pos) == FirstMatch(alts, s, pos)
  {
    hide Run, Try, At, AltsAt, GroupAt, EndsSo;
    var c := Cons(Top(alts), Nil);
    SingleAt(code, 0, Top(alts));
    EndsTop(code, alts);
    CodeIs(code, 0, c, s, pos, map[], Done, Stop);
  }
}
