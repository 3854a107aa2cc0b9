/** A nondeterministic machine that runs compiled bytes, and the proof that from
    the start of any encoded branch it reaches exactly the positions the tree's
    relation allows. */
module Machine {
  import opened Opcodes
  import opened Bytecode
  import opened Matching

  /** What the bytes at an opcode say: a single-character item with its repeat and
      its length, or anything else. */
  datatype Decoded = CharItem(sel: Sel, rep: Rep, size: nat) | Other

  predicate IsClassRepeat(op: byte) { OP_CRSTAR <= op <= OP_CRPOSRANGE }

  function RepeatMode(lazyOffset: int): Mode
  {
    if lazyOffset == 1 then Lazy else Greedy
  }

  function CharRepeat(off: nat, n: u16): Rep
  {
    if off <= 1 then Star(RepeatMode(off))
    else if off <= 3 then Plus(RepeatMode(off - 2))
    else if off <= 5 then Query(RepeatMode(off - 4))
    else if off <= MINUPTO_OFFSET then Upto(RepeatMode(off - UPTO_OFFSET), n)
    else if off == EXACT_OFFSET then (if n == 0 then Upto(Greedy, 0) else Exact(n))
    else if off == 9 then Star(Possessive)
    else if off == 10 then Plus(Possessive)
    else if off == 11 then Query(Possessive)
    else Upto(Possessive, n)
  }

  function ClassRepeat(off: nat, lo: u16, hi: u16): Rep
  {
    if off <= 1 then Star(RepeatMode(off))
    else if off <= 3 then Plus(RepeatMode(off - 2))
    else if off <= 5 then Query(RepeatMode(off - 4))
    else if off <= 7 then Range(RepeatMode(off - 6), lo, hi)
    else if off == 8 then Star(Possessive)
    else if off == 9 then Plus(Possessive)
    else if off == 10 then Query(Possessive)
    else Range(Possessive, lo, hi)
  }

  function Decode(code: seq<byte>, pc: nat): Decoded
    requires pc < |code|
  {
    var op := code[pc];
    if OP_NOT_DIGIT <= op <= OP_ALLANY then CharItem(Type(op), Exact(1), 1)
    else if OP_CHAR <= op <= OP_NOTI then
      if pc + 2 <= |code| then
        CharItem(Lit(code[pc + 1], op == OP_CHARI || op == OP_NOTI, op >= OP_NOT), Exact(1), 2)
      else Other
    else if OP_STAR <= op <= OP_TYPEPOSUPTO then DecodeCharRepeat(code, pc)
    else if op == OP_CLASS || op == OP_NCLASS then DecodeClass(code, pc)
    else Other
  }

  function DecodeCharRepeat(code: seq<byte>, pc: nat): Decoded
    requires pc < |code| && OP_STAR <= code[pc] <= OP_TYPEPOSUPTO
  {
    var base := RepeatBase(code[pc]);
    var n := OpLength(code[pc]);
    if pc + n > |code| then Other else
    var arg := code[pc + n - 1];
    var rep := CharRepeat(code[pc] - base, if n == 4 then Get(code, pc + 1) else 0);
    if base != OP_TYPESTAR then
      CharItem(Lit(arg, base == OP_STARI || base == OP_NOTSTARI, base >= OP_NOTSTAR), rep, n)
    else if OP_NOT_DIGIT <= arg <= OP_ALLANY then CharItem(Type(arg), rep, n)
    else Other
  }

  function DecodeClass(code: seq<byte>, pc: nat): Decoded
    requires pc < |code|
  {
    if pc + 33 > |code| then Other else
    var sel := Set(code[pc] == OP_NCLASS, code[pc + 1..pc + 33]);
    if pc + 33 == |code| || !IsClassRepeat(code[pc + 33]) then CharItem(sel, Exact(1), 33) else
    var n := OpLength(code[pc + 33]);
    if pc + 33 + n > |code| then Other else
    var lo, hi := if n == 5 then Get(code, pc + 34) else 0, if n == 5 then Get(code, pc + 36) else 0;
    CharItem(sel, ClassRepeat(code[pc + 33] - OP_CRSTAR, lo, hi), 33 + n)
  }

  /** Following the links from a bracket or ALT at p: the closing bracket, or -1 if
      the links lead nowhere. */
  function SkipAlts(code: seq<byte>, p: nat): int
    decreases |code| - p
  {
    if p + 3 > |code| then -1 else
    var q := p + Get(code, p + 1);
    if q == p || q + 3 > |code| then -1
    else if code[q] == OP_ALT then SkipAlts(code, q)
    else q
  }

  /** q is the start of one of the branches of the group whose header, h bytes long,
      is at p. */
  ghost predicate BranchStart(code: seq<byte>, p: nat, h: nat, q: nat)
    decreases |code| - p
  {
    || q == p + h
    || (p + 3 <= |code|
        && var next := p + Get(code, p + 1);
        p < next && next + 3 <= |code| && code[next] == OP_ALT && BranchStart(code, next, 3, q))
  }

  predicate IsBracket(op: byte)
  {
    (OP_ONCE <= op <= OP_CBRAPOS && op != OP_ONCE_NC) || (OP_SBRA <= op <= OP_SCBRAPOS)
  }

  function BracketLength(op: byte): nat
  {
    if op == OP_CBRA || op == OP_CBRAPOS || op == OP_SCBRA || op == OP_SCBRAPOS then 5 else 3
  }

  predicate IsZero(op: byte) { op == OP_BRAZERO || op == OP_BRAMINZERO || op == OP_BRAPOSZERO || op == OP_SKIPZERO }

  predicate IsKet(op: byte) { OP_KET <= op <= OP_KETRPOS }

  /** One move of the machine from code position pc at subject position i. */
  ghost predicate Step(code: seq<byte>, s: Subject, pc: nat, i: nat, pc': nat, i': nat)
  {
    pc < |code| &&
    match Decode(code, pc)
    case CharItem(sel, rep, size) => pc' == pc + size && Takes(sel, rep, s, i, i')
    case Other =>
      && i' == i <= |s|
      && var op := code[pc];
         if op == OP_CIRC then pc' == pc + 1 && Holds(Circ, s, i)
         else if op == OP_DOLL then pc' == pc + 1 && Holds(Doll, s, i)
         else if op == OP_SOD then pc' == pc + 1 && Holds(Sod, s, i)
         else if op == OP_EOD then pc' == pc + 1 && Holds(Eod, s, i)
         else if IsBracket(op) then BranchStart(code, pc, BracketLength(op), pc')
         else if op == OP_ALT then pc' == SkipAlts(code, pc)
         else if IsKet(op) then
           || pc' == pc + 3
           || (op != OP_KET && pc + 3 <= |code| && pc' == pc - Get(code, pc + 1))
         else if IsZero(op) then
           || (op != OP_SKIPZERO && pc' == pc + 1)
           || (SkipAlts(code, pc + 1) >= 0 && pc' == SkipAlts(code, pc + 1) + 3)
         else false
  }

  /** n moves lead from (pc, i) to the end of the code at subject position j. */
  ghost predicate Reach(code: seq<byte>, s: Subject, n: nat, pc: nat, i: nat, j: nat)
  {
    if n == 0 then pc < |code| && code[pc] == OP_END && i == j <= |s|
    else exists pc': nat, i': nat :: Step(code, s, pc, i, pc', i') && Reach(code, s, n - 1, pc', i', j)
  }

  // ----- decoding encoded items -----

  /** Something other than a class repeat stands at q. */
  predicate ItemEnd(code: seq<byte>, q: nat)
  {
    q < |code| && !IsClassRepeat(code[q])
  }

  lemma DecodeOne(code: seq<byte>, pc: nat, sel: Sel)
    requires pc + OneSize(sel) <= |code| && OneAt(code, pc, sel)
    requires ItemEnd(code, pc + OneSize(sel))
    ensures Decode(code, pc) == CharItem(sel, Exact(1), OneSize(sel))
  {
  }

  lemma DecodeManyLit(code: seq<byte>, pc: nat, sel: Sel, rep: Rep)
    requires !sel.Set?
    requires pc + ManySize(sel, rep) <= |code| && ManyAt(code, pc, sel, rep)
    ensures Decode(code, pc) == CharItem(sel, rep, ManySize(sel, rep))
  {
    var off := CharRepOp(sel, rep) - OP_STAR - 13 * Block(sel);
    assert RepeatBase(code[pc]) == OP_STAR + 13 * Block(sel) && code[pc] - RepeatBase(code[pc]) == off;
    assert OpLength(code[pc]) == ManySize(sel, rep);
    assert CharRepeat(off, if ManySize(sel, rep) == 4 then Get(code, pc + 1) else 0) == rep;
  }

  lemma DecodeManySet(code: seq<byte>, pc: nat, sel: Sel, rep: Rep)
    requires sel.Set?
    requires pc + ManySize(sel, rep) <= |code| && ManyAt(code, pc, sel, rep)
    ensures Decode(code, pc) == CharItem(sel, rep, ManySize(sel, rep))
  {
    assert Decode(code, pc) == DecodeClass(code, pc);
    assert OpLength(code[pc + 33]) == ManySize(sel, rep) - 33;
  }

  lemma DecodeMany(code: seq<byte>, pc: nat, sel: Sel, rep: Rep)
    requires pc + ManySize(sel, rep) <= |code| && ManyAt(code, pc, sel, rep)
    ensures Decode(code, pc) == CharItem(sel, rep, ManySize(sel, rep))
  {
    if sel.Set? {
      DecodeManySet(code, pc, sel, rep);
    } else {
      DecodeManyLit(code, pc, sel, rep);
    }
  }

  lemma ItemStart(code: seq<byte>, pc: nat, it: Item)
    requires ItemAt(code, pc, it)
    ensures ItemEnd(code, pc)
  {
  }

  lemma CodeStart(code: seq<byte>, pc: nat, c: Code)
    requires At(code, pc, c) && ItemEnd(code, pc + Size(c))
    ensures ItemEnd(code, pc)
  {
    if c.Cons? {
      ItemStart(code, pc, c.item);
    }
  }

  /** The closing bracket at q, with room for its link. */
  predicate CloseAt(code: seq<byte>, q: nat)
  {
    q + 3 <= |code| && IsKet(code[q])
  }

  /** The headers of a group's branches, without their contents. */
  ghost predicate Linked(code: seq<byte>, p: nat, h: nat, alts: Alts)
    decreases alts
  {
    var next := p + h + Size(alts.code);
    && p + 3 <= next <= |code|
    && Get(code, p + 1) == next - p
    && (alts.More? ==> next < |code| && code[next] == OP_ALT && Linked(code, next, 3, alts.rest))
  }

  lemma {:induction false} AltsLinked(code: seq<byte>, p: nat, h: nat, alts: Alts)
    requires h >= 3 && AltsAt(code, p, h, alts)
    ensures Linked(code, p, h, alts)
    decreases alts
  {
    hide ItemAt, At, Get, Size;
    if alts.More? {
      AltsLinked(code, p + h + Size(alts.code), 3, alts.rest);
    }
  }

  lemma {:induction false} LinkedSkip(code: seq<byte>, p: nat, h: nat, alts: Alts)
    requires Linked(code, p, h, alts)
    requires CloseAt(code, p + h + AltsSize(alts))
    ensures SkipAlts(code, p) == p + h + AltsSize(alts)
    decreases alts
  {
    if alts.More? {
      LinkedSkip(code, p + h + Size(alts.code), 3, alts.rest);
    }
  }

  lemma AltsSkip(code: seq<byte>, p: nat, h: nat, alts: Alts)
    requires h >= 3 && AltsAt(code, p, h, alts)
    requires CloseAt(code, p + h + AltsSize(alts))
    ensures SkipAlts(code, p) == p + h + AltsSize(alts)
  {
    AltsLinked(code, p, h, alts);
    LinkedSkip(code, p, h, alts);
  }

  ghost predicate InAlts(c: Code, alts: Alts)
  {
    c == alts.code || (alts.More? && InAlts(c, alts.rest))
  }

  lemma {:induction false} InAltsSpan(c: Code, alts: Alts, s: Subject, i: nat, j: nat)
    requires InAlts(c, alts) && Span(c, s, i, j)
    ensures AltsSpan(alts, s, i, j)
    decreases alts
  {
    if c != alts.code {
      InAltsSpan(c, alts.rest, s, i, j);
    }
  }

  /** Where control goes from the end e of a branch: straight into the closing
      bracket at q, or over an ALT that leads there. */
  ghost predicate LeadsTo(code: seq<byte>, e: nat, q: nat)
  {
    e == q || (e < |code| && code[e] == OP_ALT && SkipAlts(code, e) == q)
  }

  /** The first branch of a group and the header of the next one. */
  lemma FirstBranch(code: seq<byte>, p: nat, h: nat, alts: Alts)
    requires h >= 3 && AltsAt(code, p, h, alts)
    requires CloseAt(code, p + h + AltsSize(alts))
    ensures var e := p + h + Size(alts.code);
            && At(code, p + h, alts.code) && p + 3 <= e && e + 3 <= |code| && p + Get(code, p + 1) == e
            && LeadsTo(code, e, p + h + AltsSize(alts))
            && (alts.More? ==> code[e] == OP_ALT && AltsAt(code, e, 3, alts.rest) && CloseAt(code, e + 3 + AltsSize(alts.rest))
                               && e + 3 + AltsSize(alts.rest) == p + h + AltsSize(alts))
  {
    hide At, Get, Linked, SkipAlts;
    if alts.More? {
      AltsSkip(code, p + h + Size(alts.code), 3, alts.rest);
    }
  }

  lemma {:induction false} PickBranch(code: seq<byte>, p: nat, h: nat, alts: Alts, x: nat) returns (c: Code)
    requires h >= 3 && AltsAt(code, p, h, alts)
    requires CloseAt(code, p + h + AltsSize(alts))
    requires BranchStart(code, p, h, x)
    ensures InAlts(c, alts) && At(code, x, c) && LeadsTo(code, x + Size(c), p + h + AltsSize(alts))
    decreases alts
  {
    hide At, Linked, ItemAt, AltsAt, SkipAlts, Get;
    FirstBranch(code, p, h, alts);
    if x == p + h {
      c := alts.code;
    } else {
      c := PickBranch(code, p + h + Size(alts.code), 3, alts.rest, x);
    }
  }

  lemma {:induction false} BranchHasStart(code: seq<byte>, p: nat, h: nat, alts: Alts, s: Subject, i: nat, j: nat) returns (c: Code, x: nat)
    requires h >= 3 && AltsAt(code, p, h, alts)
    requires CloseAt(code, p + h + AltsSize(alts))
    requires AltsSpan(alts, s, i, j)
    ensures BranchStart(code, p, h, x) && At(code, x, c) && c < alts && Span(c, s, i, j)
    ensures LeadsTo(code, x + Size(c), p + h + AltsSize(alts))
    decreases alts
  {
    hide ItemAt, Linked, At, AltsAt, Get, SkipAlts, Span;
    FirstBranch(code, p, h, alts);
    if Span(alts.code, s, i, j) {
      c, x := alts.code, p + h;
    } else {
      c, x := BranchHasStart(code, p + h + Size(alts.code), 3, alts.rest, s, i, j);
    }
  }

  // ----- every run follows the tree -----

  lemma {:induction false} Enter(code: seq<byte>, s: Subject, pc: nat, c: Code, n: nat, i: nat, j: nat) returns (m: nat, n': nat)
    requires At(code, pc, c) && ItemEnd(code, pc + Size(c))
    requires Reach(code, s, n, pc, i, j) && i <= |s|
    ensures Span(c, s, i, m) && n' <= n && Reach(code, s, n', pc + Size(c), m, j)
    decreases n, 4
  {
    hide ItemAt, ItemSpan, Step, Reach;
    if c == Nil {
      m, n' := i, n;
    } else {
      CodeStart(code, pc + ItemSize(c.item), c.next);
      var x, n1 := EnterItem(code, s, pc, c.item, n, i, j);
      ItemBounds(c.item, s, i, x);
      m, n' := Enter(code, s, pc + ItemSize(c.item), c.next, n1, x, j);
      SpanJoin(c.item, c.next, s, i, x, m);
    }
  }

  /** A move at an item other than a group. */
  lemma StepSingle(code: seq<byte>, s: Subject, pc: nat, it: Item, i: nat)
    requires !it.Group? && ItemAt(code, pc, it) && ItemEnd(code, pc + ItemSize(it)) && i <= |s|
    ensures code[pc] != OP_END
    ensures forall pc': nat, i': nat :: Step(code, s, pc, i, pc', i') <==> pc' == pc + ItemSize(it) && ItemSpan(it, s, i, i')
  {
    hide OneAt, ManyAt, Takes;
    if it.One? {
      DecodeOne(code, pc, it.sel);
    } else if it.Many? {
      DecodeMany(code, pc, it.sel, it.rep);
    }
  }

  lemma {:induction false} EnterItem(code: seq<byte>, s: Subject, pc: nat, it: Item, n: nat, i: nat, j: nat) returns (m: nat, n': nat)
    requires ItemAt(code, pc, it) && ItemEnd(code, pc + ItemSize(it))
    requires Reach(code, s, n, pc, i, j) && i <= |s|
    ensures ItemSpan(it, s, i, m) && n' < n && Reach(code, s, n', pc + ItemSize(it), m, j)
    decreases n, 3
  {
    hide ItemAt, ItemSpan, Step;
    if it.Group? {
      m, n' := EnterGroup(code, s, pc, it, n, i, j);
    } else {
      StepSingle(code, s, pc, it, i);
      var pc': nat, i': nat :| Step(code, s, pc, i, pc', i') && Reach(code, s, n - 1, pc', i', j);
      m, n' := i', n - 1;
    }
  }

  // What a move does at each kind of bracket opcode.

  lemma StepZero(code: seq<byte>, s: Subject, pc: nat, i: nat, pc': nat, i': nat)
    requires pc < |code| && IsZero(code[pc]) && SkipAlts(code, pc + 1) >= 0 && i <= |s|
    ensures Step(code, s, pc, i, pc', i') <==>
            i' == i && (pc' == SkipAlts(code, pc + 1) + 3 || (code[pc] != OP_SKIPZERO && pc' == pc + 1))
  {
  }

  lemma StepBracket(code: seq<byte>, s: Subject, pc: nat, i: nat, pc': nat, i': nat)
    requires pc < |code| && IsBracket(code[pc]) && i <= |s|
    ensures Step(code, s, pc, i, pc', i') <==> i' == i && BranchStart(code, pc, BracketLength(code[pc]), pc')
  {
  }

  lemma StepKet(code: seq<byte>, s: Subject, pc: nat, i: nat, pc': nat, i': nat)
    requires CloseAt(code, pc) && i <= |s|
    ensures Step(code, s, pc, i, pc', i') <==>
            i' == i && (pc' == pc + 3 || (code[pc] != OP_KET && pc' == pc - Get(code, pc + 1)))
  {
  }

  lemma StepAlt(code: seq<byte>, s: Subject, pc: nat, i: nat, pc': nat, i': nat)
    requires pc < |code| && code[pc] == OP_ALT && i <= |s|
    ensures Step(code, s, pc, i, pc', i') <==> i' == i && pc' == SkipAlts(code, pc)
  {
  }

  lemma {:induction false} EnterGroup(code: seq<byte>, s: Subject, pc: nat, it: Item, n: nat, i: nat, j: nat) returns (m: nat, n': nat)
    requires it.Group? && ItemAt(code, pc, it)
    requires Reach(code, s, n, pc, i, j) && i <= |s|
    ensures ItemSpan(it, s, i, m) && n' < n && Reach(code, s, n', pc + ItemSize(it), m, j)
    decreases n, 2
  {
    hide ItemAt, AltsAt, Step, GroupSpan, BracketAt;
    BracketOf(code, pc, it);
    if it.zero == NoZero {
      m, n' := EnterBracket(code, s, pc, it, n, i, j);
    } else {
      ZeroOf(code, pc, it);
      var pc': nat, i': nat :| Step(code, s, pc, i, pc', i') && Reach(code, s, n - 1, pc', i', j);
      StepZero(code, s, pc, i, pc', i');
      if pc' == pc + 1 && it.zero != SkipZero {
        m, n' := EnterBracket(code, s, pc + 1, it, n - 1, i, j);
      } else {
        m, n' := i, n - 1;
      }
    }
  }

  /** p is the bracket itself, behind any zero-repeat opcode. */
  ghost predicate BracketAt(code: seq<byte>, p: nat, it: Item)
  {
    && it.Group?
    && p + BraSize(it.bra) <= |code|
    && IsBracket(code[p]) && BracketLength(code[p]) == BraSize(it.bra)
    && AltsAt(code, p, BraSize(it.bra), it.body)
    && KetAt(code, p, BraSize(it.bra) + AltsSize(it.body), it.ket)
  }

  lemma BracketOf(code: seq<byte>, pc: nat, it: Item)
    requires it.Group? && ItemAt(code, pc, it)
    ensures BracketAt(code, pc + ZeroSize(it.zero), it)
  {
    hide AltsAt, At;
  }

  lemma ZeroOf(code: seq<byte>, pc: nat, it: Item)
    requires it.Group? && it.zero != NoZero && ItemAt(code, pc, it)
    ensures IsZero(code[pc]) && (code[pc] == OP_SKIPZERO <==> it.zero == SkipZero)
    ensures SkipAlts(code, pc + 1) == pc + ItemSize(it) - 3
  {
    AltsSkip(code, pc + 1, BraSize(it.bra), it.body);
  }

  lemma {:induction false} EnterBracket(code: seq<byte>, s: Subject, p: nat, it: Item, n: nat, i: nat, j: nat) returns (m: nat, n': nat)
    requires BracketAt(code, p, it)
    requires Reach(code, s, n, p, i, j) && i <= |s|
    ensures GroupSpan(it.body, it.ket, s, i, m) && n' < n
    ensures Reach(code, s, n', p + BraSize(it.bra) + AltsSize(it.body) + 3, m, j)
    decreases n, 1
  {
    hide AltsAt, Step, AltsSpan;
    var q := p + BraSize(it.bra) + AltsSize(it.body);
    var y, n1 := EnterBranch(code, s, p, it, n, i, j);
    AltsBounds(it.body, s, i, y);
    var pc': nat, i': nat :| Step(code, s, q, y, pc', i') && Reach(code, s, n1 - 1, pc', i', j);
    StepKet(code, s, q, y, pc', i');
    if pc' == q + 3 {
      m, n' := y, n1 - 1;
      IterateOnce(it.body, s, i, y);
    } else {
      m, n' := EnterBracket(code, s, p, it, n1 - 1, y, j);
      IterateMore(it.body, it.ket, s, i, y, m);
    }
  }

  lemma {:induction false} EnterBranch(code: seq<byte>, s: Subject, p: nat, it: Item, n: nat, i: nat, j: nat) returns (m: nat, n': nat)
    requires BracketAt(code, p, it)
    requires Reach(code, s, n, p, i, j) && i <= |s|
    ensures AltsSpan(it.body, s, i, m) && n' < n
    ensures Reach(code, s, n', p + BraSize(it.bra) + AltsSize(it.body), m, j)
    decreases n, 0
  {
    hide AltsAt, At, Step, AltsSpan, Span;
    var h := BraSize(it.bra);
    var q := p + h + AltsSize(it.body);
    var x: nat, i': nat :| Step(code, s, p, i, x, i') && Reach(code, s, n - 1, x, i', j);
    StepBracket(code, s, p, i, x, i');
    var c := PickBranch(code, p, h, it.body, x);
    var n1;
    m, n1 := Enter(code, s, x, c, n - 1, i, j);
    SpanBounds(c, s, i, m);
    InAltsSpan(c, it.body, s, i, m);
    n' := FollowAlt(code, s, x + Size(c), q, n1, m, j);
  }

  lemma FollowAlt(code: seq<byte>, s: Subject, e: nat, q: nat, n: nat, i: nat, j: nat) returns (n': nat)
    requires LeadsTo(code, e, q) && i <= |s|
    requires Reach(code, s, n, e, i, j)
    ensures n' <= n && Reach(code, s, n', q, i, j)
  {
    if e == q {
      n' := n;
    } else {
      var pc': nat, i': nat :| Step(code, s, e, i, pc', i') && Reach(code, s, n - 1, pc', i', j);
      StepAlt(code, s, e, i, pc', i');
      n' := n - 1;
    }
  }

  lemma IterateOnce(body: Alts, s: Subject, i: nat, j: nat)
    requires AltsSpan(body, s, i, j)
    ensures Iterate(body, 1, s, i, j)
  {
    AltsBounds(body, s, i, j);
    assert Iterate(body, 0, s, j, j);
  }

  lemma IterateMore(body: Alts, ket: Ket, s: Subject, i: nat, m: nat, j: nat)
    requires ket != Ket && AltsSpan(body, s, i, m) && GroupSpan(body, ket, s, m, j)
    ensures GroupSpan(body, ket, s, i, j)
  {
    var k: nat :| k >= 1 && Iterate(body, k, s, m, j);
    assert Iterate(body, k + 1, s, i, j);
  }

  // ----- every match of the tree is a run -----

  lemma {:induction false} Leave(code: seq<byte>, s: Subject, pc: nat, c: Code, i: nat, m: nat, n: nat, j: nat) returns (n': nat)
    requires At(code, pc, c) && ItemEnd(code, pc + Size(c))
    requires Span(c, s, i, m) && Reach(code, s, n, pc + Size(c), m, j)
    ensures Reach(code, s, n', pc, i, j)
    decreases c, 0
  {
    if c == Nil {
      n' := n;
    } else {
      CodeStart(code, pc + ItemSize(c.item), c.next);
      var x := SpanSplit(c, s, i, m);
      var n1 := Leave(code, s, pc + ItemSize(c.item), c.next, x, m, n, j);
      n' := LeaveItem(code, s, pc, c.item, i, x, n1, j);
    }
  }

  lemma {:induction false} LeaveItem(code: seq<byte>, s: Subject, pc: nat, it: Item, i: nat, m: nat, n: nat, j: nat) returns (n': nat)
    requires ItemAt(code, pc, it) && ItemEnd(code, pc + ItemSize(it))
    requires ItemSpan(it, s, i, m) && Reach(code, s, n, pc + ItemSize(it), m, j)
    ensures Reach(code, s, n', pc, i, j)
    decreases it, 1
  {
    if it.Group? {
      n' := LeaveGroup(code, s, pc, it, i, m, n, j);
    } else {
      if it.One? {
        DecodeOne(code, pc, it.sel);
      } else if it.Many? {
        DecodeMany(code, pc, it.sel, it.rep);
      }
      assert Step(code, s, pc, i, pc + ItemSize(it), m);
      n' := n + 1;
    }
  }

  lemma {:induction false} LeaveGroup(code: seq<byte>, s: Subject, pc: nat, it: Item, i: nat, m: nat, n: nat, j: nat) returns (n': nat)
    requires it.Group? && ItemAt(code, pc, it)
    requires ItemSpan(it, s, i, m) && Reach(code, s, n, pc + ItemSize(it), m, j)
    ensures Reach(code, s, n', pc, i, j)
    decreases it, 0
  {
    hide ItemAt, AltsAt, Step, GroupSpan, BracketAt;
    BracketOf(code, pc, it);
    ItemBounds(it, s, i, m);
    var p := pc + ZeroSize(it.zero);
    if it.zero != SkipZero && GroupSpan(it.body, it.ket, s, i, m) {
      var k := GroupIterates(it.body, it.ket, s, i, m);
      n' := LeaveBracket(code, s, p, it, k, i, m, n, j);
      if it.zero != NoZero {
        ZeroOf(code, pc, it);
        StepZero(code, s, pc, i, p, i);
        n' := n' + 1;
      }
    } else {
      ZeroOf(code, pc, it);
      StepZero(code, s, pc, i, pc + ItemSize(it), i);
      n' := n + 1;
    }
  }

  lemma GroupIterates(body: Alts, ket: Ket, s: Subject, i: nat, j: nat) returns (k: nat)
    requires GroupSpan(body, ket, s, i, j)
    ensures k >= 1 && (ket == Ket ==> k == 1) && Iterate(body, k, s, i, j)
  {
    if ket == Ket {
      IterateOnce(body, s, i, j);
      k := 1;
    } else {
      k :| k >= 1 && Iterate(body, k, s, i, j);
    }
  }

  /** The moves at the closing bracket: on, or for a loop back to the start. */
  lemma KetSteps(code: seq<byte>, s: Subject, p: nat, it: Item, x: nat)
    requires BracketAt(code, p, it) && x <= |s|
    ensures var q := p + BraSize(it.bra) + AltsSize(it.body);
            Step(code, s, q, x, q + 3, x) && (it.ket != Ket ==> Step(code, s, q, x, p, x))
  {
    hide AltsAt, Step;
    var q := p + BraSize(it.bra) + AltsSize(it.body);
    StepKet(code, s, q, x, q + 3, x);
    StepKet(code, s, q, x, p, x);
  }

  lemma {:induction false} LeaveBracket(code: seq<byte>, s: Subject, p: nat, it: Item, k: nat, i: nat, m: nat, n: nat, j: nat) returns (n': nat)
    requires BracketAt(code, p, it)
    requires k >= 1 && (it.ket == Ket ==> k == 1) && Iterate(it.body, k, s, i, m)
    requires Reach(code, s, n, p + BraSize(it.bra) + AltsSize(it.body) + 3, m, j)
    ensures Reach(code, s, n', p, i, j)
    decreases it.body, 1, k
  {
    hide AltsSpan, Step, AltsAt;
    var q := p + BraSize(it.bra) + AltsSize(it.body);
    var x := IterateSplit(it.body, k, s, i, m);
    AltsBounds(it.body, s, i, x);
    KetSteps(code, s, p, it, x);
    var n1;
    if k == 1 {
      assert x == m;
      n1 := n + 1;
    } else {
      var n0 := LeaveBracket(code, s, p, it, k - 1, x, m, n, j);
      n1 := n0 + 1;
    }
    n' := LeaveBranch(code, s, p, it, i, x, n1, j);
  }

  lemma {:induction false} LeaveBranch(code: seq<byte>, s: Subject, p: nat, it: Item, i: nat, m: nat, n: nat, j: nat) returns (n': nat)
    requires BracketAt(code, p, it) && AltsSpan(it.body, s, i, m)
    requires Reach(code, s, n, p + BraSize(it.bra) + AltsSize(it.body), m, j)
    ensures Reach(code, s, n', p, i, j)
    decreases it.body, 0
  {
    hide AltsAt, At, Span, Step;
    var h := BraSize(it.bra);
    var q := p + h + AltsSize(it.body);
    var c, x := BranchHasStart(code, p, h, it.body, s, i, m);
    SpanBounds(c, s, i, m);
    var n1 := n;
    if x + Size(c) != q {
      StepAlt(code, s, x + Size(c), m, q, m);
      n1 := n + 1;
    }
    var n2 := Leave(code, s, x, c, i, m, n1, j);
    StepBracket(code, s, p, i, x, i);
    n' := n2 + 1;
  }

  // ----- whole programs -----

  /** The bracket that surrounds a whole pattern. */
  function Top(alts: Alts): Item
  {
    Group(NoZero, Paren(false, false, false), 0, alts, Ket)
  }

  /** A finished program: the outer bracket and OP_END. */
  predicate ProgramAt(code: seq<byte>, alts: Alts)
  {
    && |code| == ItemSize(Top(alts)) + 1
    && ItemAt(code, 0, Top(alts))
    && code[ItemSize(Top(alts))] == OP_END
  }

  lemma StopAtEnd(code: seq<byte>, s: Subject, n: nat, pc: nat, i: nat, j: nat)
    requires pc < |code| && code[pc] == OP_END
    requires Reach(code, s, n, pc, i, j)
    ensures i == j
  {
    assert forall pc': nat, i': nat :: !Step(code, s, pc, i, pc', i');
  }

  lemma RunIsSpan(code: seq<byte>, alts: Alts, s: Subject, n: nat, i: nat, j: nat)
    requires ProgramAt(code, alts) && i <= |s|
    requires Reach(code, s, n, 0, i, j)
    ensures AltsSpan(alts, s, i, j)
  {
    var m, n' := EnterItem(code, s, 0, Top(alts), n, i, j);
    StopAtEnd(code, s, n', |code| - 1, m, j);
  }

  lemma SpanIsRun(code: seq<byte>, alts: Alts, s: Subject, i: nat, j: nat) returns (n: nat)
    requires ProgramAt(code, alts)
    requires AltsSpan(alts, s, i, j)
    ensures Reach(code, s, n, 0, i, j)
  {
    AltsBounds(alts, s, i, j);
    assert Reach(code, s, 0, |code| - 1, j, j);
    n := LeaveItem(code, s, 0, Top(alts), i, j, 0, j);
  }

  /** The machine accepts the stretch from i to j. */
  ghost predicate Runs(code: seq<byte>, s: Subject, i: nat, j: nat)
  {
    exists n: nat :: Reach(code, s, n, 0, i, j)
  }

  /** The machine run on the bytes of a program accepts exactly the stretches that
      the program's tree denotes. */
  lemma RunsAreSpans(code: seq<byte>, alts: Alts, s: Subject, i: nat, j: nat)
    requires ProgramAt(code, alts) && i <= |s|
    ensures Runs(code, s, i, j) <==> AltsSpan(alts, s, i, j)
  {
    if Runs(code, s, i, j) {
      var n: nat :| Reach(code, s, n, 0, i, j);
      RunIsSpan(code, alts, s, n, i, j);
    }
    if AltsSpan(alts, s, i, j) {
      var n := SpanIsRun(code, alts, s, i, j);
    }
  }
}
