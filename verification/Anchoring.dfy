/** The tests for patterns that can only match at the start of the subject, or of a line, and
    why a pattern that passes need only be tried there. */
module Anchoring {
  import opened Opcodes
  import opened Bytecode
  import opened Matching
  import opened Machine
  import opened Links
  import opened EmptinessScan
  import opened Pattern
  import opened Translation

  /** Both tests go the same way. They differ in the type that a leading .* must repeat and
      in the explicit anchors that count. */
  datatype Test = AtStart | AtLine

  function Filler(test: Test): TypeOp
  {
    if test == AtStart then OP_ALLANY else OP_ANY
  }

  predicate Explicit(test: Test, a: Anchor)
  {
    a == Circ || (a == Sod && test == AtStart)
  }

  /** What the test decides about a group's branches; atomic says that the group is
      inside an atomic one, where only explicit anchors count. */
  predicate Tied(test: Test, alts: Alts, atomic: bool)
    decreases alts
  {
    BranchTied(test, alts.code, atomic) && (alts.More? ==> Tied(test, alts.rest, atomic))
  }

  predicate BranchTied(test: Test, c: Code, atomic: bool)
    decreases c
  {
    c.Cons? &&
    match c.item
    case One(_) => false
    case Many(sel, rep) => !atomic && sel == Type(Filler(test)) && rep.Star?
    case Assert(a) => Explicit(test, a)
    case Group(zero, bra, _, body, _) => zero == NoZero && Tied(test, body, atomic || bra.Once?)
  }

  // ----- soundness -----

  /** Between base and i there is nothing that the leading .* could not take. */
  ghost predicate Covered(test: Test, s: Subject, base: nat, i: nat)
  {
    base <= i && Run(Type(Filler(test)), s, base, i)
  }

  /** An explicitly anchored group matches nowhere but at the start. */
  lemma {:induction false} ExplicitlyAnchored(test: Test, alts: Alts, s: Subject, i: nat, j: nat)
    requires Tied(test, alts, true) && AltsSpan(alts, s, i, j)
    ensures i == 0
    decreases alts
  {
    if Span(alts.code, s, i, j) {
      var it := alts.code.item;
      var m := SpanSplit(alts.code, s, i, j);
      if it.Group? {
        var m1, _ := FirstPass(it.body, it.ket, s, i, m);
        ExplicitlyAnchored(test, it.body, s, i, m1);
      }
    } else {
      ExplicitlyAnchored(test, alts.rest, s, i, j);
    }
  }

  /** A match of a group that passes the test can be had from wherever the leading .* could
      have begun. */
  lemma {:induction false} TiedFromBase(test: Test, alts: Alts, s: Subject, base: nat, i: nat, j: nat)
    requires Tied(test, alts, false) && Covered(test, s, base, i) && AltsSpan(alts, s, i, j)
    ensures AltsSpan(alts, s, base, j)
    decreases alts, 0
  {
    if Span(alts.code, s, i, j) {
      var m := SpanSplit(alts.code, s, i, j);
      ItemFromBase(test, alts.code.item, s, base, i, m);
      SpanJoin(alts.code.item, alts.code.next, s, base, m, j);
    } else {
      TiedFromBase(test, alts.rest, s, base, i, j);
    }
  }

  lemma {:induction false} ItemFromBase(test: Test, it: Bytecode.Item, s: Subject, base: nat, i: nat, j: nat)
    requires BranchTied(test, Cons(it, Nil), false) && Covered(test, s, base, i) && ItemSpan(it, s, i, j)
    ensures ItemSpan(it, s, base, j)
    decreases it
  {
    if it.Group? {
      var m, n := FirstPass(it.body, it.ket, s, i, j);
      if it.bra.Once? {
        ExplicitlyAnchored(test, it.body, s, i, m);
      } else {
        TiedFromBase(test, it.body, s, base, i, m);
        if it.ket != Ket {
          IterateJoin(it.body, n, s, base, m, j);
        }
      }
    }
  }

  // ----- the same for the spans of patterns -----

  lemma CatTied(test: Test, c: Code, next: Code, atomic: bool)
    requires c.Cons?
    ensures BranchTied(test, Cat(c, next), atomic) == BranchTied(test, c, atomic)
  {
    assert Cat(c, next) == Cons(c.item, Cat(c.next, next));
  }

  lemma {:induction false} TiedBranch(test: Test, b: Branch, bc: nat, atomic: bool, s: Subject, base: nat, i: nat, j: nat)
    requires BranchTied(test, BranchCode(b, bc), atomic) && Covered(test, s, base, i) && BranchSpan(b, s, i, j)
    ensures BranchSpan(b, s, base, j) && (atomic ==> i == 0)
    decreases b, 0
  {
    match b
    case Empty =>
    case AnchorItem(_, _) =>
    case Item(atom, q, rest) =>
      var m: nat :| QuantSpan(atom, q, s, i, m) && BranchSpan(rest, s, m, j);
      var c, next := AtomCode(atom, q, bc), BranchCode(rest, bc + AtomCaptures(atom));
      if c == Nil {
        Dropped(atom, q, bc, s, i, m, base);
        TiedBranch(test, rest, bc + AtomCaptures(atom), atomic, s, base, i, j);
        assert QuantSpan(atom, q, s, base, base);
      } else {
        CatTied(test, c, next, atomic);
        TiedQuant(test, atom, q, bc, atomic, s, base, i, m);
      }
  }

  /** Only a character that is repeated zero times has no code. */
  lemma Dropped(atom: Atom, q: Quantifier, bc: nat, s: Subject, i: nat, m: nat, base: nat)
    requires AtomCode(atom, q, bc) == Nil && QuantSpan(atom, q, s, i, m) && base <= i
    ensures i == m && base <= |s| && QuantSpan(atom, q, s, base, base)
  {
    var n: nat :| Allows(q, n) && Times(atom, n, s, i, m);
    assert Times(atom, 0, s, base, base);
  }

  lemma {:induction false} TiedQuant(test: Test, atom: Atom, q: Quantifier, bc: nat, atomic: bool, s: Subject, base: nat, i: nat, m: nat)
    requires var c := AtomCode(atom, q, bc); c.Cons? && BranchTied(test, c, atomic)
    requires Covered(test, s, base, i) && QuantSpan(atom, q, s, i, m)
    ensures QuantSpan(atom, q, s, base, m) && (atomic ==> i == 0)
    decreases atom, 1
  {
    var n: nat :| Allows(q, n) && Times(atom, n, s, i, m);
    if atom.Chars? {
      StarOnly(test, atom.sel, q, atomic);
      TimesIsRun(atom.sel, n, s, i, m);
      TimesIsRun(atom.sel, m - base, s, base, m);
    } else {
      FirstGroup(test, PieceOf(atom.cap, atom.alts, bc), q, atomic);
      var x := TimesSplit(atom, n, s, i, m);
      var kept := atomic || (q.Quant? && NeedsAtomic(q));
      TiedSpan(test, atom.alts, if atom.cap then bc + 1 else bc, kept, s, base, i, x);
      TimesJoin(atom, n - 1, s, base, x, m);
    }
  }

  lemma NeverAtomic(test: Test, sel: Sel, next: Code, atomic: bool)
    ensures !BranchTied(test, Atomic(Cons(One(sel), next)), atomic)
  {
    assert !Tied(test, Last(Cons(One(sel), next)), true);
  }

  lemma StarOnly(test: Test, sel: Sel, q: Quantifier, atomic: bool)
    requires var c := if sel.Set? then ClassCode(sel, q) else CharCode(sel, q); c.Cons? && BranchTied(test, c, atomic)
    ensures !atomic && sel == Type(Filler(test)) && q.Quant? && q.lo == 0 && q.hi == -1
  {
    NeverAtomic(test, sel, if q.Quant? && q.hi > 1 then Single(Many(sel, Upto(Greedy, q.hi - 1))) else Nil, atomic);
  }

  lemma FirstCopy(test: Test, g: Piece, lo: u16, hi: int, mode: Mode, atomic: bool)
    requires (hi == -1 || lo <= hi) && BranchTied(test, RepeatedGroup(g, lo, hi, mode), atomic)
    ensures lo > 0 && Tied(test, g.body, atomic)
  {
    hide Tied;
    var c := RepeatedGroup(g, lo, hi, mode);
    assert c.Cons?;
    if lo > 0 {
      if hi == -1 {
        var last := Single(LoopGroup(g, NoZero, mode));
        assert c == if lo == 1 then last else Cons(PlainGroup(g, NoZero), Copies(g, lo - 2, last));
      } else {
        assert c == Cons(PlainGroup(g, NoZero), Copies(g, lo - 1, Optional(g, ZeroFor(mode), hi - lo)));
      }
    }
  }

  /** A group that begins in the way the test wants must be there. */
  lemma FirstGroup(test: Test, g: Piece, q: Quantifier, atomic: bool)
    requires BranchTied(test, GroupCode(g, q), atomic)
    ensures Tied(test, g.body, atomic || (q.Quant? && NeedsAtomic(q))) && (q.Quant? ==> q.lo > 0)
  {
    if q.Quant? {
      var c := RepeatedGroup(g, q.lo, q.hi, q.mode);
      if NeedsAtomic(q) {
        assert Tied(test, Last(c), true) == BranchTied(test, c, true);
      }
      FirstCopy(test, g, q.lo, q.hi, q.mode, atomic || NeedsAtomic(q));
    } else {
      assert GroupCode(g, q) == Cons(PlainGroup(g, NoZero), Nil);
    }
  }

  // ----- which patterns pass -----

  /** Every branch begins with an anchor that counts, with .* outside atomic groups, or with a
      group that must be there and does so. A character that is repeated zero times has no
      code and is passed over. */
  predicate PatternTied(test: Test, p: Pattern, atomic: bool)
    decreases p, 0
  {
    StartTied(test, p.b, atomic) && (p.OrElse? ==> PatternTied(test, p.others, atomic))
  }

  predicate StartTied(test: Test, b: Branch, atomic: bool)
    decreases b, 0
  {
    match b
    case Empty => false
    case AnchorItem(a, _) => if test == AtStart then a == Circ || a == Sod else a == Circ
    case Item(Chars(sel), q, rest) =>
      if q.Quant? && q.hi == 0 then StartTied(test, rest, atomic)
      else !atomic && sel == Type(if test == AtStart then OP_ALLANY else OP_ANY) && q.Quant? && q.lo == 0 && q.hi == -1
    case Item(Parens(_, alts), q, _) => (q.Quant? ==> q.lo > 0) && PatternTied(test, alts, atomic || NeedsAtomic(q))
  }

  lemma CharsTied(test: Test, sel: Sel, q: Quantifier, atomic: bool)
    requires !(q.Quant? && q.hi == 0)
    ensures var c := if sel.Set? then ClassCode(sel, q) else CharCode(sel, q);
            c.Cons? && (BranchTied(test, c, atomic) <==> !atomic && sel == Type(Filler(test)) && q.Quant? && q.lo == 0 && q.hi == -1)
  {
    var c := if sel.Set? then ClassCode(sel, q) else CharCode(sel, q);
    if BranchTied(test, c, atomic) {
      StarOnly(test, sel, q, atomic);
    }
  }

  lemma GroupTied(test: Test, g: Piece, q: Quantifier, atomic: bool)
    ensures var c := GroupCode(g, q);
            c.Cons? && (BranchTied(test, c, atomic) <==> (q.Quant? ==> q.lo > 0) && Tied(test, g.body, atomic || NeedsAtomic(q)))
  {
    var c, kept := GroupCode(g, q), atomic || NeedsAtomic(q);
    if BranchTied(test, c, atomic) {
      FirstGroup(test, g, q, atomic);
    } else if q.Quant? && q.lo > 0 {
      var r := RepeatedGroup(g, q.lo, q.hi, q.mode);
      if NeedsAtomic(q) {
        assert Tied(test, Last(r), true) == BranchTied(test, r, true);
      }
      FirstIsTied(test, g, q.lo, q.hi, q.mode, kept);
    }
  }

  lemma FirstIsTied(test: Test, g: Piece, lo: u16, hi: int, mode: Mode, atomic: bool)
    requires (hi == -1 || lo <= hi) && lo > 0
    ensures BranchTied(test, RepeatedGroup(g, lo, hi, mode), atomic) == Tied(test, g.body, atomic)
  {
    hide Tied;
    var c := RepeatedGroup(g, lo, hi, mode);
    if hi == -1 {
      var last := Single(LoopGroup(g, NoZero, mode));
      assert c == if lo == 1 then last else Cons(PlainGroup(g, NoZero), Copies(g, lo - 2, last));
    } else {
      assert c == Cons(PlainGroup(g, NoZero), Copies(g, lo - 1, Optional(g, ZeroFor(mode), hi - lo)));
    }
  }

  lemma {:induction false} StartTiedExactly(test: Test, b: Branch, bc: nat, atomic: bool)
    ensures BranchTied(test, BranchCode(b, bc), atomic) <==> StartTied(test, b, atomic)
    decreases b, 0
  {
    hide Tied, GroupCode, PatternTied, NeedsAtomic;
    match b
    case Empty =>
    case AnchorItem(_, _) =>
    case Item(Chars(sel), q, rest) =>
      var c, next := AtomCode(b.atom, q, bc), BranchCode(rest, bc + AtomCaptures(b.atom));
      if q.Quant? && q.hi == 0 {
        StartTiedExactly(test, rest, bc + AtomCaptures(b.atom), atomic);
      } else {
        CharsTied(test, sel, q, atomic);
        CatTied(test, c, next, atomic);
      }
    case Item(Parens(cap, alts), q, rest) =>
      var g, next := PieceOf(cap, alts, bc), BranchCode(rest, bc + AtomCaptures(b.atom));
      TiedExactly(test, alts, if cap then bc + 1 else bc, atomic || NeedsAtomic(q));
      GroupTied(test, g, q, atomic);
      CatTied(test, GroupCode(g, q), next, atomic);
  }

  /** Just those patterns pass the test. */
  lemma {:induction false} TiedExactly(test: Test, p: Pattern, bc: nat, atomic: bool)
    ensures Tied(test, PatternCode(p, bc), atomic) <==> PatternTied(test, p, atomic)
    decreases p, 0
  {
    StartTiedExactly(test, p.b, bc, atomic);
    if p.OrElse? {
      TiedExactly(test, p.others, bc + BranchCaptures(p.b), atomic);
    }
  }

  /** A span of a pattern whose code passes the test can be had from wherever the leading .*
      could have begun; inside an atomic group it begins at the start. */
  lemma {:induction false} TiedSpan(test: Test, p: Pattern, bc: nat, atomic: bool, s: Subject, base: nat, i: nat, j: nat)
    requires Tied(test, PatternCode(p, bc), atomic) && Covered(test, s, base, i) && PatternSpan(p, s, i, j)
    ensures PatternSpan(p, s, base, j) && (atomic ==> i == 0)
    decreases p, 0
  {
    if BranchSpan(p.b, s, i, j) {
      TiedBranch(test, p.b, bc, atomic, s, base, i, j);
    } else {
      TiedSpan(test, p.others, bc + BranchCaptures(p.b), atomic, s, base, i, j);
    }
  }

  // ----- the test on the bytes -----

  lemma StarOpcode(code: seq<byte>, pc: nat, it: Bytecode.Item)
    requires it.Many? && ItemAt(code, pc, it)
    ensures code[pc] != OP_SOD && code[pc] != OP_CIRC && code[pc] != OP_ONCE && !IsBracket(code[pc])
    ensures (code[pc] == OP_TYPESTAR || code[pc] == OP_TYPEMINSTAR || code[pc] == OP_TYPEPOSSTAR) <==> it.sel.Type? && it.rep.Star?
    ensures it.sel.Type? && it.rep.Star? ==> pc + 1 < |code| && code[pc + 1] == it.sel.t
  {
    ManyOpcode(code, pc, it);
    if !it.sel.Set? {
      var off := CharRepOp(it.sel, it.rep) - OP_STAR - 13 * Block(it.sel);
      assert RepeatBase(code[pc]) == OP_STAR + 13 * Block(it.sel) && code[pc] - RepeatBase(code[pc]) == off;
    }
  }

  lemma BracketOpcode(code: seq<byte>, pc: nat, it: Bytecode.Item)
    requires it.Group? && ItemAt(code, pc, it)
    ensures IsBracket(code[pc]) <==> it.zero == NoZero
    ensures code[pc] == OP_ONCE <==> it.zero == NoZero && it.bra.Once?
    ensures code[pc] > OP_TYPEPOSUPTO
    ensures it.zero == NoZero ==>
              && OpLength(code[pc]) == BraSize(it.bra) && AltsAt(code, pc, BraSize(it.bra), it.body)
              && CloseAt(code, pc + BraSize(it.bra) + AltsSize(it.body))
  {
    hide AltsAt, ItemAt;
    GroupElim(code, pc, it);
    KetCloses(code, pc + ZeroSize(it.zero), BraSize(it.bra) + AltsSize(it.body), it.ket);
  }

  /** What the first opcode of a branch says about the branch. */
  lemma FirstOpcode(code: seq<byte>, pc: nat, c: Code)
    requires At(code, pc, c) && EndsAt(code, pc + Size(c), |code|)
    ensures IsBracket(code[pc]) <==> c.Cons? && c.item.Group? && c.item.zero == NoZero
    ensures IsBracket(code[pc]) ==>
              && (code[pc] == OP_ONCE <==> c.item.bra.Once?)
              && OpLength(code[pc]) == BraSize(c.item.bra) && AltsAt(code, pc, BraSize(c.item.bra), c.item.body)
              && CloseAt(code, pc + BraSize(c.item.bra) + AltsSize(c.item.body))
    ensures (code[pc] == OP_TYPESTAR || code[pc] == OP_TYPEMINSTAR || code[pc] == OP_TYPEPOSSTAR) <==>
            c.Cons? && c.item.Many? && c.item.sel.Type? && c.item.rep.Star?
    ensures c.Cons? && c.item.Many? && c.item.sel.Type? && c.item.rep.Star? ==> pc + 1 < |code| && code[pc + 1] == c.item.sel.t
    ensures code[pc] == OP_SOD <==> c.Cons? && c.item.Assert? && c.item.anchor == Sod
    ensures code[pc] == OP_CIRC <==> c.Cons? && c.item.Assert? && c.item.anchor == Circ
  {
    hide AltsAt, GroupAt, OneAt, ManyAt;
    if c.Cons? {
      if c.item.Group? {
        BracketOpcode(code, pc, c.item);
      } else if c.item.Many? {
        StarOpcode(code, pc, c.item);
      } else if c.item.One? {
        OneOpcode(code, pc, c.item);
      }
    }
  }

  /** Whether the branch whose code is at scode starts in the way that the test wants. */
  method BranchIsTied(test: Test, code: seq<byte>, scode: nat, atomcount: nat, ghost c: Code) returns (r: bool)
    requires At(code, scode, c) && EndsAt(code, scode + Size(c), |code|)
    ensures r == BranchTied(test, c, atomcount > 0)
    decreases c
  {
    var op := code[scode];
    FirstOpcode(code, scode, c);
    if IsBracket(op) && op != OP_ONCE {
      r := IsTied(test, code, scode, atomcount, BraSize(c.item.bra), c.item.body);
    } else if op == OP_ONCE {
      r := IsTied(test, code, scode, atomcount + 1, BraSize(c.item.bra), c.item.body);
    } else if op == OP_TYPESTAR || op == OP_TYPEMINSTAR || op == OP_TYPEPOSSTAR {
      r := code[scode + 1] == Filler(test) && atomcount == 0;
    } else {
      r := op == OP_CIRC || (op == OP_SOD && test == AtStart);
    }
  }

  lemma BranchEnd(code: seq<byte>, p: nat, h: nat, alts: Alts)
    requires h >= 3 && AltsAt(code, p, h, alts) && CloseAt(code, p + h + AltsSize(alts))
    ensures At(code, p + h, alts.code) && EndsAt(code, p + h + Size(alts.code), |code|)
    ensures var q := p + Get(code, p + 1);
            q < |code| && (code[q] == OP_ALT <==> alts.More?)
            && (alts.More? ==> AltsAt(code, q, 3, alts.rest) && CloseAt(code, q + 3 + AltsSize(alts.rest)))
  {
  }

  /** The test of every branch of the group whose bracket is at start. */
  method IsTied(test: Test, code: seq<byte>, start: nat, atomcount: nat, ghost h: nat, ghost alts: Alts) returns (r: bool)
    requires start < |code| && h == OpLength(code[start]) >= 3
    requires AltsAt(code, start, h, alts) && CloseAt(code, start + h + AltsSize(alts))
    ensures r == Tied(test, alts, atomcount > 0)
    decreases alts
  {
    hide At, EndsAt, AltsAt, CloseAt;
    var p: nat := start;
    ghost var rest := alts;
    while true
      invariant p < |code| && OpLength(code[p]) >= 3
      invariant AltsAt(code, p, OpLength(code[p]), rest) && CloseAt(code, p + OpLength(code[p]) + AltsSize(rest))
      invariant Tied(test, alts, atomcount > 0) == Tied(test, rest, atomcount > 0)
      invariant rest == alts || rest < alts
      decreases rest
    {
      BranchEnd(code, p, OpLength(code[p]), rest);
      var ok := BranchIsTied(test, code, p + OpLength(code[p]), atomcount, rest.code);
      if !ok {
        return false;
      }
      p := p + Get(code, p + 1);
      if code[p] != OP_ALT {
        return true;
      }
      rest := rest.rest;
    }
  }

  lemma ProgramTest(code: seq<byte>, alts: Alts)
    requires ProgramAt(code, alts)
    ensures |code| > 0 && OpLength(code[0]) == 3 && AltsAt(code, 0, 3, alts) && CloseAt(code, 3 + AltsSize(alts))
  {
    hide AltsAt, ItemAt;
    GroupElim(code, 0, Top(alts));
    KetCloses(code, 0, 3 + AltsSize(alts), Ket);
  }

  /** Whether the whole pattern is anchored. */
  method IsAnchored(code: seq<byte>, ghost alts: Alts) returns (r: bool)
    requires ProgramAt(code, alts)
    ensures r == Tied(AtStart, alts, false)
  {
    ProgramTest(code, alts);
    r := IsTied(AtStart, code, 0, 0, 3, alts);
  }

  /** Whether every match begins a line, or can be had from where its line begins. */
  method IsStartline(code: seq<byte>, ghost alts: Alts) returns (r: bool)
    requires ProgramAt(code, alts)
    ensures r == Tied(AtLine, alts, false)
  {
    ProgramTest(code, alts);
    r := IsTied(AtLine, code, 0, 0, 3, alts);
  }
}
