/** What is true of every tree the compiler produces, as the analyses assume: groups are
    marked S exactly when they repeat without limit and could match nothing, and no class
    repeat has the bounds 0 and 0. */
module Shape {
  import opened Opcodes
  import opened Bytecode
  import opened Matching
  import opened Emptiness
  import opened FixedLength
  import opened Pattern
  import opened Translation

  ghost predicate WellShaped(c: Code) { Marked(c) && NoZeroRange(c) }

  ghost predicate WellShapedAlts(alts: Alts) { MarkedAlts(alts) && NoZeroRangeAlts(alts) }

  lemma {:induction false} CatShape(a: Code, b: Code)
    requires WellShaped(a) && WellShaped(b)
    ensures WellShaped(Cat(a, b))
    decreases a
  {
    if a.Cons? {
      CatShape(a.next, b);
    }
  }

  lemma CharsShape(sel: Sel, q: Quantifier)
    ensures WellShaped(if sel.Set? then ClassCode(sel, q) else CharCode(sel, q))
  {
    var c := if sel.Set? then ClassCode(sel, q) else CharCode(sel, q);
    assert WellShaped(Nil);
    if c.Cons? && c.item.Group? {
      var inner := c.item.body.code;
      assert WellShaped(inner.next.next) && WellShaped(inner.next) && WellShaped(inner);
      assert WellShapedAlts(Last(inner));
    }
  }

  lemma PlainShape(g: Piece, zero: Zero, tail: Code)
    requires WellShapedAlts(g.body) && WellShaped(tail)
    ensures WellShaped(Cons(PlainGroup(g, zero), tail))
  {
  }

  lemma LoopShape(g: Piece, zero: Zero, mode: Mode)
    requires WellShapedAlts(g.body)
    ensures WellShaped(Single(LoopGroup(g, zero, mode)))
  {
    AltsEmptyExactly(g.body);
    assert WellShaped(Nil);
  }

  lemma AtomicShape(zero: Zero, bra: Bra, c: Code)
    requires WellShaped(c) && (bra.Paren? ==> !bra.s)
    ensures WellShaped(Single(Group(zero, bra, 0, Last(c), Ket)))
  {
    assert WellShaped(Nil) && WellShapedAlts(Last(c));
  }

  lemma {:induction false} CopiesShape(g: Piece, n: nat, tail: Code)
    requires WellShapedAlts(g.body) && WellShaped(tail)
    ensures WellShaped(Copies(g, n, tail))
    decreases n
  {
    if n > 0 {
      CopiesShape(g, n - 1, tail);
      PlainShape(g, NoZero, Copies(g, n - 1, tail));
    }
  }

  lemma {:induction false} OptionalShape(g: Piece, zero: Zero, n: nat)
    requires WellShapedAlts(g.body)
    ensures WellShaped(Optional(g, zero, n))
    decreases n
  {
    if n == 1 {
      PlainShape(g, zero, Nil);
    } else if n > 1 {
      OptionalShape(g, zero, n - 1);
      PlainShape(g, NoZero, Optional(g, zero, n - 1));
      AtomicShape(zero, Paren(false, false, false), Cons(PlainGroup(g, NoZero), Optional(g, zero, n - 1)));
    }
  }

  lemma GroupShape(g: Piece, q: Quantifier)
    requires WellShapedAlts(g.body)
    ensures WellShaped(GroupCode(g, q))
  {
    PlainShape(g, NoZero, Nil);
    if q.Quant? {
      PlainShape(g, SkipZero, Nil);
      LoopShape(g, NoZero, q.mode);
      LoopShape(g, if q.mode == Possessive then BraPosZero else ZeroFor(q.mode), q.mode);
      if q.lo > 0 && q.hi == -1 {
        CopiesShape(g, q.lo - 1, Single(LoopGroup(g, NoZero, q.mode)));
      } else if q.lo > 0 {
        OptionalShape(g, ZeroFor(q.mode), q.hi - q.lo);
        CopiesShape(g, q.lo, Optional(g, ZeroFor(q.mode), q.hi - q.lo));
      } else if q.hi > 0 {
        OptionalShape(g, ZeroFor(q.mode), q.hi);
      }
      AtomicShape(NoZero, Once, RepeatedGroup(g, q.lo, q.hi, q.mode));
    }
  }

  lemma {:induction false} AtomShape(atom: Atom, q: Quantifier, bc: nat)
    ensures WellShaped(AtomCode(atom, q, bc))
    decreases atom, 1
  {
    match atom
    case Chars(sel) => CharsShape(sel, q);
    case Parens(cap, alts) =>
      PatternShape(alts, if cap then bc + 1 else bc);
      GroupShape(PieceOf(cap, alts, bc), q);
  }

  lemma {:induction false} BranchShape(b: Branch, bc: nat)
    ensures WellShaped(BranchCode(b, bc))
    decreases b, 0
  {
    match b
    case Empty =>
    case Item(atom, q, rest) =>
      AtomShape(atom, q, bc);
      BranchShape(rest, bc + AtomCaptures(atom));
      CatShape(AtomCode(atom, q, bc), BranchCode(rest, bc + AtomCaptures(atom)));
    case AnchorItem(a, rest) =>
      BranchShape(rest, bc);
  }

  /** The compiler's output, whatever the pattern. */
  lemma {:induction false} PatternShape(p: Pattern, bc: nat)
    ensures WellShapedAlts(PatternCode(p, bc))
    decreases p, 0
  {
    BranchShape(p.b, bc);
    if p.OrElse? {
      PatternShape(p.others, bc + BranchCaptures(p.b));
    }
  }

  // ----- which patterns match the empty string -----

  /** Every item of some branch may be absent or matches the empty string itself. */
  predicate EmptyPattern(p: Pattern)
    decreases p, 0
  {
    EmptyBranch(p.b) || (p.OrElse? && EmptyPattern(p.others))
  }

  predicate EmptyBranch(b: Branch)
    decreases b, 0
  {
    match b
    case Empty => true
    case Item(atom, q, rest) => EmptyItem(atom, q) && EmptyBranch(rest)
    case AnchorItem(_, rest) => EmptyBranch(rest)
  }

  predicate EmptyItem(atom: Atom, q: Quantifier)
    decreases atom, 1
  {
    (q.Quant? && q.lo == 0) || (atom.Parens? && EmptyPattern(atom.alts))
  }

  lemma {:induction false} CatEmpty(a: Code, b: Code)
    ensures CouldBeEmpty(Cat(a, b)) <==> CouldBeEmpty(a) && CouldBeEmpty(b)
    decreases a
  {
    if a.Cons? {
      CatEmpty(a.next, b);
    }
  }

  lemma {:induction false} CopiesEmpty(g: Piece, n: nat, tail: Code)
    ensures CouldBeEmpty(Copies(g, n, tail)) <==> (n == 0 || AltsCouldBeEmpty(g.body)) && CouldBeEmpty(tail)
    decreases n
  {
    if n > 0 {
      CopiesEmpty(g, n - 1, tail);
    }
  }

  lemma OptionalEmpty(g: Piece, zero: Zero, n: nat)
    requires zero != NoZero
    ensures CouldBeEmpty(Optional(g, zero, n))
  {
    assert CouldBeEmpty(Nil);
  }

  lemma RepeatedEmpty(g: Piece, lo: u16, hi: int, mode: Mode)
    requires hi == -1 || lo <= hi
    ensures CouldBeEmpty(RepeatedGroup(g, lo, hi, mode)) <==> lo == 0 || AltsCouldBeEmpty(g.body)
  {
    assert CouldBeEmpty(Nil);
    if hi == -1 {
      var loop := Single(LoopGroup(g, NoZero, mode));
      assert CouldBeEmpty(loop) <==> AltsCouldBeEmpty(g.body);
      if lo > 0 {
        CopiesEmpty(g, lo - 1, loop);
      }
    } else {
      OptionalEmpty(g, ZeroFor(mode), hi - lo);
      CopiesEmpty(g, lo, Optional(g, ZeroFor(mode), hi - lo));
    }
  }

  lemma {:induction false} AtomEmpty(atom: Atom, q: Quantifier, bc: nat)
    ensures CouldBeEmpty(AtomCode(atom, q, bc)) <==> EmptyItem(atom, q)
    decreases atom, 1
  {
    assert CouldBeEmpty(Nil);
    match atom
    case Chars(sel) => CharsEmpty(sel, q);
    case Parens(cap, alts) =>
      var g := PieceOf(cap, alts, bc);
      CodeEmpty(alts, if cap then bc + 1 else bc);
      assert CouldBeEmpty(Single(PlainGroup(g, NoZero))) <==> AltsCouldBeEmpty(g.body);
      if q.Quant? {
        var c := RepeatedGroup(g, q.lo, q.hi, q.mode);
        RepeatedEmpty(g, q.lo, q.hi, q.mode);
        assert AltsCouldBeEmpty(Last(c)) <==> CouldBeEmpty(c);
        assert CouldBeEmpty(Atomic(c)) <==> AltsCouldBeEmpty(Last(c));
      }
  }

  lemma CharsEmpty(sel: Sel, q: Quantifier)
    ensures CouldBeEmpty(if sel.Set? then ClassCode(sel, q) else CharCode(sel, q)) <==> q.Quant? && q.lo == 0
  {
    assert CouldBeEmpty(Nil);
    var c := if sel.Set? then ClassCode(sel, q) else CharCode(sel, q);
    if c.Cons? && c.item.Group? {
      assert !ItemCouldBeEmpty(c.item.body.code.item);
      assert !AltsCouldBeEmpty(c.item.body);
    }
  }

  lemma {:induction false} BranchCodeEmpty(b: Branch, bc: nat)
    ensures CouldBeEmpty(BranchCode(b, bc)) <==> EmptyBranch(b)
    decreases b, 0
  {
    match b
    case Empty =>
    case Item(atom, q, rest) =>
      AtomEmpty(atom, q, bc);
      BranchCodeEmpty(rest, bc + AtomCaptures(atom));
      CatEmpty(AtomCode(atom, q, bc), BranchCode(rest, bc + AtomCaptures(atom)));
    case AnchorItem(_, rest) => BranchCodeEmpty(rest, bc);
  }

  /** The code of just those patterns is found to match nothing. */
  lemma {:induction false} CodeEmpty(p: Pattern, bc: nat)
    ensures AltsCouldBeEmpty(PatternCode(p, bc)) <==> EmptyPattern(p)
    decreases p, 0
  {
    BranchCodeEmpty(p.b, bc);
    if p.OrElse? {
      CodeEmpty(p.others, bc + BranchCaptures(p.b));
    }
  }

  lemma {:induction false} EmptyTimes(a: Atom, n: nat)
    requires n == 0 || AtomSpan(a, [], 0, 0)
    ensures Times(a, n, [], 0, 0)
    decreases n
  {
    if n > 0 {
      EmptyTimes(a, n - 1);
      TimesJoin(a, n - 1, [], 0, 0, 0);
    }
  }

  lemma {:induction false} EmptyItemExactly(a: Atom, q: Quantifier)
    ensures EmptyItem(a, q) <==> QuantSpan(a, q, [], 0, 0)
    decreases a, 1
  {
    var s: Subject := [];
    if a.Parens? {
      EmptyExactlyIn(a.alts);
    }
    if EmptyItem(a, q) {
      var n := if q.Quant? then q.lo else 1;
      EmptyTimes(a, n);
      assert Allows(q, n) && Times(a, n, s, 0, 0);
    } else if QuantSpan(a, q, s, 0, 0) {
      var n: nat :| Allows(q, n) && Times(a, n, s, 0, 0);
      var m := TimesSplit(a, n, s, 0, 0);
      TimesBounds(a, n - 1, s, m, 0);
    }
  }

  lemma {:induction false} EmptyBranchExactly(b: Branch)
    ensures EmptyBranch(b) <==> BranchSpan(b, [], 0, 0)
    decreases b, 0
  {
    var s: Subject := [];
    match b
    case Empty =>
    case Item(atom, q, rest) =>
      EmptyItemExactly(atom, q);
      EmptyBranchExactly(rest);
      if BranchSpan(b, s, 0, 0) {
        var m := BranchSplit(b, s, 0, 0);
        BranchBounds(rest, s, m, 0);
      }
    case AnchorItem(_, rest) => EmptyBranchExactly(rest);
  }

  /** They are the patterns that match the empty string. */
  lemma {:induction false} EmptyExactlyIn(p: Pattern)
    ensures EmptyPattern(p) <==> PatternSpan(p, [], 0, 0)
    decreases p, 0
  {
    EmptyBranchExactly(p.b);
    if p.OrElse? {
      EmptyExactlyIn(p.others);
    }
  }

  /** A group that is repeated without limit is marked exactly when the pattern inside it
      matches the empty string. */
  lemma LoopMark(cap: bool, alts: Pattern, bc: nat, zero: Zero, mode: Mode)
    ensures var it := LoopGroup(PieceOf(cap, alts, bc), zero, mode);
            it.Group? && it.bra.Paren? && (it.bra.s <==> PatternSpan(alts, [], 0, 0))
  {
    CodeEmpty(alts, if cap then bc + 1 else bc);
    EmptyExactlyIn(alts);
  }

  /** An unlimited group of compiled code that can go round without consuming anything
      carries the S mark, which makes the matcher stop it. */
  lemma {:induction false} OnlyMarkedGroupsLoop(it: Bytecode.Item, s: Subject, i: nat)
    requires it.Group? && it.bra.Paren? && it.ket != Ket && Marked(Cons(it, Nil))
    requires AltsSpan(it.body, s, i, i)
    ensures it.bra.s
  {
    AltsEmptyExactly(it.body);
    if !it.bra.s {
      PassConsumes(it.body, s, i, i);
    }
  }
}
