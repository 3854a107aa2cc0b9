/** Compilation preserves meaning: the tree built for a pattern denotes the same
    stretches of every subject as the pattern itself. */
module Meaning {
  import opened Opcodes
  import opened Bytecode
  import opened Matching
  import opened Machine
  import opened Pattern
  import opened Translation

  // ----- single characters -----

  lemma SingleSpan(it: Item, s: Subject, i: nat, j: nat)
    ensures Span(Single(it), s, i, j) <==> ItemSpan(it, s, i, j)
  {
    if Span(Single(it), s, i, j) {
      var m := SpanSplit(Single(it), s, i, j);
    }
    if ItemSpan(it, s, i, j) {
      ItemBounds(it, s, i, j);
      SpanJoin(it, Nil, s, i, j, j);
    }
  }

  /** Two repeats of the same character in a row. */
  lemma PairSpan(sel: Sel, n: pos16, rep: Rep, s: Subject, i: nat, j: nat)
    requires RepMode(rep) != Possessive && RepMin(rep) == 0
    ensures Span(Cons(Many(sel, Exact(n)), Single(Many(sel, rep))), s, i, j) <==>
            Run(sel, s, i, j) && n <= j - i && CountOk(rep, j - i - n)
  {
    var c := Cons(Many(sel, Exact(n)), Single(Many(sel, rep)));
    if Span(c, s, i, j) {
      var m := SpanSplit(c, s, i, j);
      SingleSpan(Many(sel, rep), s, m, j);
    }
    if Run(sel, s, i, j) && n <= j - i && CountOk(rep, j - i - n) {
      SingleSpan(Many(sel, rep), s, i + n, j);
      SpanJoin(c.item, c.next, s, i, i + n, j);
    }
  }

  lemma OneThenSpan(sel: Sel, rep: Rep, s: Subject, i: nat, j: nat)
    requires RepMode(rep) != Possessive && RepMin(rep) == 0
    ensures Span(Cons(One(sel), Single(Many(sel, rep))), s, i, j) <==>
            Run(sel, s, i, j) && 1 <= j - i && CountOk(rep, j - i - 1)
  {
    var c := Cons(One(sel), Single(Many(sel, rep)));
    if Span(c, s, i, j) {
      var m := SpanSplit(c, s, i, j);
      SingleSpan(Many(sel, rep), s, m, j);
    }
    if Run(sel, s, i, j) && 1 <= j - i && CountOk(rep, j - i - 1) {
      SingleSpan(Many(sel, rep), s, i + 1, j);
      SpanJoin(c.item, c.next, s, i, i + 1, j);
    }
  }

  lemma CharCodeSpan(sel: Sel, q: Quantifier, s: Subject, i: nat, j: nat)
    requires !sel.Set? && (q.Quant? ==> q.mode != Possessive)
    ensures Span(CharCode(sel, q), s, i, j) <==> Run(sel, s, i, j) && Allows(q, j - i)
  {
    match q
    case NoQuant => SingleSpan(One(sel), s, i, j);
    case Quant(lo, hi, mode) =>
      var c := CharCode(sel, q);
      if hi == 0 {
      } else if lo == 0 || (lo == 1 && (hi == -1 || hi == 1)) || lo == hi {
        SingleSpan(c.item, s, i, j);
      } else if lo == 1 {
        OneThenSpan(sel, Upto(mode, hi - 1), s, i, j);
      } else {
        PairSpan(sel, lo, OptionalRep(mode, if hi == -1 then -1 else hi - lo), s, i, j);
      }
  }

  lemma ClassCodeSpan(sel: Sel, q: Quantifier, s: Subject, i: nat, j: nat)
    requires sel.Set? && (q.Quant? ==> q.mode != Possessive)
    ensures Span(ClassCode(sel, q), s, i, j) <==> Run(sel, s, i, j) && Allows(q, j - i)
  {
    if ClassCode(sel, q).Cons? {
      SingleSpan(ClassCode(sel, q).item, s, i, j);
    }
  }

  lemma CharsCorrect(sel: Sel, q: Quantifier, bc: nat, s: Subject, i: nat, j: nat)
    requires q.Quant? ==> q.mode != Possessive
    ensures Span(AtomCode(Chars(sel), q, bc), s, i, j) <==> QuantSpan(Chars(sel), q, s, i, j)
  {
    if sel.Set? {
      ClassCodeSpan(sel, q, s, i, j);
    } else {
      CharCodeSpan(sel, q, s, i, j);
    }
    if Run(sel, s, i, j) && Allows(q, j - i) {
      TimesIsRun(sel, j - i, s, i, j);
    }
    if QuantSpan(Chars(sel), q, s, i, j) {
      var n: nat :| Allows(q, n) && Times(Chars(sel), n, s, i, j);
      TimesIsRun(sel, n, s, i, j);
    }
  }

  // ----- groups -----

  lemma {:induction false} IterateAdd(body: Alts, a: nat, b: nat, s: Subject, i: nat, m: nat, j: nat)
    requires Iterate(body, a, s, i, m) && Iterate(body, b, s, m, j)
    ensures Iterate(body, a + b, s, i, j)
    decreases a
  {
    if a > 0 {
      var x := IterateSplit(body, a, s, i, m);
      IterateAdd(body, a - 1, b, s, x, m, j);
      IterateJoin(body, a - 1 + b, s, i, x, j);
    }
  }

  lemma {:induction false} IterateCut(body: Alts, a: nat, b: nat, s: Subject, i: nat, j: nat) returns (m: nat)
    requires Iterate(body, a + b, s, i, j)
    ensures Iterate(body, a, s, i, m) && Iterate(body, b, s, m, j)
    decreases a
  {
    IterateBounds(body, a + b, s, i, j);
    if a == 0 {
      m := i;
    } else {
      var x := IterateSplit(body, a + b, s, i, j);
      m := IterateCut(body, a - 1, b, s, x, j);
      IterateJoin(body, a - 1, s, i, x, m);
    }
  }

  lemma PlainSpan(g: Piece, s: Subject, i: nat, j: nat)
    ensures ItemSpan(PlainGroup(g, NoZero), s, i, j) <==> AltsSpan(g.body, s, i, j)
  {
    assert GroupSpan(g.body, Ket, s, i, j) <==> AltsSpan(g.body, s, i, j);
  }

  lemma {:induction false} CopiesIn(g: Piece, n: nat, tail: Code, s: Subject, i: nat, j: nat) returns (m: nat)
    requires Span(Copies(g, n, tail), s, i, j)
    ensures Iterate(g.body, n, s, i, m) && Span(tail, s, m, j)
    decreases n
  {
    SpanBounds(Copies(g, n, tail), s, i, j);
    if n == 0 {
      m := i;
    } else {
      var x := SpanSplit(Copies(g, n, tail), s, i, j);
      PlainSpan(g, s, i, x);
      m := CopiesIn(g, n - 1, tail, s, x, j);
      IterateJoin(g.body, n - 1, s, i, x, m);
    }
  }

  lemma {:induction false} CopiesOut(g: Piece, n: nat, tail: Code, s: Subject, i: nat, m: nat, j: nat)
    requires Iterate(g.body, n, s, i, m) && Span(tail, s, m, j)
    ensures Span(Copies(g, n, tail), s, i, j)
    decreases n
  {
    if n > 0 {
      var x := IterateSplit(g.body, n, s, i, m);
      PlainSpan(g, s, i, x);
      CopiesOut(g, n - 1, tail, s, x, m, j);
      SpanJoin(PlainGroup(g, NoZero), Copies(g, n - 1, tail), s, i, x, j);
    }
  }

  /** The nested optional copies stand for any number of passes up to n. */
  lemma {:induction false} OptionalIn(g: Piece, zero: Zero, n: nat, s: Subject, i: nat, j: nat) returns (k: nat)
    requires zero == BraZero || zero == BraMinZero
    requires Span(Optional(g, zero, n), s, i, j)
    ensures k <= n && Iterate(g.body, k, s, i, j)
    decreases n
  {
    SpanBounds(Optional(g, zero, n), s, i, j);
    if i == j {
      k := 0;
    } else {
      var c := Optional(g, zero, n);
      SingleSpan(c.item, s, i, j);
      assert GroupSpan(c.item.body, Ket, s, i, j);
      if n == 1 {
        IterateOnce(g.body, s, i, j);
        k := 1;
      } else {
        var inner := Cons(PlainGroup(g, NoZero), Optional(g, zero, n - 1));
        assert AltsSpan(Last(inner), s, i, j);
        var m := SpanSplit(inner, s, i, j);
        PlainSpan(g, s, i, m);
        var k0 := OptionalIn(g, zero, n - 1, s, m, j);
        IterateJoin(g.body, k0, s, i, m, j);
        k := k0 + 1;
      }
    }
  }

  lemma {:induction false} OptionalOut(g: Piece, zero: Zero, n: nat, k: nat, s: Subject, i: nat, j: nat)
    requires zero == BraZero || zero == BraMinZero
    requires k <= n && Iterate(g.body, k, s, i, j)
    ensures Span(Optional(g, zero, n), s, i, j)
    decreases n
  {
    IterateBounds(g.body, k, s, i, j);
    if n > 0 {
      var c := Optional(g, zero, n);
      if k > 0 {
        var m := IterateSplit(g.body, k, s, i, j);
        if n == 1 {
          assert GroupSpan(g.body, Ket, s, i, j);
        } else {
          PlainSpan(g, s, i, m);
          OptionalOut(g, zero, n - 1, k - 1, s, m, j);
          SpanJoin(PlainGroup(g, NoZero), Optional(g, zero, n - 1), s, i, m, j);
          assert AltsSpan(c.item.body, s, i, j);
          assert GroupSpan(c.item.body, Ket, s, i, j);
        }
      }
      SingleSpan(c.item, s, i, j);
    }
  }

  lemma LoopIn(g: Piece, zero: Zero, mode: Mode, s: Subject, i: nat, j: nat) returns (k: nat)
    requires zero != SkipZero
    requires ItemSpan(LoopGroup(g, zero, mode), s, i, j)
    ensures (zero == NoZero ==> k >= 1) && Iterate(g.body, k, s, i, j)
  {
    if zero != NoZero && i == j <= |s| {
      k := 0;
    } else {
      k := GroupIterates(g.body, LoopGroup(g, zero, mode).ket, s, i, j);
    }
  }

  lemma LoopOut(g: Piece, zero: Zero, mode: Mode, k: nat, s: Subject, i: nat, j: nat)
    requires zero != SkipZero
    requires (zero == NoZero ==> k >= 1) && Iterate(g.body, k, s, i, j)
    ensures ItemSpan(LoopGroup(g, zero, mode), s, i, j)
  {
    IterateBounds(g.body, k, s, i, j);
    if k >= 1 {
      assert GroupSpan(g.body, LoopGroup(g, zero, mode).ket, s, i, j);
    }
  }

  lemma RepeatedIn(g: Piece, lo: u16, hi: int, mode: Mode, s: Subject, i: nat, j: nat) returns (k: nat)
    requires hi == -1 || lo <= hi
    requires Span(RepeatedGroup(g, lo, hi, mode), s, i, j)
    ensures lo <= k && (hi < 0 || k <= hi) && Iterate(g.body, k, s, i, j)
  {
    if lo == 0 {
      if hi == 0 || hi == -1 {
        var it := RepeatedGroup(g, lo, hi, mode).item;
        SingleSpan(it, s, i, j);
        if hi == 0 {
          k := 0;
        } else {
          k := LoopIn(g, it.zero, mode, s, i, j);
        }
      } else {
        k := OptionalIn(g, ZeroFor(mode), hi, s, i, j);
      }
    } else if hi == -1 {
      var m := CopiesIn(g, lo - 1, Single(LoopGroup(g, NoZero, mode)), s, i, j);
      SingleSpan(LoopGroup(g, NoZero, mode), s, m, j);
      var k0 := LoopIn(g, NoZero, mode, s, m, j);
      IterateAdd(g.body, lo - 1, k0, s, i, m, j);
      k := lo - 1 + k0;
    } else {
      var m := CopiesIn(g, lo, Optional(g, ZeroFor(mode), hi - lo), s, i, j);
      var k0 := OptionalIn(g, ZeroFor(mode), hi - lo, s, m, j);
      IterateAdd(g.body, lo, k0, s, i, m, j);
      k := lo + k0;
    }
  }

  lemma RepeatedOut(g: Piece, lo: u16, hi: int, mode: Mode, k: nat, s: Subject, i: nat, j: nat)
    requires hi == -1 || lo <= hi
    requires lo <= k && (hi < 0 || k <= hi) && Iterate(g.body, k, s, i, j)
    ensures Span(RepeatedGroup(g, lo, hi, mode), s, i, j)
  {
    if lo == 0 {
      if hi == 0 || hi == -1 {
        var it := RepeatedGroup(g, lo, hi, mode).item;
        SingleSpan(it, s, i, j);
        if hi == -1 {
          LoopOut(g, it.zero, mode, k, s, i, j);
        }
      } else {
        OptionalOut(g, ZeroFor(mode), hi, k, s, i, j);
      }
    } else if hi == -1 {
      var m := IterateCut(g.body, lo - 1, k - (lo - 1), s, i, j);
      LoopOut(g, NoZero, mode, k - (lo - 1), s, m, j);
      SingleSpan(LoopGroup(g, NoZero, mode), s, m, j);
      CopiesOut(g, lo - 1, Single(LoopGroup(g, NoZero, mode)), s, i, m, j);
    } else {
      var m := IterateCut(g.body, lo, k - lo, s, i, j);
      OptionalOut(g, ZeroFor(mode), hi - lo, k - lo, s, m, j);
      CopiesOut(g, lo, Optional(g, ZeroFor(mode), hi - lo), s, i, m, j);
    }
  }

  // ----- patterns: what the code accepts, the pattern denotes -----

  /** An atomic group can only accept less than what is in it. */
  lemma AtomicIn(c: Code, s: Subject, i: nat, j: nat)
    requires Span(Atomic(c), s, i, j)
    ensures Span(c, s, i, j)
  {
    var it := Group(NoZero, Once, 0, Last(c), Ket);
    SingleSpan(it, s, i, j);
    assert GroupSpan(Last(c), Ket, s, i, j);
    assert AltsSpan(Last(c), s, i, j);
  }

  /** One item of the same character behind another: the counts add up. */
  lemma PairIn(a: Item, b: Item, sel: Sel, s: Subject, i: nat, j: nat) returns (m: nat)
    requires (a == One(sel) || (a.Many? && a.sel == sel)) && b.Many? && b.sel == sel
    requires Span(Cons(a, Single(b)), s, i, j)
    ensures Run(sel, s, i, j) && i <= m <= j && CountOk(b.rep, j - m)
    ensures CountOk(if a.One? then Exact(1) else a.rep, m - i)
  {
    m := SpanSplit(Cons(a, Single(b)), s, i, j);
    SingleSpan(b, s, m, j);
  }

  lemma CharCodeIn(sel: Sel, q: Quantifier, s: Subject, i: nat, j: nat)
    requires !sel.Set? && Span(CharCode(sel, q), s, i, j)
    ensures Run(sel, s, i, j) && Allows(q, j - i)
  {
    if q == NoQuant || q.mode != Possessive {
      CharCodeSpan(sel, q, s, i, j);
    } else if q.hi != 0 {
      var c := CharCode(sel, q);
      if q.lo == 0 || (q.lo == 1 && (q.hi == -1 || q.hi == 1)) || q.lo == q.hi {
        SingleSpan(c.item, s, i, j);
      } else if q.lo == 1 && sel.Type? {
        var pair := Cons(One(sel), Single(Many(sel, Upto(Greedy, q.hi - 1))));
        AtomicIn(pair, s, i, j);
        var m := PairIn(pair.item, pair.next.item, sel, s, i, j);
      } else {
        var m := PairIn(c.item, c.next.item, sel, s, i, j);
      }
    }
  }

  /** Whatever the mode, the code for a repeated character accepts only repeats that the
      quantifier allows. */
  lemma CharsIn(sel: Sel, q: Quantifier, bc: nat, s: Subject, i: nat, j: nat)
    requires Span(AtomCode(Chars(sel), q, bc), s, i, j)
    ensures QuantSpan(Chars(sel), q, s, i, j)
  {
    if sel.Set? {
      if ClassCode(sel, q).Cons? {
        SingleSpan(ClassCode(sel, q).item, s, i, j);
      }
    } else {
      CharCodeIn(sel, q, s, i, j);
    }
    TimesIsRun(sel, j - i, s, i, j);
  }

  lemma {:induction false} TimesIn(cap: bool, alts: Pattern, bc: nat, n: nat, s: Subject, i: nat, j: nat)
    requires Iterate(PatternCode(alts, bc), n, s, i, j)
    ensures Times(Parens(cap, alts), n, s, i, j)
    decreases alts, 1, n
  {
    if n > 0 {
      var m := IterateSplit(PatternCode(alts, bc), n, s, i, j);
      PatternIn(alts, bc, s, i, m);
      TimesIn(cap, alts, bc, n - 1, s, m, j);
      TimesJoin(Parens(cap, alts), n - 1, s, i, m, j);
    }
  }

  lemma {:induction false} GroupIn(cap: bool, alts: Pattern, q: Quantifier, bc: nat, s: Subject, i: nat, j: nat)
    requires Span(GroupCode(PieceOf(cap, alts, bc), q), s, i, j)
    ensures QuantSpan(Parens(cap, alts), q, s, i, j)
    decreases alts, 2
  {
    var g := PieceOf(cap, alts, bc);
    var k := 1;
    if q == NoQuant {
      SingleSpan(PlainGroup(g, NoZero), s, i, j);
      PlainSpan(g, s, i, j);
      IterateOnce(g.body, s, i, j);
    } else {
      if NeedsAtomic(q) {
        AtomicIn(RepeatedGroup(g, q.lo, q.hi, q.mode), s, i, j);
      }
      k := RepeatedIn(g, q.lo, q.hi, q.mode, s, i, j);
    }
    TimesIn(cap, alts, if cap then bc + 1 else bc, k, s, i, j);
  }

  lemma {:induction false} AtomIn(atom: Atom, q: Quantifier, bc: nat, s: Subject, i: nat, j: nat)
    requires Span(AtomCode(atom, q, bc), s, i, j)
    ensures QuantSpan(atom, q, s, i, j)
    decreases atom, 3
  {
    match atom
    case Chars(sel) => CharsIn(sel, q, bc, s, i, j);
    case Parens(cap, alts) => GroupIn(cap, alts, q, bc, s, i, j);
  }

  lemma {:induction false} BranchIn(b: Branch, bc: nat, s: Subject, i: nat, j: nat)
    requires Span(BranchCode(b, bc), s, i, j)
    ensures BranchSpan(b, s, i, j)
    decreases b, 3
  {
    match b
    case Empty =>
    case Item(atom, q, rest) =>
      var c, tail := AtomCode(atom, q, bc), BranchCode(rest, bc + AtomCaptures(atom));
      var m := SpanCatSplit(c, tail, s, i, j);
      AtomIn(atom, q, bc, s, i, m);
      BranchIn(rest, bc + AtomCaptures(atom), s, m, j);
    case AnchorItem(a, rest) =>
      var m := SpanSplit(BranchCode(b, bc), s, i, j);
      BranchIn(rest, bc, s, i, j);
  }

  /** The code of any pattern, possessive quantifiers included, accepts only what the
      pattern denotes. */
  lemma {:induction false} PatternIn(p: Pattern, bc: nat, s: Subject, i: nat, j: nat)
    requires AltsSpan(PatternCode(p, bc), s, i, j)
    ensures PatternSpan(p, s, i, j)
    decreases p, 0
  {
    if Span(BranchCode(p.b, bc), s, i, j) {
      BranchIn(p.b, bc, s, i, j);
    } else {
      PatternIn(p.others, bc + BranchCaptures(p.b), s, i, j);
    }
  }

  // ----- patterns: what the pattern denotes, the code accepts -----

  lemma {:induction false} TimesOut(cap: bool, alts: Pattern, bc: nat, n: nat, s: Subject, i: nat, j: nat)
    requires Backtracks(alts) && Times(Parens(cap, alts), n, s, i, j)
    ensures Iterate(PatternCode(alts, bc), n, s, i, j)
    decreases alts, 1, n
  {
    if n > 0 {
      var m := TimesSplit(Parens(cap, alts), n, s, i, j);
      PatternOut(alts, bc, s, i, m);
      TimesOut(cap, alts, bc, n - 1, s, m, j);
      IterateJoin(PatternCode(alts, bc), n - 1, s, i, m, j);
    }
  }

  lemma {:induction false} GroupOut(cap: bool, alts: Pattern, q: Quantifier, bc: nat, s: Subject, i: nat, j: nat)
    requires Backtracks(alts) && (q.Quant? ==> q.mode != Possessive)
    requires QuantSpan(Parens(cap, alts), q, s, i, j)
    ensures Span(GroupCode(PieceOf(cap, alts, bc), q), s, i, j)
    decreases alts, 2
  {
    var g := PieceOf(cap, alts, bc);
    var k: nat :| Allows(q, k) && Times(Parens(cap, alts), k, s, i, j);
    TimesOut(cap, alts, if cap then bc + 1 else bc, k, s, i, j);
    if q == NoQuant {
      var m := IterateSplit(g.body, 1, s, i, j);
      PlainSpan(g, s, i, j);
      SingleSpan(PlainGroup(g, NoZero), s, i, j);
    } else {
      RepeatedOut(g, q.lo, q.hi, q.mode, k, s, i, j);
    }
  }

  lemma {:induction false} AtomOut(atom: Atom, q: Quantifier, bc: nat, s: Subject, i: nat, j: nat)
    requires (q.Quant? ==> q.mode != Possessive) && (atom.Parens? ==> Backtracks(atom.alts))
    requires QuantSpan(atom, q, s, i, j)
    ensures Span(AtomCode(atom, q, bc), s, i, j)
    decreases atom, 3
  {
    match atom
    case Chars(sel) => CharsCorrect(sel, q, bc, s, i, j);
    case Parens(cap, alts) => GroupOut(cap, alts, q, bc, s, i, j);
  }

  lemma BranchSplit(b: Branch, s: Subject, i: nat, j: nat) returns (m: nat)
    requires b.Item? && BranchSpan(b, s, i, j)
    ensures QuantSpan(b.atom, b.q, s, i, m) && BranchSpan(b.rest, s, m, j)
  {
    m :| QuantSpan(b.atom, b.q, s, i, m) && BranchSpan(b.rest, s, m, j);
  }

  lemma {:induction false} BranchOut(b: Branch, bc: nat, s: Subject, i: nat, j: nat)
    requires BranchBacktracks(b) && BranchSpan(b, s, i, j)
    ensures Span(BranchCode(b, bc), s, i, j)
    decreases b, 3
  {
    match b
    case Empty =>
    case Item(atom, q, rest) =>
      var m := BranchSplit(b, s, i, j);
      AtomOut(atom, q, bc, s, i, m);
      BranchOut(rest, bc + AtomCaptures(atom), s, m, j);
      SpanCatJoin(AtomCode(atom, q, bc), BranchCode(rest, bc + AtomCaptures(atom)), s, i, m, j);
    case AnchorItem(a, rest) =>
      BranchOut(rest, bc, s, i, j);
      SpanJoin(Assert(a), BranchCode(rest, bc), s, i, i, j);
  }

  lemma {:induction false} PatternOut(p: Pattern, bc: nat, s: Subject, i: nat, j: nat)
    requires Backtracks(p) && PatternSpan(p, s, i, j)
    ensures AltsSpan(PatternCode(p, bc), s, i, j)
    decreases p, 0
  {
    if BranchSpan(p.b, s, i, j) {
      BranchOut(p.b, bc, s, i, j);
    } else {
      PatternOut(p.others, bc + BranchCaptures(p.b), s, i, j);
    }
  }

  /** The tree compiled for a pattern accepts only what the pattern denotes, and all of it
      when nothing is possessive. */
  lemma PatternCorrect(p: Pattern, bc: nat, s: Subject, i: nat, j: nat)
    ensures AltsSpan(PatternCode(p, bc), s, i, j) ==> PatternSpan(p, s, i, j)
    ensures Backtracks(p) && PatternSpan(p, s, i, j) ==> AltsSpan(PatternCode(p, bc), s, i, j)
  {
    if AltsSpan(PatternCode(p, bc), s, i, j) {
      PatternIn(p, bc, s, i, j);
    }
    if Backtracks(p) && PatternSpan(p, s, i, j) {
      PatternOut(p, bc, s, i, j);
    }
  }

  /** Running the finished bytes accepts only stretches the pattern denotes, and every one
      of them when nothing is possessive. */
  lemma CompilationPreservesMeaning(code: seq<byte>, p: Pattern, s: Subject, i: nat, j: nat)
    requires ProgramAt(code, PatternCode(p, 0)) && i <= |s|
    ensures Runs(code, s, i, j) ==> PatternSpan(p, s, i, j)
    ensures Backtracks(p) && PatternSpan(p, s, i, j) ==> Runs(code, s, i, j)
  {
    RunsAreSpans(code, PatternCode(p, 0), s, i, j);
    PatternCorrect(p, 0, s, i, j);
  }
}
