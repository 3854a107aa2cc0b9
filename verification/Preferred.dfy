/** What compiling and auto-possessification together promise about the match found
    first. */
module Preferred {
  import opened Bytecode
  import opened Matching
  import opened Machine
  import opened Pattern
  import opened Translation
  import opened Meaning
  import opened Ordered
  import opened AutoPossess
  import opened OrderedSpan
  import opened FirstChar
  import opened Anchoring
  import opened AnchoredFirst
  import opened Preference

  lemma {:induction false} CatFree(a: Code, b: Code)
    requires Free(a) && Free(b)
    ensures Free(Cat(a, b))
    decreases a
  {
    if a.Cons? {
      CatFree(a.next, b);
    }
  }

  lemma CharsFree(sel: Sel, q: Quantifier)
    requires q.Quant? ==> q.mode != Possessive
    ensures Free(if sel.Set? then ClassCode(sel, q) else CharCode(sel, q))
  {
    var c := if sel.Set? then ClassCode(sel, q) else CharCode(sel, q);
    assert Free(Nil);
    if c.Cons? && c.next.Cons? {
      assert Free(c.next);
    }
  }

  lemma {:induction false} CopiesFree(g: Piece, n: nat, tail: Code)
    requires FreeBranches(g.body) && Free(tail)
    ensures Free(Copies(g, n, tail))
    decreases n
  {
    if n > 0 {
      CopiesFree(g, n - 1, tail);
    }
  }

  lemma {:induction false} OptionalFree(g: Piece, zero: Zero, n: nat)
    requires FreeBranches(g.body) && zero != BraPosZero
    ensures Free(Optional(g, zero, n))
    decreases n
  {
    assert Free(Nil);
    if n > 1 {
      OptionalFree(g, zero, n - 1);
      var inner := Cons(PlainGroup(g, NoZero), Optional(g, zero, n - 1));
      assert Free(inner);
      assert FreeBranches(Last(inner));
    }
  }

  lemma GroupFree(g: Piece, q: Quantifier)
    requires FreeBranches(g.body) && (q.Quant? ==> q.mode != Possessive)
    ensures Free(GroupCode(g, q))
  {
    assert Free(Nil);
    if q.Quant? {
      if q.lo > 0 && q.hi == -1 {
        CopiesFree(g, q.lo - 1, Single(LoopGroup(g, NoZero, q.mode)));
      } else if q.lo > 0 {
        OptionalFree(g, ZeroFor(q.mode), q.hi - q.lo);
        CopiesFree(g, q.lo, Optional(g, ZeroFor(q.mode), q.hi - q.lo));
      } else if q.hi > 0 {
        OptionalFree(g, ZeroFor(q.mode), q.hi);
      }
    }
  }

  lemma {:induction false} BranchFree(b: Branch, bc: nat)
    requires BranchBacktracks(b)
    ensures Free(BranchCode(b, bc))
    decreases b, 0
  {
    match b
    case Empty =>
    case Item(atom, q, rest) =>
      BranchFree(rest, bc + AtomCaptures(atom));
      if atom.Chars? {
        CharsFree(atom.sel, q);
      } else {
        PatternFree(atom.alts, if atom.cap then bc + 1 else bc);
        GroupFree(PieceOf(atom.cap, atom.alts, bc), q);
      }
      CatFree(AtomCode(atom, q, bc), BranchCode(rest, bc + AtomCaptures(atom)));
    case AnchorItem(a, rest) =>
      BranchFree(rest, bc);
  }

  lemma {:induction false} PatternFree(p: Pattern, bc: nat)
    requires Backtracks(p)
    ensures FreeBranches(PatternCode(p, bc))
    decreases p, 0
  {
    BranchFree(p.b, bc);
    if p.OrElse? {
      PatternFree(p.others, bc + BranchCaptures(p.b));
    }
  }

  // ----- code without atomic and possessive groups is fair -----

  /** So are the groups around, out to the first that keeps its first way, if there is one. */
  predicate FreeCtx(ctx: Ctx)
  {
    ctx.In? ==> ctx.it.Group? && (Keeps(ctx.it) || (Free(ctx.next) && FreeCtx(ctx.up)))
  }

  /** In such code the test enters no group whose end could stop it. */
  lemma {:induction false} FreeThrough(c: Code, ctx: Ctx, base: Base, entered: bool)
    requires Compare(c, ctx, base, entered) && Free(c) && FreeCtx(ctx)
    ensures Through(c, ctx, base.sel)
    decreases Size(c) + CtxSize(ctx), 0
  {
    HeadSize(c);
    match c
    case Nil =>
      if ctx.In? && !Keeps(ctx.it) {
        FreeThrough(ctx.next, ctx.up, base, entered);
      }
    case Cons(Many(_, rep), next) =>
      if RepMin(rep) == 0 {
        FreeThrough(next, ctx, base, entered);
      }
    case Cons(Group(zero, _, _, body, _), next) =>
      if zero != NoZero {
        FreeThrough(next, ctx, base, false);
      }
      FreeThroughBranches(body, In(Bare(c.item), next, ctx), base);
    case _ =>
  }

  lemma {:induction false} FreeThroughBranches(alts: Alts, ctx: Ctx, base: Base)
    requires CompareBranches(alts, ctx, base) && FreeBranches(alts) && FreeCtx(ctx)
    ensures ThroughBranches(alts, ctx, base.sel)
    decreases AltsSize(alts) + CtxSize(ctx), 1
  {
    FreeThrough(alts.code, ctx, base, alts.Last?);
    if alts.More? {
      FreeThroughBranches(alts.rest, ctx, base);
    }
  }

  lemma {:induction false} FreeFair(c: Code, ctx: Ctx)
    requires Free(c) && FreeCtx(ctx)
    ensures Fair(c, ctx)
    decreases c, 0
  {
    if c.Cons? {
      FreeFair(c.next, ctx);
      if c.item.Many? && AutoRepeat(c.item.sel, c.item.rep, c.next, ctx) != c.item.rep {
        AutoRepeatKeeps(c.item.sel, c.item.rep, c.next, ctx);
        FreeThrough(c.next, ctx, Base(c.item.sel, RepMode(c.item.rep) == Greedy), false);
      }
      if c.item.Group? {
        FreeFairBranches(c.item.body, In(Bare(c.item), c.next, ctx));
      }
    }
  }

  lemma {:induction false} FreeFairBranches(alts: Alts, ctx: Ctx)
    requires FreeBranches(alts) && FreeCtx(ctx)
    ensures FairBranches(alts, ctx)
    decreases alts, 0
  {
    FreeFair(alts.code, ctx);
    if alts.More? {
      FreeFairBranches(alts.rest, ctx);
    }
  }

  // ----- the optimised code matches no more than the code before -----

  lemma {:induction false} AutoSpan(c: Code, ctx: Ctx, s: Subject, i: nat, j: nat)
    requires Span(AutoCode(c, ctx), s, i, j)
    ensures Span(c, s, i, j)
    decreases c, 0
  {
    if c.Cons? {
      var m := SpanSplit(AutoCode(c, ctx), s, i, j);
      AutoItemSpan(c.item, c.next, ctx, s, i, m);
      AutoSpan(c.next, ctx, s, m, j);
      SpanJoin(c.item, c.next, s, i, m, j);
    }
  }

  lemma {:induction false} AutoItemSpan(it: Bytecode.Item, next: Code, ctx: Ctx, s: Subject, i: nat, j: nat)
    requires ItemSpan(AutoItem(it, next, ctx), s, i, j)
    ensures ItemSpan(it, s, i, j)
    decreases it, 1
  {
    if it.Many? {
      AutoRepeatKeeps(it.sel, it.rep, next, ctx);
    } else if it.Group? && !(it.zero != NoZero && i == j <= |s|) {
      var inner := In(Bare(it), next, ctx);
      if it.ket == Ket {
        AutoAltsSpan(it.body, inner, s, i, j);
      } else {
        assert GroupSpan(AutoBranches(it.body, inner), it.ket, s, i, j);
        var n: nat :| n >= 1 && Iterate(AutoBranches(it.body, inner), n, s, i, j);
        AutoIterate(it.body, inner, n, s, i, j);
      }
    }
  }

  lemma {:induction false} AutoIterate(body: Alts, ctx: Ctx, n: nat, s: Subject, i: nat, j: nat)
    requires Iterate(AutoBranches(body, ctx), n, s, i, j)
    ensures Iterate(body, n, s, i, j)
    decreases body, 1, n
  {
    if n > 0 {
      var m := IterateSplit(AutoBranches(body, ctx), n, s, i, j);
      AutoAltsSpan(body, ctx, s, i, m);
      AutoIterate(body, ctx, n - 1, s, m, j);
      IterateJoin(body, n - 1, s, i, m, j);
    }
  }

  lemma {:induction false} AutoAltsSpan(alts: Alts, ctx: Ctx, s: Subject, i: nat, j: nat)
    requires AltsSpan(AutoBranches(alts, ctx), s, i, j)
    ensures AltsSpan(alts, s, i, j)
    decreases alts, 0
  {
    if Span(AutoCode(alts.code, ctx), s, i, j) {
      AutoSpan(alts.code, ctx, s, i, j);
    } else {
      AutoAltsSpan(alts.rest, ctx, s, i, j);
    }
  }

  // ----- what a search finds -----

  /** What the optimised code finds is a match of the pattern. It is what the code before
      would find, with the same captures, if the program is fair to the optimisation. Without
      possessive quantifiers it always is, and the optimised code finds a match wherever the
      pattern has one. */
  lemma OptimisedMatch(p: Pattern, s: Subject, pos: nat)
    requires pos <= |s|
    ensures var r := FirstMatch(AutoProgram(PatternCode(p, 0)), s, pos);
            && (r.Match? ==> PatternSpan(p, s, pos, r.end))
            && (FairProgram(PatternCode(p, 0)) ==> r == FirstMatch(PatternCode(p, 0), s, pos))
            && (Backtracks(p) ==> FairProgram(PatternCode(p, 0)))
            && (Backtracks(p) && r.NoMatch? ==> forall e: nat :: !PatternSpan(p, s, pos, e))
  {
    var alts := PatternCode(p, 0);
    var r := FirstMatch(AutoProgram(alts), s, pos);
    if r.Match? {
      FirstMatchIsMatch(AutoProgram(alts), s, pos);
      AutoAltsSpan(alts, In(Top(alts), Nil, AtEnd), s, pos, r.end);
      PatternCorrect(p, 0, s, pos, r.end);
    }
    if FairProgram(alts) {
      AutoPossessionIsInvisible(alts, s, pos);
    }
    if Backtracks(p) {
      PatternFree(p, 0);
      FreeFairBranches(alts, In(Top(alts), Nil, AtEnd));
      forall e: nat ensures r.NoMatch? ==> !PatternSpan(p, s, pos, e) {
        PatternCorrect(p, 0, s, pos, e);
        if AltsSpan(alts, s, pos, e) {
          FirstMatchExists(alts, s, pos, e);
          AutoPossessionIsInvisible(alts, s, pos);
        }
      }
    }
  }

  /** The two meanings of a pattern agree: its most preferred way is a match of the relation,
      and without possessive quantifiers it has a way wherever the relation has a match. */
  lemma MeaningsAgree(p: Pattern, s: Subject, pos: nat)
    requires pos <= |s|
    ensures var r := PatternFirst(p, s, pos);
            && (r.Match? ==> PatternSpan(p, s, pos, r.end))
            && (Backtracks(p) && r.NoMatch? ==> forall e: nat :: !PatternSpan(p, s, pos, e))
  {
    hide FirstMatch, PatternFirst, FairProgram, AutoProgram;
    var alts := PatternCode(p, 0);
    CodePrefers(p, s, pos);
    if FirstMatch(alts, s, pos).Match? {
      FirstMatchIsMatch(alts, s, pos);
      PatternCorrect(p, 0, s, pos, FirstMatch(alts, s, pos).end);
    }
    OptimisedMatch(p, s, pos);
  }

  /** The tests for anchored patterns run on the optimised code and say the same there. */
  lemma {:induction false} AutoTied(test: Test, alts: Alts, ctx: Ctx, kept: bool)
    ensures Tied(test, AutoBranches(alts, ctx), kept) == Tied(test, alts, kept)
    ensures Begins(test, AutoBranches(alts, ctx), kept) == Begins(test, alts, kept)
    decreases alts
  {
    AutoBranchTied(test, alts.code, ctx, kept);
    if alts.More? {
      AutoTied(test, alts.rest, ctx, kept);
    }
  }

  lemma {:induction false} AutoBranchTied(test: Test, c: Code, ctx: Ctx, kept: bool)
    ensures BranchTied(test, AutoCode(c, ctx), kept) == BranchTied(test, c, kept)
    ensures BranchBegins(test, AutoCode(c, ctx), kept) == BranchBegins(test, c, kept)
    decreases c
  {
    if c.Cons? && c.item.Group? {
      AutoTied(test, c.item.body, In(Bare(c.item), c.next, ctx), kept || c.item.bra.Once?);
      AutoTied(test, c.item.body, In(Bare(c.item), c.next, ctx), kept || Keeps(c.item));
    }
  }

  /** What a test lets through without good reason has a group that is repeated
      possessively. */
  lemma {:induction false} TiedBegins(test: Test, alts: Alts, kept: bool)
    ensures Begins(test, alts, kept) ==> Tied(test, alts, kept)
    ensures FreeBranches(alts) && Tied(test, alts, kept) ==> Begins(test, alts, kept)
    decreases alts
  {
    if alts.code.Cons? && alts.code.item.Group? {
      var it := alts.code.item;
      TiedBegins(test, it.body, kept || Keeps(it));
      BeginsMono(test, it.body, kept || it.bra.Once?, kept || Keeps(it));
      TiedBegins(test, it.body, kept || it.bra.Once?);
    }
    assert BranchBegins(test, alts.code, kept) ==> BranchTied(test, alts.code, kept);
    assert Free(alts.code) && BranchTied(test, alts.code, kept) ==> BranchBegins(test, alts.code, kept);
    if alts.More? {
      TiedBegins(test, alts.rest, kept);
    }
  }

  lemma {:induction false} BeginsMono(test: Test, alts: Alts, a: bool, b: bool)
    requires a ==> b
    ensures Begins(test, alts, b) ==> Begins(test, alts, a)
    decreases alts
  {
    if alts.code.Cons? && alts.code.item.Group? {
      BeginsMono(test, alts.code.item.body, a || Keeps(alts.code.item), b || Keeps(alts.code.item));
    }
    if alts.More? {
      BeginsMono(test, alts.rest, a, b);
    }
    assert BranchBegins(test, alts.code, b) ==> BranchBegins(test, alts.code, a);
  }

  /** When no .* counts inside a group that keeps its first way, what is found anywhere could
      be found from wherever the leading .* could have begun. For patterns without
      possessive quantifiers that is what the test decides. */
  lemma TiedSearch(test: Test, p: Pattern, s: Subject, base: nat, pos: nat)
    requires Covered(test, s, base, pos) && FirstMatch(AutoProgram(PatternCode(p, 0)), s, pos).Match?
    ensures Begins(test, PatternCode(p, 0), false) ==>
              && FirstMatch(AutoProgram(PatternCode(p, 0)), s, base).Match?
              && Tied(test, AutoProgram(PatternCode(p, 0)), false)
    ensures Backtracks(p) && Tied(test, AutoProgram(PatternCode(p, 0)), false) ==> Begins(test, PatternCode(p, 0), false)
  {
    var alts := PatternCode(p, 0);
    AutoTied(test, alts, In(Top(alts), Nil, AtEnd), false);
    TiedBegins(test, alts, false);
    if Begins(test, alts, false) {
      FirstBegins(test, AutoProgram(alts), s, base, pos);
    }
    if Backtracks(p) {
      PatternFree(p, 0);
    }
  }

  /** Where something is found, the recorded characters are found too: a search may skip
      every position where they are not. */
  lemma RecordedSearch(p: Pattern, s: Subject, pos: nat)
    requires pos <= |s| && FirstMatch(AutoProgram(PatternCode(p, 0)), s, pos).Match?
    ensures var m := PatternSummary(p, false); FirstOk(m.first, s, pos, |s|) && ReqOk(m.req, m.first, s, pos, |s|)
  {
    hide PatternSummary;
    OptimisedMatch(p, s, pos);
    var r := FirstMatch(AutoProgram(PatternCode(p, 0)), s, pos);
    PatternSound(p, false, s, pos, r.end);
    PatternBounds(p, s, pos, r.end);
  }
}
