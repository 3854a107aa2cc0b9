/** Compiled code has its brackets in pairs, before and after optimisation, so that the
    matcher on bytes does what the one on trees does. */
module Pairing {
  import opened Opcodes
  import opened Bytecode
  import opened Matching
  import opened Machine
  import opened Pattern
  import opened Translation
  import opened Reference
  import opened Ordered
  import opened OrderedSpan
  import opened AutoPossess
  import opened Preference
  import opened Matcher

  lemma {:induction false} CatPaired(a: Code, b: Code)
    requires Paired(a) && Paired(b)
    ensures Paired(Cat(a, b))
    decreases a
  {
    if a.Cons? {
      CatPaired(a.next, b);
    }
  }

  lemma CharsPaired(sel: Sel, q: Quantifier)
    ensures Paired(if sel.Set? then ClassCode(sel, q) else CharCode(sel, q))
  {
    var c := if sel.Set? then ClassCode(sel, q) else CharCode(sel, q);
    assert Paired(Nil);
    if c.Cons? && c.item.Group? {
      var inner := c.item.body.code;
      assert Paired(inner.next) && Paired(inner);
    } else if c.Cons? && c.next.Cons? {
      assert Paired(c.next);
    }
  }

  lemma {:induction false} CopiesPaired(g: Piece, n: nat, tail: Code)
    requires PairedBranches(g.body) && Paired(tail)
    ensures Paired(Copies(g, n, tail))
    decreases n
  {
    if n > 0 {
      CopiesPaired(g, n - 1, tail);
    }
  }

  lemma {:induction false} OptionalPaired(g: Piece, zero: Zero, n: nat)
    requires PairedBranches(g.body)
    ensures Paired(Optional(g, zero, n))
    decreases n
  {
    assert Paired(Nil);
    if n > 1 {
      OptionalPaired(g, zero, n - 1);
      var inner := Cons(PlainGroup(g, NoZero), Optional(g, zero, n - 1));
      assert Paired(inner) && PairedBranches(Last(inner));
    }
  }

  lemma RepeatedPaired(g: Piece, q: Quantifier)
    requires PairedBranches(g.body) && q.Quant?
    ensures Paired(RepeatedGroup(g, q.lo, q.hi, q.mode))
  {
    assert Paired(Nil);
    if q.lo > 0 && q.hi == -1 {
      CopiesPaired(g, q.lo - 1, Single(LoopGroup(g, NoZero, q.mode)));
    } else if q.lo > 0 {
      OptionalPaired(g, ZeroFor(q.mode), q.hi - q.lo);
      CopiesPaired(g, q.lo, Optional(g, ZeroFor(q.mode), q.hi - q.lo));
    } else if q.hi > 0 {
      OptionalPaired(g, ZeroFor(q.mode), q.hi);
    }
  }

  lemma GroupPaired(g: Piece, q: Quantifier)
    requires PairedBranches(g.body)
    ensures Paired(GroupCode(g, q))
  {
    assert Paired(Nil);
    if q.Quant? {
      RepeatedPaired(g, q);
      assert PairedBranches(Last(RepeatedGroup(g, q.lo, q.hi, q.mode)));
    }
  }

  lemma {:induction false} BranchPaired(b: Branch, bc: nat)
    ensures Paired(BranchCode(b, bc))
    decreases b, 0
  {
    match b
    case Empty =>
    case Item(atom, q, rest) =>
      BranchPaired(rest, bc + AtomCaptures(atom));
      if atom.Chars? {
        CharsPaired(atom.sel, q);
      } else {
        PatternPaired(atom.alts, if atom.cap then bc + 1 else bc);
        GroupPaired(PieceOf(atom.cap, atom.alts, bc), q);
      }
      CatPaired(AtomCode(atom, q, bc), BranchCode(rest, bc + AtomCaptures(atom)));
    case AnchorItem(a, rest) =>
      BranchPaired(rest, bc);
  }

  lemma {:induction false} PatternPaired(p: Pattern, bc: nat)
    ensures PairedBranches(PatternCode(p, bc))
    decreases p, 0
  {
    BranchPaired(p.b, bc);
    if p.OrElse? {
      PatternPaired(p.others, bc + BranchCaptures(p.b));
    }
  }

  lemma {:induction false} AutoPaired(c: Code, ctx: Ctx)
    requires Paired(c)
    ensures Paired(AutoCode(c, ctx))
    decreases c
  {
    if c.Cons? {
      AutoPaired(c.next, ctx);
      if c.item.Group? {
        AutoPairedBranches(c.item.body, In(Bare(c.item), c.next, ctx));
      }
    }
  }

  lemma {:induction false} AutoPairedBranches(alts: Alts, ctx: Ctx)
    requires PairedBranches(alts)
    ensures PairedBranches(AutoBranches(alts, ctx))
    decreases alts
  {
    AutoPaired(alts.code, ctx);
    if alts.More? {
      AutoPairedBranches(alts.rest, ctx);
    }
  }

  /** The bytes that compilation leaves for a pattern find what the optimised tree finds. */
  lemma CompiledFinds(code: seq<byte>, p: Pattern, s: Subject, pos: nat)
    requires ProgramAt(code, AutoProgram(PatternCode(p, 0))) && pos <= |s|
    ensures MatchAt(code, s, pos) == FirstMatch(AutoProgram(PatternCode(p, 0)), s, pos)
  {
    var alts := PatternCode(p, 0);
    PatternPaired(p, 0);
    AutoPairedBranches(alts, In(Top(alts), Nil, AtEnd));
    BytesFind(code, AutoProgram(alts), s, pos);
  }

  /** The bytes that the second pass leaves for a pattern find its most preferred way. */
  lemma BytesPrefer(code: seq<byte>, p: Pattern, s: Subject, pos: nat)
    requires ProgramAt(code, PatternCode(p, 0)) && pos <= |s|
    ensures MatchAt(code, s, pos) == PatternFirst(p, s, pos)
  {
    PatternPaired(p, 0);
    BytesFind(code, PatternCode(p, 0), s, pos);
    CodePrefers(p, s, pos);
  }

  /** What the matcher finds is a run of the byte machine; in code without atomic and
      possessive parts it finds one wherever there is one. */
  lemma FoundIsRun(code: seq<byte>, alts: Alts, s: Subject, pos: nat)
    requires ProgramAt(code, alts) && PairedBranches(alts) && pos <= |s|
    ensures var r := MatchAt(code, s, pos); r.Match? ==> Runs(code, s, pos, r.end)
    ensures FreeBranches(alts) && (exists e: nat :: Runs(code, s, pos, e)) ==> MatchAt(code, s, pos).Match?
  {
    hide Runs, MatchAt, FirstMatch;
    BytesFind(code, alts, s, pos);
    if FirstMatch(alts, s, pos).Match? {
      FirstMatchIsMatch(alts, s, pos);
      RunsAreSpans(code, alts, s, pos, FirstMatch(alts, s, pos).end);
    }
    if FreeBranches(alts) {
      forall e: nat | Runs(code, s, pos, e) ensures FirstMatch(alts, s, pos).Match? {
        RunsAreSpans(code, alts, s, pos, e);
        FirstMatchExists(alts, s, pos, e);
      }
    }
  }
}
