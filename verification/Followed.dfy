/** Which repeats become possessive by what stands right behind them: the answers of the test,
    from both sides. */
module Followed {
  import opened Opcodes
  import opened Bytecode
  import opened Matching
  import opened Machine
  import opened Pattern
  import opened Translation
  import opened Ordered
  import opened CharSets
  import opened AutoPossess
  import Newline

  /** The anchor holds in front of no character of the repeat, on any subject. */
  ghost predicate NeverBefore(base: Sel, a: Anchor)
  {
    forall s: Subject, pos: nat :: pos < |s| && Accepts(base, s[pos]) ==> !Holds(a, s, pos)
  }

  /** Classes, negated literals and the dot are not looked into, and in front of $ all newline
      characters count as one. */
  predicate Tells(base: Sel, a: Anchor)
  {
    && (IsList(base) || base.Type?)
    && (a == Doll ==> base != Type(OP_ANY))
    && (a == Doll && IsList(base) ==> forall x :: x in CharSets.Chars(base) && IsNewlineLike(x) ==> x == NEWLINE)
  }

  /** What counts as a newline in front of $ is what any newline can start with. */
  lemma NewlinesAre(c: byte)
    ensures IsNewlineLike(c) <==> Newline.IsNewline(Newline.Any, [c], 0) > 0
  {
  }

  /** A character of the repeat, and one that would end a subject's last line if there is
      one. */
  lemma SomeMember(base: Sel) returns (x: byte)
    requires IsList(base) || base.Type?
    ensures Accepts(base, x)
  {
    if base.Type? {
      x := TypesMeet(base.t, base.t);
    } else {
      x := base.c;
    }
  }

  /** The test of an anchor succeeds exactly when it can never hold there and the test looks
      into the repeat. */
  lemma AnchorExactly(base: Sel, a: Anchor)
    ensures AnchorExcludes(base, a) <==> Tells(base, a) && NeverBefore(base, a)
  {
    if AnchorExcludes(base, a) {
      forall s: Subject, pos: nat | pos < |s| && Accepts(base, s[pos]) ensures !Holds(a, s, pos) {
        AnchorFails(base, a, s, pos);
      }
    } else if Tells(base, a) {
      var x := SomeMember(base);
      if a == Doll {
        AcceptsNewline(base);
        x := NEWLINE;
      }
      var s: Subject := [x];
      assert Accepts(base, s[0]) && Holds(a, s, 0);
    }
  }

  lemma AcceptsNewline(base: Sel)
    requires Tells(base, Doll) && !AnchorExcludes(base, Doll)
    ensures Accepts(base, NEWLINE)
  {
    if IsList(base) {
      var x :| x in CharSets.Chars(base) && IsNewlineLike(x);
      ListMember(base, x);
    }
  }

  // ----- in the code -----

  predicate Becomes(sel: Sel, rep: Rep, next: Code, ctx: Ctx)
  {
    AutoRepeat(sel, rep, next, ctx) == Possessed(rep)
  }

  /** In front of an item that must consume a character, a repeat becomes possessive exactly
      when the two are comparable and share no character. */
  lemma BeforeItem(sel: Sel, rep: Rep, it: Bytecode.Item, next: Code, ctx: Ctx)
    requires !rep.Exact? && rep.mode != Possessive
    requires it.One? || (it.Many? && RepMin(it.rep) > 0)
    ensures Becomes(sel, rep, Cons(it, next), ctx) <==> Comparable(sel, it.sel) && NoCommon(sel, it.sel)
  {
    DisjointExactly(sel, it.sel);
  }

  lemma BeforeAnchor(sel: Sel, rep: Rep, a: Anchor, next: Code, ctx: Ctx)
    requires !rep.Exact? && rep.mode != Possessive
    ensures Becomes(sel, rep, Cons(Assert(a), next), ctx) <==> Tells(sel, a) && NeverBefore(sel, a)
  {
    AnchorExactly(sel, a);
  }

  /** A possessive range of a type is wrapped; its first item is inside. */
  lemma BeforeWrapped(sel: Sel, rep: Rep, t: Sel, n: nat, next: Code, ctx: Ctx)
    requires !rep.Exact? && rep.mode != Possessive && 1 <= n < 65536
    ensures Becomes(sel, rep, Cons(Atomic(Cons(One(t), Single(Many(t, Upto(Greedy, n))))).item, next), ctx) <==>
            Comparable(sel, t) && NoCommon(sel, t)
  {
    var it := Atomic(Cons(One(t), Single(Many(t, Upto(Greedy, n))))).item;
    var ctx' := In(Bare(it), next, ctx);
    DisjointExactly(sel, t);
    HeadSize(Cons(it, next));
    HeadSize(it.body.code);
    assert forall g: bool, e: bool :: Compare(it.body.code, ctx', Base(sel, g), e) <==> Disjoint(sel, t);
    assert forall g: bool :: CompareBranches(it.body, ctx', Base(sel, g)) <==> Disjoint(sel, t);
  }

  // ----- in patterns -----

  /** A starred character or class, lazy or greedy, followed by a character or class that must
      be there: in the optimised code it is possessive exactly when they share no character
      and can be compared. */
  lemma StarThenItem(a: Sel, mode: Mode, b: Sel, q: Quantifier, rest: Branch, bc: nat, ctx: Ctx)
    requires mode != Possessive && (q.Quant? ==> q.lo > 0)
    ensures var c := AutoCode(BranchCode(Branch.Item(Atom.Chars(a), Quant(0, -1, mode), Branch.Item(Atom.Chars(b), q, rest)), bc), ctx);
            c.Cons? && c.item == Many(a, Star(if Comparable(a, b) && NoCommon(a, b) then Possessive else mode))
  {
    var r := BranchCode(Branch.Item(Atom.Chars(b), q, rest), bc);
    var next := BranchCode(rest, bc);
    StarCode(a, mode, Branch.Item(Atom.Chars(b), q, rest), bc);
    var first := if b.Set? then ClassCode(b, q) else CharCode(b, q);
    assert r == Cat(first, next) == Cons(first.item, Cat(first.next, next));
    if first.item.Group? {
      BeforeWrapped(a, Star(mode), b, q.hi - 1, Cat(first.next, next), ctx);
    } else {
      BeforeItem(a, Star(mode), first.item, Cat(first.next, next), ctx);
    }
  }

  lemma StarCode(a: Sel, mode: Mode, rest: Branch, bc: nat)
    ensures BranchCode(Branch.Item(Atom.Chars(a), Quant(0, -1, mode), rest), bc) == Cons(Many(a, Star(mode)), BranchCode(rest, bc))
  {
    var q: Quantifier := Quant(0, -1, mode);
    assert AtomCode(Atom.Chars(a), q, bc) == Cons(Many(a, Star(mode)), Nil);
    assert Cat(Nil, BranchCode(rest, bc)) == BranchCode(rest, bc);
  }

  /** In front of an anchor. */
  lemma StarThenAnchor(a: Sel, mode: Mode, anchor: Anchor, rest: Branch, bc: nat, ctx: Ctx)
    requires mode != Possessive
    ensures var c := AutoCode(BranchCode(Branch.Item(Atom.Chars(a), Quant(0, -1, mode), AnchorItem(anchor, rest)), bc), ctx);
            c.Cons? && c.item == Many(a, Star(if Tells(a, anchor) && NeverBefore(a, anchor) then Possessive else mode))
  {
    StarCode(a, mode, AnchorItem(anchor, rest), bc);
    BeforeAnchor(a, Star(mode), anchor, BranchCode(rest, bc), ctx);
  }

  /** At the end of a pattern. */
  lemma StarAtEnd(a: Sel, mode: Mode)
    requires mode != Possessive
    ensures var c := AutoProgram(PatternCode(LastBranch(Branch.Item(Atom.Chars(a), Quant(0, -1, mode), Empty)), 0)).code;
            c == Single(Many(a, Star(if mode == Greedy then Possessive else mode)))
  {
    var p := LastBranch(Branch.Item(Atom.Chars(a), Quant(0, -1, mode), Empty));
    var alts := PatternCode(p, 0);
    var ctx := In(Top(alts), Nil, AtEnd);
    StarCode(a, mode, Empty, 0);
    assert alts.code == Cons(Many(a, Star(mode)), Nil);
    assert Compare(Nil, ctx, Base(a, mode == Greedy), false) <==> mode == Greedy;
    var it := Many(a, Star(mode));
    assert AutoItem(it, Nil, ctx) == Many(a, AutoRepeat(a, Star(mode), Nil, ctx));
    assert AutoCode(Nil, ctx) == Nil && AutoCode(alts.code, ctx) == Cons(AutoItem(it, Nil, ctx), AutoCode(Nil, ctx));
    assert AutoProgram(alts) == Last(AutoCode(alts.code, ctx));
  }

  // ----- what may come next in a pattern -----

  /** The rests of the branches around, the innermost first; bc capturing groups have been
      opened in front of each. */
  datatype Around = Outermost | Behind(rest: Branch, bc: nat, up: Around)

  /** Groups occur once or may be left out, and are not possessive. */
  predicate Plain(b: Branch)
    decreases b, 0
  {
    match b
    case Empty => true
    case AnchorItem(_, rest) => Plain(rest)
    case Item(Chars(_), _, rest) => Plain(rest)
    case Item(Parens(_, alts), q, rest) => (q == NoQuant || MayMiss(q)) && PlainAll(alts) && Plain(rest)
  }

  predicate PlainAll(p: Pattern)
    decreases p, 0
  {
    Plain(p.b) && (p.OrElse? ==> PlainAll(p.others))
  }

  predicate MayMiss(q: Quantifier) { q.Quant? && q.lo == 0 && q.hi == 1 && q.mode != Possessive }

  predicate PlainAround(k: Around)
  {
    k.Behind? ==> Plain(k.rest) && PlainAround(k.up)
  }

  function Left(b: Branch, k: Around): nat
  {
    BranchSize(b) + AroundSize(k)
  }

  function AroundSize(k: Around): nat
  {
    if k.Outermost? then 0 else 1 + BranchSize(k.rest) + AroundSize(k.up)
  }

  function BranchSize(b: Branch): nat
    decreases b, 0
  {
    match b
    case Empty => 0
    case AnchorItem(_, rest) => 1 + BranchSize(rest)
    case Item(Chars(_), _, rest) => 1 + BranchSize(rest)
    case Item(Parens(_, alts), _, rest) => 2 + PatternSize(alts) + BranchSize(rest)
  }

  function PatternSize(p: Pattern): nat
    decreases p, 0
  {
    BranchSize(p.b) + if p.OrElse? then 1 + PatternSize(p.others) else 0
  }

  /** Whatever may come next, on every way through what follows, is a character item that
      shares no character with the repeat, an anchor that cannot hold in front of one, or, if
      the repeat is greedy, the end of the pattern. */
  ghost predicate ClearAhead(a: Sel, greedy: bool, b: Branch, bc: nat, k: Around)
    decreases Left(b, k), 0
  {
    match b
    case Empty => if k.Outermost? then greedy else greedy && ClearAhead(a, greedy, k.rest, k.bc, k.up)
    case AnchorItem(x, _) => Tells(a, x) && NeverBefore(a, x)
    case Item(Chars(x), q, rest) =>
      if q.Quant? && q.hi == 0 then ClearAhead(a, greedy, rest, bc, k)
      else Comparable(a, x) && NoCommon(a, x) && (q.Quant? && q.lo == 0 ==> ClearAhead(a, greedy, rest, bc, k))
    case Item(Parens(cap, alts), q, rest) =>
      && (q.Quant? ==> ClearAhead(a, greedy, rest, bc + AtomCaptures(b.atom), k))
      && ClearInside(a, greedy, alts, if cap then bc + 1 else bc, Behind(rest, bc + AtomCaptures(b.atom), k))
  }

  ghost predicate ClearInside(a: Sel, greedy: bool, p: Pattern, bc: nat, k: Around)
    decreases PatternSize(p) + AroundSize(k), 1
  {
    ClearAhead(a, greedy, p.b, bc, k) && (p.OrElse? ==> ClearInside(a, greedy, p.others, bc + BranchCaptures(p.b), k))
  }

  /** The code around is that of the rests. */
  predicate Encloses(ctx: Ctx, k: Around)
    decreases k
  {
    match k
    case Outermost => ctx == AtEnd || (ctx.In? && ctx.it.Group? && ctx.it.bra.Paren? && ctx.it.ket == Ket && ctx.next == Nil && ctx.up == AtEnd)
    case Behind(rest, bc, up) =>
      && ctx.In? && ctx.it.Group? && ctx.it.bra.Paren? && ctx.it.ket == Ket
      && ctx.next == BranchCode(rest, bc) && Encloses(ctx.up, up)
  }

  /** The code of a plain group. */
  lemma PlainCode(cap: bool, alts: Pattern, q: Quantifier, bc: nat)
    requires q == NoQuant || MayMiss(q)
    ensures var g := PieceOf(cap, alts, bc);
            AtomCode(Parens(cap, alts), q, bc) == Cons(PlainGroup(g, if q == NoQuant then NoZero else ZeroFor(q.mode)), Nil)
  {
    if q.Quant? {
      var g := PieceOf(cap, alts, bc);
      assert RepeatedGroup(g, q.lo, q.hi, q.mode) == Optional(g, ZeroFor(q.mode), 1);
    }
  }

  lemma CompareGroup(a: Base, it: Bytecode.Item, next: Code, ctx: Ctx, entered: bool)
    requires it.Group? && it.bra.Paren? && !it.bra.s && !it.bra.pos && (it.zero == NoZero || it.zero == BraZero || it.zero == BraMinZero)
    ensures Compare(Cons(it, next), ctx, a, entered) <==>
            (it.zero != NoZero ==> Compare(next, ctx, a, false)) && CompareBranches(it.body, In(Bare(it), next, ctx), a)
  {
  }

  lemma CompareEnd(a: Base, ctx: Ctx, entered: bool)
    requires ctx == AtEnd || (ctx.In? && ctx.it.Group? && ctx.it.bra.Paren? && ctx.it.ket == Ket)
    ensures Compare(Nil, ctx, a, entered) <==> a.greedy && (ctx.In? ==> Compare(ctx.next, ctx.up, a, entered))
    ensures Compare(Nil, AtEnd, a, entered) <==> a.greedy
  {
  }

  lemma CompareChar(a: Base, x: Sel, q: Quantifier, next: Code, ctx: Ctx, entered: bool)
    ensures var c := if x.Set? then ClassCode(x, q) else CharCode(x, q);
            Compare(Cat(c, next), ctx, a, entered) <==>
            if q.Quant? && q.hi == 0 then Compare(next, ctx, a, entered)
            else Disjoint(a.sel, x) && (q.Quant? && q.lo == 0 ==> Compare(next, ctx, a, entered))
  {
    var c := if x.Set? then ClassCode(x, q) else CharCode(x, q);
    if c.Cons? {
      var rest := Cat(c.next, next);
      assert Cat(c, next) == Cons(c.item, rest);
      if c.item.Group? {
        var ctx' := In(Bare(c.item), rest, ctx);
        assert forall e: bool :: Compare(c.item.body.code, ctx', a, e) <==> Disjoint(a.sel, x);
        assert CompareBranches(c.item.body, ctx', a) <==> Disjoint(a.sel, x);
      } else if c.next == Nil {
        assert rest == next;
      }
    }
  }

  lemma {:induction false} ClearExactly(a: Sel, greedy: bool, b: Branch, bc: nat, k: Around, ctx: Ctx, entered: bool)
    requires Plain(b) && PlainAround(k) && Encloses(ctx, k)
    ensures Compare(BranchCode(b, bc), ctx, Base(a, greedy), entered) <==> ClearAhead(a, greedy, b, bc, k)
    decreases Left(b, k), 0
  {
    hide Disjoint, Comparable, AnchorExcludes, CompareBranches, ClearInside;
    match b
    case Empty =>
      CompareEnd(Base(a, greedy), ctx, entered);
      if k.Behind? {
        ClearExactly(a, greedy, k.rest, k.bc, k.up, ctx.up, entered);
      }
    case AnchorItem(x, rest) => AnchorExactly(a, x);
    case Item(Chars(x), q, rest) =>
      CompareChar(Base(a, greedy), x, q, BranchCode(rest, bc), ctx, entered);
      DisjointExactly(a, x);
      ClearExactly(a, greedy, rest, bc, k, ctx, entered);
    case Item(Parens(cap, alts), q, rest) =>
      var bc' := bc + AtomCaptures(b.atom);
      var it, next := PlainGroup(PieceOf(cap, alts, bc), if q == NoQuant then NoZero else ZeroFor(q.mode)), BranchCode(rest, bc');
      PlainCode(cap, alts, q, bc);
      assert BranchCode(b, bc) == Cat(Cons(it, Nil), next) == Cons(it, Cat(Nil, next)) == Cons(it, next);
      CompareGroup(Base(a, greedy), it, next, ctx, entered);
      if q.Quant? {
        ClearExactly(a, greedy, rest, bc', k, ctx, false);
      }
      InsideExactly(a, greedy, alts, if cap then bc + 1 else bc, Behind(rest, bc', k), In(Bare(it), next, ctx));
  }

  lemma {:induction false} InsideExactly(a: Sel, greedy: bool, p: Pattern, bc: nat, k: Around, ctx: Ctx)
    requires PlainAll(p) && PlainAround(k) && Encloses(ctx, k)
    ensures CompareBranches(PatternCode(p, bc), ctx, Base(a, greedy)) <==> ClearInside(a, greedy, p, bc, k)
    decreases PatternSize(p) + AroundSize(k), 1
  {
    hide Compare, ClearAhead, BranchCode, Encloses;
    ClearExactly(a, greedy, p.b, bc, k, ctx, p.LastBranch?);
    if p.OrElse? {
      InsideExactly(a, greedy, p.others, bc + BranchCaptures(p.b), k, ctx);
    }
  }

  /** In front of a plain pattern a repeat becomes possessive exactly when what may come next
      is clear. */
  lemma BecomesExactly(a: Sel, rep: Rep, b: Branch, bc: nat, k: Around, ctx: Ctx)
    requires !rep.Exact? && rep.mode != Possessive && Plain(b) && PlainAround(k) && Encloses(ctx, k)
    ensures Becomes(a, rep, BranchCode(b, bc), ctx) <==> ClearAhead(a, rep.mode == Greedy, b, bc, k)
  {
    ClearExactly(a, rep.mode == Greedy, b, bc, k, ctx, false);
  }
}
