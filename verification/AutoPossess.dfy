/** Auto-possessification: a repeat that could never usefully give characters back is made
    possessive. What the test decides, and why the match found first does not change. */
module AutoPossess {
  import opened Opcodes
  import opened Bytecode
  import opened Matching
  import opened Machine
  import opened Ordered
  import opened CharSets

  /** The code behind the groups that enclose some point of a program. */
  datatype Ctx = AtEnd | In(it: Item, next: Code, up: Ctx)

  /** A group without its zero-repeat opcode. */
  function Bare(it: Item): Item
  {
    if it.Group? then it.(zero := NoZero) else it
  }

  /** The code behind the open groups is what remains to be done. The inside of a group that
      keeps its first way through is matched on its own. */
  predicate Follows(ctx: Ctx, k: Cont)
  {
    match k
    case Done => ctx == AtEnd || Keeps(ctx.it)
    case Ret(it, next, _, k') => ctx.In? && ctx.it == Bare(it) && ctx.next == next && it.Group? && !Keeps(it) && Follows(ctx.up, k')
  }

  function CtxSize(ctx: Ctx): nat
  {
    match ctx
    case AtEnd => 0
    case In(_, next, up) => 1 + Size(next) + CtxSize(up)
  }

  /** The repeat under test: its characters and whether it is greedy. */
  datatype Base = Base(sel: Sel, greedy: bool)

  predicate IsNewlineLike(c: byte) { c == 10 || c == 11 || c == 12 || c == 13 || c == 0x85 }

  /** An anchor that cannot hold in front of a character of the repeat. */
  predicate AnchorExcludes(base: Sel, a: Anchor)
  {
    match a
    case Eod => IsList(base) || base.Type?
    case Doll =>
      if IsList(base) then forall x :: x in Chars(base) ==> !IsNewlineLike(x)
      else base.Type? && (base.t == OP_DIGIT || base.t == OP_NOT_WHITESPACE || base.t == OP_WORDCHAR)
    case Circ => false
    case Sod => false
  }

  /** The test of the code c that follows the repeat, inside the groups of ctx. It is
      true when no match of the code can start with a character of the repeat, or the
      repeat is greedy and everything up to the end of the pattern can be skipped. */
  predicate Compare(c: Code, ctx: Ctx, base: Base, entered: bool)
    decreases Size(c) + CtxSize(ctx), 0
  {
    HeadSize(c);
    match c
    case Nil => base.greedy &&
      (match ctx
       case AtEnd => true
       case In(it, next, up) =>
         it.Group? &&
         if it.ket == Ket then (if it.bra.Once? then !entered else Compare(next, up, base, entered))
         else it.ket == KetRPos)
    case Cons(One(sel), _) => Disjoint(base.sel, sel)
    case Cons(Many(sel, rep), next) =>
      Disjoint(base.sel, sel) && (RepMin(rep) == 0 ==> Compare(next, ctx, base, entered))
    case Cons(Assert(a), _) => AnchorExcludes(base.sel, a)
    case Cons(Group(zero, bra, _, body, _), next) =>
      && (zero == NoZero || zero == BraZero || zero == BraMinZero)
      && (bra.Once? || (!bra.s && !bra.pos))
      && (zero != NoZero ==> Compare(next, ctx, base, false))
      && CompareBranches(body, In(Bare(c.item), next, ctx), base)
  }

  /** Every branch of a group is tested, the last one in the same call as the group. */
  predicate CompareBranches(alts: Alts, ctx: Ctx, base: Base)
    decreases AltsSize(alts) + CtxSize(ctx), 1
  {
    Compare(alts.code, ctx, base, alts.Last?) && (alts.More? ==> CompareBranches(alts.rest, ctx, base))
  }

  // ----- the transformation -----

  function Possessed(rep: Rep): Rep
  {
    match rep
    case Star(_) => Star(Possessive)
    case Plus(_) => Plus(Possessive)
    case Query(_) => Query(Possessive)
    case Upto(_, n) => Upto(Possessive, n)
    case Exact(_) => rep
    case Range(_, lo, hi) => Range(Possessive, lo, hi)
  }

  /** The repeat with its possessive mode, when the test says so. */
  function AutoRepeat(sel: Sel, rep: Rep, next: Code, ctx: Ctx): Rep
  {
    if !rep.Exact? && rep.mode != Possessive && Compare(next, ctx, Base(sel, rep.mode == Greedy), false)
    then Possessed(rep) else rep
  }

  function AutoCode(c: Code, ctx: Ctx): (r: Code)
    ensures Size(r) == Size(c)
    decreases c, 0
  {
    match c
    case Nil => Nil
    case Cons(it, next) => Cons(AutoItem(it, next, ctx), AutoCode(next, ctx))
  }

  function AutoItem(it: Item, next: Code, ctx: Ctx): (r: Item)
    ensures ItemSize(r) == ItemSize(it)
    decreases it, 1
  {
    match it
    case Many(sel, rep) => Many(sel, AutoRepeat(sel, rep, next, ctx))
    case Group(zero, bra, num, body, ket) => Group(zero, bra, num, AutoBranches(body, In(Bare(it), next, ctx)), ket)
    case _ => it
  }

  function AutoBranches(alts: Alts, ctx: Ctx): (r: Alts)
    ensures AltsSize(r) == AltsSize(alts)
    decreases alts, 0
  {
    match alts
    case Last(c) => Last(AutoCode(c, ctx))
    case More(c, rest) => More(AutoCode(c, ctx), AutoBranches(rest, ctx))
  }

  /** The same for what remains to be done. */
  function AutoCont(k: Cont, ctx: Ctx): Cont
    requires Leads(ctx, k)
  {
    match k
    case Done => Done
    case Ret(it, next, start, k') => Ret(AutoItem(it, next, ctx.up), AutoCode(next, ctx.up), start, AutoCont(k', ctx.up))
  }

  /** As Follows, also at the moment when a kept way is left. */
  predicate Leads(ctx: Ctx, k: Cont)
  {
    match k
    case Done => Follows(ctx, k)
    case Ret(it, next, _, k') => ctx.In? && ctx.it == Bare(it) && ctx.next == next && it.Group? && Follows(ctx.up, k')
  }

  // ----- code that can be skipped to the end -----

  /** From c on the end of what is matched on its own can be reached without consuming
      anything: the end of the pattern, or of the innermost group around that keeps its first
      way. */
  predicate Opens(c: Code, ctx: Ctx)
    decreases Size(c) + CtxSize(ctx), 0
  {
    HeadSize(c);
    match c
    case Nil => ctx.In? ==> Keeps(ctx.it) || (ctx.it.Group? && ctx.it.ket == Ket && Opens(ctx.next, ctx.up))
    case Cons(Many(_, rep), next) => RepMin(rep) == 0 && Opens(next, ctx)
    case Cons(Group(zero, _, _, body, ket), next) =>
      if zero == BraPosZero then false
      else if zero != NoZero then Opens(next, ctx)
      else SomeOpens(body, In(Bare(c.item), next, ctx)) && (Keeps(c.item) ==> ket == Ket && Opens(next, ctx))
    case _ => false
  }

  predicate SomeOpens(alts: Alts, ctx: Ctx)
    decreases AltsSize(alts) + CtxSize(ctx), 1
  {
    Opens(alts.code, ctx) || (alts.More? && SomeOpens(alts.rest, ctx))
  }

  /** Such code matches from every state. */
  lemma {:induction false} OpensMatches(c: Code, s: Subject, pos: nat, caps: Captures, ctx: Ctx, k: Cont)
    requires Opens(c, ctx) && Follows(ctx, k) && pos <= |s|
    ensures Try(c, s, pos, caps, k).Match?
    decreases Size(c) + CtxSize(ctx), 0
  {
    hide Counts, Longest, Pass;
    HeadSize(c);
    match c
    case Nil =>
      if k.Ret? {
        OpensMatches(k.next, s, pos, Close(k.it, k.start, pos, caps), ctx.up, k.k);
      }
    case Cons(Many(sel, rep), next) =>
      var n := Longest(sel, s, pos, RepMax(rep));
      TryMany(sel, rep, next, s, pos, caps, k);
      OpensMatches(next, s, pos, caps, ctx, k);
      OpensMatches(next, s, pos + n, caps, ctx, k);
      CountsStep(next, s, pos, 0, n, RepMode(rep) == Greedy, caps, k);
    case Cons(Group(zero, _, _, _, _), next) =>
      if zero == NoZero {
        PassMatches(c.item, next, s, pos, caps, ctx, k);
      } else {
        OpensMatches(next, s, pos, caps, ctx, k);
      }
      TryGroup(c.item, next, s, pos, caps, k);
  }

  lemma {:induction false} PassMatches(it: Item, next: Code, s: Subject, pos: nat, caps: Captures, ctx: Ctx, k: Cont)
    requires it.Group? && it.zero == NoZero && Opens(Cons(it, next), ctx) && Follows(ctx, k) && pos <= |s|
    ensures Pass(it, next, s, pos, caps, k).Match?
    decreases AltsSize(it.body) + 1 + Size(next) + CtxSize(ctx), 2
  {
    hide Try, Counts, Branches;
    var inner := In(Bare(it), next, ctx);
    if Keeps(it) {
      SomeMatches(it.body, s, pos, caps, inner, Done);
      var way := Branches(it.body, s, pos, caps, Done);
      OpensMatches(next, s, way.end, Close(it, pos, way.end, way.caps), ctx, k);
    } else {
      SomeMatches(it.body, s, pos, caps, inner, Ret(it, next, pos, k));
    }
  }

  lemma {:induction false} SomeMatches(alts: Alts, s: Subject, pos: nat, caps: Captures, ctx: Ctx, k: Cont)
    requires SomeOpens(alts, ctx) && Follows(ctx, k) && pos <= |s|
    ensures Branches(alts, s, pos, caps, k).Match?
    decreases AltsSize(alts) + CtxSize(ctx), 1
  {
    if Opens(alts.code, ctx) {
      OpensMatches(alts.code, s, pos, caps, ctx, k);
    } else {
      SomeMatches(alts.rest, s, pos, caps, ctx, k);
    }
  }

  /** A branch from which the end can be reached leads through the code behind its group. */
  lemma {:induction false} OpensLeaves(c: Code, ctx: Ctx)
    requires ctx.In? && !Keeps(ctx.it) && Opens(c, ctx)
    ensures Opens(ctx.next, ctx.up)
    decreases Size(c) + CtxSize(ctx), 0
  {
    HeadSize(c);
    match c
    case Nil =>
    case Cons(Many(_, _), more) => OpensLeaves(more, ctx);
    case Cons(Group(zero, _, _, body, _), more) =>
      if zero == NoZero && !Keeps(c.item) {
        SomeLeaves(body, In(Bare(c.item), more, ctx));
      }
      OpensLeaves(more, ctx);
  }

  lemma {:induction false} SomeLeaves(alts: Alts, ctx: Ctx)
    requires ctx.In? && !Keeps(ctx.it) && SomeOpens(alts, ctx)
    ensures Opens(ctx.next, ctx.up)
    decreases AltsSize(alts) + CtxSize(ctx), 1
  {
    if Opens(alts.code, ctx) {
      OpensLeaves(alts.code, ctx);
    } else {
      SomeLeaves(alts.rest, ctx);
    }
  }

  /** In front of such code the test succeeds only for a greedy repeat. */
  lemma {:induction false} CompareOpens(c: Code, ctx: Ctx, base: Base, entered: bool)
    requires Compare(c, ctx, base, entered) && Opens(c, ctx)
    ensures base.greedy
    decreases Size(c) + CtxSize(ctx), 0
  {
    HeadSize(c);
    match c
    case Nil =>
    case Cons(Many(_, _), next) => CompareOpens(next, ctx, base, entered);
    case Cons(Group(zero, _, _, body, _), next) =>
      if zero != NoZero {
        CompareOpens(next, ctx, base, false);
      } else {
        CompareSome(body, In(Bare(c.item), next, ctx), base);
      }
  }

  lemma {:induction false} CompareSome(alts: Alts, ctx: Ctx, base: Base)
    requires CompareBranches(alts, ctx, base) && SomeOpens(alts, ctx)
    ensures base.greedy
    decreases AltsSize(alts) + CtxSize(ctx), 1
  {
    if Opens(alts.code, ctx) {
      CompareOpens(alts.code, ctx, base, alts.Last?);
    } else {
      CompareSome(alts.rest, ctx, base);
    }
  }

  // ----- when the test may be believed -----

  /** The test as it would be if it did not stop at the end of an atomic or possessive group
      that it has entered, but went on behind it: no match of c can start with a character
      that sel accepts. */
  predicate Through(c: Code, ctx: Ctx, sel: Sel)
    decreases Size(c) + CtxSize(ctx), 0
  {
    HeadSize(c);
    match c
    case Nil => ctx.In? ==> Keeps(ctx.it) || (ctx.it.Group? && ctx.it.ket == Ket && Through(ctx.next, ctx.up, sel))
    case Cons(One(t), _) => Disjoint(sel, t)
    case Cons(Many(t, rep), next) => Disjoint(sel, t) && (RepMin(rep) == 0 ==> Through(next, ctx, sel))
    case Cons(Assert(a), _) => AnchorExcludes(sel, a)
    case Cons(Group(zero, _, _, body, ket), next) =>
      var inner := In(Bare(c.item), next, ctx);
      && (zero == NoZero || zero == BraZero || zero == BraMinZero)
      && ThroughBranches(body, inner, sel)
      && (zero != NoZero ==> Through(next, ctx, sel))
      && (Keeps(c.item) && SomeOpens(body, inner) ==> ket == Ket && Through(next, ctx, sel))
  }

  predicate ThroughBranches(alts: Alts, ctx: Ctx, sel: Sel)
    decreases AltsSize(alts) + CtxSize(ctx), 1
  {
    Through(alts.code, ctx, sel) && (alts.More? ==> ThroughBranches(alts.rest, ctx, sel))
  }

  /** Wherever the code gets a possessive mode, what follows can be skipped to the end, or
      this test succeeds as well. */
  predicate Fair(c: Code, ctx: Ctx)
    decreases c, 0
  {
    c.Cons? ==> FairItem(c.item, c.next, ctx) && Fair(c.next, ctx)
  }

  predicate FairItem(it: Item, next: Code, ctx: Ctx)
    decreases it, 1
  {
    match it
    case Many(sel, rep) => AutoRepeat(sel, rep, next, ctx) != rep ==> Opens(next, ctx) || Through(next, ctx, sel)
    case Group(_, _, _, body, _) => FairBranches(body, In(Bare(it), next, ctx))
    case _ => true
  }

  predicate FairBranches(alts: Alts, ctx: Ctx)
    decreases alts, 0
  {
    Fair(alts.code, ctx) && (alts.More? ==> FairBranches(alts.rest, ctx))
  }

  predicate FairCtx(ctx: Ctx)
  {
    ctx.In? ==> ctx.it.Group? && FairBranches(ctx.it.body, ctx) && Fair(ctx.next, ctx.up) && FairCtx(ctx.up)
  }

  // ----- in front of a character of the repeat -----

  lemma AnchorFails(base: Sel, a: Anchor, s: Subject, pos: nat)
    requires AnchorExcludes(base, a) && pos < |s| && Accepts(base, s[pos])
    ensures !Holds(a, s, pos)
  {
    if IsList(base) {
      ListMember(base, s[pos]);
    }
  }

  /** A repeat in front of a character that it does not accept. */
  lemma NoneTaken(sel: Sel, rep: Rep, next: Code, s: Subject, pos: nat, caps: Captures, k: Cont)
    requires pos < |s| && !Accepts(sel, s[pos])
    ensures Try(Cons(Many(sel, rep), next), s, pos, caps, k) == if RepMin(rep) == 0 then Try(next, s, pos, caps, k) else NoMatch
  {
  }

  /** Found without consuming anything. */
  predicate Skips(r: Outcome, pos: nat) { r.Match? && r.end == pos }

  /** In front of a character of the repeat, code that passes the stricter test consumes
      nothing: it is skipped to the end, or fails. */
  lemma {:induction false} ThroughTry(c: Code, s: Subject, pos: nat, caps: Captures, ctx: Ctx, k: Cont, sel: Sel)
    requires Through(c, ctx, sel) && Follows(ctx, k) && pos < |s| && Accepts(sel, s[pos])
    ensures var r := Try(c, s, pos, caps, k); if Opens(c, ctx) then Skips(r, pos) else r == NoMatch
    decreases Size(c) + CtxSize(ctx), 0
  {
    hide Counts, Longest, Pass, Disjoint;
    HeadSize(c);
    match c
    case Nil =>
      if k.Ret? {
        ThroughTry(k.next, s, pos, Close(k.it, k.start, pos, caps), ctx.up, k.k, sel);
      }
    case Cons(One(t), _) => DisjointSound(sel, t, s[pos]);
    case Cons(Many(t, rep), next) =>
      DisjointSound(sel, t, s[pos]);
      NoneTaken(t, rep, next, s, pos, caps, k);
      if RepMin(rep) == 0 {
        ThroughTry(next, s, pos, caps, ctx, k, sel);
      }
    case Cons(Assert(a), _) => AnchorFails(sel, a, s, pos);
    case Cons(Group(zero, _, _, _, _), next) =>
      if zero != NoZero {
        ThroughTry(next, s, pos, caps, ctx, k, sel);
      }
      ThroughPass(c.item, next, s, pos, caps, ctx, k, sel);
      TryGroup(c.item, next, s, pos, caps, k);
  }

  /** The same for a pass through a group. */
  lemma {:induction false} ThroughPass(it: Item, next: Code, s: Subject, pos: nat, caps: Captures, ctx: Ctx, k: Cont, sel: Sel)
    requires it.Group? && Through(Cons(it, next), ctx, sel) && Follows(ctx, k) && pos < |s| && Accepts(sel, s[pos])
    ensures var r, inner := Pass(it, next, s, pos, caps, k), In(Bare(it), next, ctx);
            if SomeOpens(it.body, inner) && (Keeps(it) ==> Opens(next, ctx)) then Skips(r, pos) && Opens(next, ctx) else r == NoMatch
    decreases AltsSize(it.body) + 1 + Size(next) + CtxSize(ctx), 2
  {
    hide Try, Counts, Branches;
    var inner := In(Bare(it), next, ctx);
    if Keeps(it) {
      ThroughSome(it.body, s, pos, caps, inner, Done, sel);
      if SomeOpens(it.body, inner) {
        var way := Branches(it.body, s, pos, caps, Done);
        ThroughTry(next, s, pos, Close(it, pos, pos, way.caps), ctx, k, sel);
      }
    } else {
      ThroughSome(it.body, s, pos, caps, inner, Ret(it, next, pos, k), sel);
      if SomeOpens(it.body, inner) {
        SomeLeaves(it.body, inner);
      }
    }
  }

  lemma {:induction false} ThroughSome(alts: Alts, s: Subject, pos: nat, caps: Captures, ctx: Ctx, k: Cont, sel: Sel)
    requires ThroughBranches(alts, ctx, sel) && Follows(ctx, k) && pos < |s| && Accepts(sel, s[pos])
    ensures var r := Branches(alts, s, pos, caps, k); if SomeOpens(alts, ctx) then Skips(r, pos) else r == NoMatch
    decreases AltsSize(alts) + CtxSize(ctx), 1
  {
    ThroughTry(alts.code, s, pos, caps, ctx, k, sel);
    if alts.More? {
      ThroughSome(alts.rest, s, pos, caps, ctx, k, sel);
    }
  }

  /** Giving back characters leads nowhere. */
  lemma {:induction false} CountsFail(next: Code, s: Subject, pos: nat, lo: nat, hi: nat, caps: Captures, ctx: Ctx, k: Cont, base: Base)
    requires Through(next, ctx, base.sel) && !Opens(next, ctx) && Follows(ctx, k)
    requires lo <= hi && pos + hi < |s| && forall x {:trigger s[x]} :: pos <= x <= pos + hi ==> Accepts(base.sel, s[x])
    ensures Counts(next, s, pos, lo, hi, base.greedy, caps, k) == NoMatch
    decreases hi - lo
  {
    hide Through, Opens, Try;
    assert Accepts(base.sel, s[pos + lo]) && Accepts(base.sel, s[pos + hi]);
    if lo == hi {
      ThroughTry(next, s, pos + lo, caps, ctx, k, base.sel);
    } else if base.greedy {
      ThroughTry(next, s, pos + hi, caps, ctx, k, base.sel);
      CountsFail(next, s, pos, lo, hi - 1, caps, ctx, k, base);
    } else {
      ThroughTry(next, s, pos + lo, caps, ctx, k, base.sel);
      CountsFail(next, s, pos, lo + 1, hi, caps, ctx, k, base);
    }
  }

  /** So a repeat that passes the test can as well take all it can and keep it. */
  lemma {:induction false} CountsIsLongest(next: Code, s: Subject, pos: nat, lo: nat, hi: nat, caps: Captures, ctx: Ctx, k: Cont, base: Base)
    requires Compare(next, ctx, base, false) && (Opens(next, ctx) || Through(next, ctx, base.sel)) && Follows(ctx, k)
    requires lo <= hi && pos + hi <= |s| && forall x {:trigger s[x]} :: pos <= x < pos + hi ==> Accepts(base.sel, s[x])
    ensures Counts(next, s, pos, lo, hi, base.greedy, caps, k) == Try(next, s, pos + hi, caps, k)
    decreases hi - lo
  {
    hide Compare, Through, Opens, Try;
    if Opens(next, ctx) {
      CompareOpens(next, ctx, base, false);
      OpensMatches(next, s, pos + hi, caps, ctx, k);
    } else if lo < hi {
      if base.greedy {
        CountsFail(next, s, pos, lo, hi - 1, caps, ctx, k, base);
      } else {
        assert Accepts(base.sel, s[pos + lo]);
        ThroughTry(next, s, pos + lo, caps, ctx, k, base.sel);
        CountsIsLongest(next, s, pos, lo + 1, hi, caps, ctx, k, base);
      }
    }
  }

  // ----- the match found first does not change -----

  lemma {:induction false} AutoTry(c: Code, s: Subject, pos: nat, caps: Captures, ctx: Ctx, k: Cont)
    requires Fair(c, ctx) && FairCtx(ctx) && Follows(ctx, k) && pos <= |s|
    ensures Leads(ctx, k) && Try(AutoCode(c, ctx), s, pos, caps, AutoCont(k, ctx)) == Try(c, s, pos, caps, k)
    decreases |s| - pos, Size(c) + Weight(k, pos), 2
  {
    HeadSize(c);
    match c
    case Nil => AutoExit(s, pos, caps, ctx, k);
    case Cons(One(sel), next) =>
      if pos < |s| {
        AutoTry(next, s, pos + 1, caps, ctx, k);
      }
    case Cons(Many(sel, rep), next) => AutoMany(sel, rep, next, s, pos, caps, ctx, k);
    case Cons(Assert(a), next) => AutoTry(next, s, pos, caps, ctx, k);
    case Cons(Group(_, _, _, _, _), next) => AutoGroup(c.item, next, s, pos, caps, ctx, k);
  }

  lemma {:induction false} AutoGroup(it: Item, next: Code, s: Subject, pos: nat, caps: Captures, ctx: Ctx, k: Cont)
    requires it.Group? && FairItem(it, next, ctx) && Fair(next, ctx) && FairCtx(ctx) && Follows(ctx, k) && pos <= |s|
    ensures var c := Cons(it, next);
            Leads(ctx, k) && Try(AutoCode(c, ctx), s, pos, caps, AutoCont(k, ctx)) == Try(c, s, pos, caps, k)
    decreases |s| - pos, AltsSize(it.body) + 2 + Size(next) + Weight(k, pos), 5
  {
    hide Try, Pass, Branches;
    FollowsLeads(ctx, k);
    TryGroup(it, next, s, pos, caps, k);
    TryGroup(AutoItem(it, next, ctx), AutoCode(next, ctx), s, pos, caps, AutoCont(k, ctx));
    AutoTry(next, s, pos, caps, ctx, k);
    AutoPass(it, next, s, pos, caps, ctx, k);
    if Keeps(it) {
      AutoAlternatives(it.body, s, pos, caps, In(Bare(it), next, ctx), Done);
    }
  }

  lemma AutoRepeatKeeps(sel: Sel, rep: Rep, next: Code, ctx: Ctx)
    ensures var r := AutoRepeat(sel, rep, next, ctx);
            && RepMin(r) == RepMin(rep) && RepMax(r) == RepMax(rep)
            && (r != rep ==> RepMode(r) == Possessive && RepMode(rep) != Possessive)
            && (r != rep ==> Compare(next, ctx, Base(sel, RepMode(rep) == Greedy), false))
  {
  }

  lemma {:induction false} AutoMany(sel: Sel, rep: Rep, next: Code, s: Subject, pos: nat, caps: Captures, ctx: Ctx, k: Cont)
    requires FairItem(Many(sel, rep), next, ctx) && Fair(next, ctx) && FairCtx(ctx) && Follows(ctx, k) && pos <= |s|
    ensures var c := Cons(Many(sel, rep), next);
            Leads(ctx, k) && Try(AutoCode(c, ctx), s, pos, caps, AutoCont(k, ctx)) == Try(c, s, pos, caps, k)
    decreases |s| - pos, Size(next) + Weight(k, pos), 4 + |s|
  {
    hide Try, Counts, Compare, AutoRepeat, Opens, Through, Leads;
    var n, lo, rep' := Longest(sel, s, pos, RepMax(rep)), RepMin(rep), AutoRepeat(sel, rep, next, ctx);
    AutoRepeatKeeps(sel, rep, next, ctx);
    FollowsLeads(ctx, k);
    TryMany(sel, rep, next, s, pos, caps, k);
    TryMany(sel, rep', AutoCode(next, ctx), s, pos, caps, AutoCont(k, ctx));
    if n >= lo {
      AutoTry(next, s, pos + n, caps, ctx, k);
      if RepMode(rep) != Possessive {
        AutoCounts(next, s, pos, lo, n, RepMode(rep) == Greedy, caps, ctx, k);
        if rep' != rep {
          CountsIsLongest(next, s, pos, lo, n, caps, ctx, k, Base(sel, RepMode(rep) == Greedy));
        }
      }
    }
  }

  lemma FollowsLeads(ctx: Ctx, k: Cont)
    requires Follows(ctx, k)
    ensures Leads(ctx, k)
  {
  }

  lemma {:induction false} AutoCounts(next: Code, s: Subject, pos: nat, lo: nat, hi: nat, greedy: bool, caps: Captures, ctx: Ctx, k: Cont)
    requires Fair(next, ctx) && FairCtx(ctx) && Follows(ctx, k) && lo <= hi && pos + hi <= |s|
    ensures Leads(ctx, k)
    ensures Counts(AutoCode(next, ctx), s, pos, lo, hi, greedy, caps, AutoCont(k, ctx)) == Counts(next, s, pos, lo, hi, greedy, caps, k)
    decreases |s| - pos, Size(next) + Weight(k, pos), 3 + hi - lo
  {
    hide Try, Counts, Fair, FairCtx, AutoCode;
    FollowsLeads(ctx, k);
    CountsStep(next, s, pos, lo, hi, greedy, caps, k);
    CountsStep(AutoCode(next, ctx), s, pos, lo, hi, greedy, caps, AutoCont(k, ctx));
    if lo == hi {
      AutoTry(next, s, pos + lo, caps, ctx, k);
    } else if greedy {
      AutoTry(next, s, pos + hi, caps, ctx, k);
      AutoCounts(next, s, pos, lo, hi - 1, greedy, caps, ctx, k);
    } else {
      AutoTry(next, s, pos + lo, caps, ctx, k);
      AutoCounts(next, s, pos, lo + 1, hi, greedy, caps, ctx, k);
    }
  }

  lemma {:induction false} AutoAlternatives(alts: Alts, s: Subject, pos: nat, caps: Captures, ctx: Ctx, k: Cont)
    requires FairBranches(alts, ctx) && FairCtx(ctx) && Follows(ctx, k) && pos <= |s|
    ensures Leads(ctx, k) && Branches(AutoBranches(alts, ctx), s, pos, caps, AutoCont(k, ctx)) == Branches(alts, s, pos, caps, k)
    decreases |s| - pos, AltsSize(alts) + Weight(k, pos), 3
  {
    AutoTry(alts.code, s, pos, caps, ctx, k);
    if alts.More? {
      AutoAlternatives(alts.rest, s, pos, caps, ctx, k);
    }
  }

  lemma {:induction false} AutoPass(it: Item, next: Code, s: Subject, pos: nat, caps: Captures, ctx: Ctx, k: Cont)
    requires it.Group? && FairItem(it, next, ctx) && Fair(next, ctx) && FairCtx(ctx) && Follows(ctx, k) && pos <= |s|
    ensures Leads(ctx, k)
    ensures Pass(AutoItem(it, next, ctx), AutoCode(next, ctx), s, pos, caps, AutoCont(k, ctx)) == Pass(it, next, s, pos, caps, k)
    decreases |s| - pos, AltsSize(it.body) + 1 + Size(next) + Weight(k, pos), 4
  {
    var inner, back := In(Bare(it), next, ctx), Ret(it, next, pos, k);
    FollowsLeads(ctx, k);
    if Keeps(it) {
      AutoAlternatives(it.body, s, pos, caps, inner, Done);
      var way := Branches(it.body, s, pos, caps, Done);
      if way.Match? {
        AutoExit(s, way.end, way.caps, inner, back);
      }
    } else {
      AutoAlternatives(it.body, s, pos, caps, inner, back);
    }
  }

  lemma {:induction false} AutoExit(s: Subject, pos: nat, caps: Captures, ctx: Ctx, k: Cont)
    requires FairCtx(ctx) && Leads(ctx, k) && pos <= |s|
    ensures Exit(s, pos, caps, AutoCont(k, ctx)) == Exit(s, pos, caps, k)
    decreases |s| - pos, Weight(k, pos), 1
  {
    if k.Ret? {
      var caps' := Close(k.it, k.start, pos, caps);
      AutoTry(k.next, s, pos, caps', ctx.up, k.k);
      if Loops(k.it) && pos > k.start {
        AutoPass(k.it, k.next, s, pos, caps', ctx.up, k.k);
        if Keeps(k.it) {
          AutoAlternatives(k.it.body, s, pos, caps', ctx, Done);
        }
      }
    }
  }

  /** The whole program with every repeat that passes the test made possessive. */
  function AutoProgram(alts: Alts): Alts
  {
    AutoBranches(alts, In(Top(alts), Nil, AtEnd))
  }

  /** Wherever the test is believed, it is right also behind the groups that it has entered. */
  predicate FairProgram(alts: Alts)
  {
    FairBranches(alts, In(Top(alts), Nil, AtEnd))
  }

  /** Then auto-possessification leaves the first match and its captures as they were, for
      every subject and starting position. */
  lemma AutoPossessionIsInvisible(alts: Alts, s: Subject, pos: nat)
    requires FairProgram(alts) && pos <= |s|
    ensures FirstMatch(AutoProgram(alts), s, pos) == FirstMatch(alts, s, pos)
  {
    var c := Cons(Top(alts), Nil);
    AutoTry(c, s, pos, map[], AtEnd, Done);
    assert AutoCode(c, AtEnd) == Cons(Top(AutoProgram(alts)), Nil);
  }
}
