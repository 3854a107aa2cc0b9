/** Auto-possessification in place: one pass over the opcodes that rewrites the opcodes of
    repeats. */
module AutoScan {
  import opened Opcodes
  import opened Bytecode
  import opened Machine
  import opened Links
  import opened EmptinessScan
  import opened AutoPossess
  import opened CompareScan

  // ----- what the pass makes of the bytes -----

  /** Where the opcode of a repeat is, and what it becomes. */
  function RepeatPos(pc: nat, sel: Sel): nat { if sel.Set? then pc + 33 else pc }

  function RepeatOp(sel: Sel, rep: Rep): byte
    requires Fits(sel, rep)
  {
    if sel.Set? then ClassRepOp(rep) else CharRepOp(sel, rep)
  }

  /** The bytes after the branch c at pc has been dealt with. */
  function AutoBytes(code: seq<byte>, pc: nat, c: Code, ctx: Ctx): (r: seq<byte>)
    requires pc + Size(c) <= |code|
    ensures |r| == |code|
    decreases c, 0
  {
    match c
    case Nil => code
    case Cons(it, next) => AutoBytes(ItemBytes(code, pc, it, next, ctx), pc + ItemSize(it), next, ctx)
  }

  function ItemBytes(code: seq<byte>, pc: nat, it: Item, next: Code, ctx: Ctx): (r: seq<byte>)
    requires pc + ItemSize(it) <= |code|
    ensures |r| == |code|
    decreases it, 1
  {
    match it
    case Many(sel, rep) =>
      if Fits(sel, rep) then code[RepeatPos(pc, sel) := RepeatOp(sel, AutoRepeat(sel, rep, next, ctx))] else code
    case Group(zero, bra, _, body, _) =>
      BranchBytes(code, pc + ZeroSize(zero) + BraSize(bra), body, In(Bare(it), next, ctx))
    case _ => code
  }

  function BranchBytes(code: seq<byte>, pc: nat, alts: Alts, ctx: Ctx): (r: seq<byte>)
    requires pc + AltsSize(alts) <= |code|
    ensures |r| == |code|
    decreases alts, 0
  {
    var code1 := AutoBytes(code, pc, alts.code, ctx);
    if alts.More? then BranchBytes(code1, pc + Size(alts.code) + 3, alts.rest, ctx) else code1
  }

  /** Only bytes from lo to hi differ. */
  ghost predicate Within(was: seq<byte>, now: seq<byte>, lo: nat, hi: nat)
  {
    |was| == |now| && forall k {:trigger now[k]} :: 0 <= k < |was| && !(lo <= k < hi) ==> now[k] == was[k]
  }

  lemma {:induction false} BytesWithin(code: seq<byte>, pc: nat, c: Code, ctx: Ctx)
    requires pc + Size(c) <= |code|
    ensures Within(code, AutoBytes(code, pc, c, ctx), pc, pc + Size(c))
    decreases c, 0
  {
    if c.Cons? {
      var code1 := ItemBytes(code, pc, c.item, c.next, ctx);
      ItemWithin(code, pc, c.item, c.next, ctx);
      BytesWithin(code1, pc + ItemSize(c.item), c.next, ctx);
      WithinTrans(code, code1, AutoBytes(code, pc, c, ctx), pc, pc + ItemSize(c.item), pc + Size(c));
    }
  }

  lemma {:induction false} WithinTrans(a: seq<byte>, b: seq<byte>, c: seq<byte>, lo: nat, mid: nat, hi: nat)
    requires lo <= mid <= hi && Within(a, b, lo, mid) && Within(b, c, mid, hi)
    ensures Within(a, c, lo, hi)
  {
    forall k {:trigger c[k]} | 0 <= k < |a| && !(lo <= k < hi) ensures c[k] == a[k] {
      assert b[k] == a[k];
    }
  }

  lemma {:induction false} ItemWithin(code: seq<byte>, pc: nat, it: Item, next: Code, ctx: Ctx)
    requires pc + ItemSize(it) <= |code|
    ensures Within(code, ItemBytes(code, pc, it, next, ctx), pc, pc + ItemSize(it))
    decreases it, 1
  {
    if it.Group? {
      BranchesWithin(code, pc + ZeroSize(it.zero) + BraSize(it.bra), it.body, In(Bare(it), next, ctx));
    }
  }

  lemma {:induction false} BranchesWithin(code: seq<byte>, pc: nat, alts: Alts, ctx: Ctx)
    requires pc + AltsSize(alts) <= |code|
    ensures Within(code, BranchBytes(code, pc, alts, ctx), pc, pc + AltsSize(alts))
    decreases alts, 0
  {
    BytesWithin(code, pc, alts.code, ctx);
    if alts.More? {
      var code1 := AutoBytes(code, pc, alts.code, ctx);
      var p := pc + Size(alts.code) + 3;
      BranchesWithin(code1, p, alts.rest, ctx);
      WithinTrans(code, code1, BranchBytes(code1, p, alts.rest, ctx), pc, p, pc + AltsSize(alts));
    }
  }

  lemma {:induction false} WithinSame(was: seq<byte>, now: seq<byte>, lo: nat, hi: nat, from: nat, to: nat)
    requires Within(was, now, lo, hi) && from <= to <= |was| && (to <= lo || hi <= from)
    ensures Same(was, from, to, now, 0)
  {
  }

  /** The rewritten bytes encode the rewritten tree. */
  lemma {:induction false} BytesEncode(code: seq<byte>, pc: nat, c: Code, ctx: Ctx)
    requires At(code, pc, c) && pc + Size(c) <= |code|
    ensures At(AutoBytes(code, pc, c, ctx), pc, AutoCode(c, ctx))
    decreases c, 0
  {
    hide ItemAt, Within;
    if c.Cons? {
      var code1, mid := ItemBytes(code, pc, c.item, c.next, ctx), pc + ItemSize(c.item);
      var code2 := AutoBytes(code1, mid, c.next, ctx);
      AtBound(code, pc, c);
      ItemEncodes(code, pc, c.item, c.next, ctx);
      ItemWithin(code, pc, c.item, c.next, ctx);
      WithinSame(code, code1, pc, mid, mid, |code|);
      AtShift(code, mid, |code|, code1, 0, mid, mid, c.next);
      BytesEncode(code1, mid, c.next, ctx);
      BytesWithin(code1, mid, c.next, ctx);
      WithinSame(code1, code2, mid, pc + Size(c), 0, mid);
      ItemShift(code1, 0, mid, code2, 0, pc, pc, AutoItem(c.item, c.next, ctx));
    }
  }

  lemma {:induction false} ItemEncodes(code: seq<byte>, pc: nat, it: Item, next: Code, ctx: Ctx)
    requires ItemAt(code, pc, it) && pc + ItemSize(it) <= |code|
    ensures ItemAt(ItemBytes(code, pc, it, next, ctx), pc, AutoItem(it, next, ctx))
    decreases it, 1
  {
    if it.Many? {
      RepeatEncodes(code, pc, it.sel, it.rep, AutoRepeat(it.sel, it.rep, next, ctx));
    } else if it.Group? {
      GroupElim(code, pc, it);
      BranchesEncode(code, pc + ZeroSize(it.zero), BraSize(it.bra), it.body, In(Bare(it), next, ctx));
      GroupEncodes(code, pc, it, In(Bare(it), next, ctx));
    }
  }

  lemma {:induction false} GroupEncodes(code: seq<byte>, pc: nat, it: Item, up: Ctx)
    requires it.Group? && pc + ItemSize(it) <= |code|
    requires HeadAt(code, pc, it.zero, it.bra, it.num)
    requires KetAt(code, pc + ZeroSize(it.zero), BraSize(it.bra) + AltsSize(it.body), it.ket)
    requires var p, h := pc + ZeroSize(it.zero), BraSize(it.bra);
             AltsAt(BranchBytes(code, p + h, it.body, up), p, h, AutoBranches(it.body, up))
    ensures ItemAt(BranchBytes(code, pc + ZeroSize(it.zero) + BraSize(it.bra), it.body, up), pc,
                   Group(it.zero, it.bra, it.num, AutoBranches(it.body, up), it.ket))
  {
    hide HeadAt, KetAt, AltsAt, Same, Within;
    var p := pc + ZeroSize(it.zero) + BraSize(it.bra);
    var now, end := BranchBytes(code, p, it.body, up), p + AltsSize(it.body);
    BranchesWithin(code, p, it.body, up);
    WithinSame(code, now, p, end, 0, p);
    WithinSame(code, now, p, end, end, |code|);
    GroupRebuilt(code, now, pc, it, AutoBranches(it.body, up));
  }

  lemma {:induction false} GroupRebuilt(code: seq<byte>, now: seq<byte>, pc: nat, it: Item, body: Alts)
    requires it.Group? && AltsSize(body) == AltsSize(it.body) && pc + ItemSize(it) <= |code|
    requires HeadAt(code, pc, it.zero, it.bra, it.num)
    requires KetAt(code, pc + ZeroSize(it.zero), BraSize(it.bra) + AltsSize(body), it.ket)
    requires Same(code, 0, pc + ZeroSize(it.zero) + BraSize(it.bra), now, 0)
    requires Same(code, pc + ItemSize(it) - 3, |code|, now, 0) && |now| == |code|
    requires AltsAt(now, pc + ZeroSize(it.zero), BraSize(it.bra), body)
    ensures ItemAt(now, pc, Group(it.zero, it.bra, it.num, body, it.ket))
  {
    hide HeadAt, KetAt, AltsAt, Same;
    var p, h := pc + ZeroSize(it.zero), BraSize(it.bra);
    HeadShift(code, 0, p + h, now, 0, pc, pc, it.zero, it.bra, it.num);
    KetMoved(code, now, p, h + AltsSize(body), it.ket);
    GroupIntro(now, pc, Group(it.zero, it.bra, it.num, body, it.ket));
  }

  lemma {:induction false} KetMoved(code: seq<byte>, now: seq<byte>, p: nat, n: nat, ket: Ket)
    requires KetAt(code, p, n, ket) && |now| == |code| && Same(code, p + n, |code|, now, 0)
    ensures KetAt(now, p, n, ket)
  {
    SameGet(code, p + n, |code|, now, 0, p + n + 1);
    assert now[p + n] == code[p + n];
  }

  lemma {:induction false} RepeatEncodes(code: seq<byte>, pc: nat, sel: Sel, rep: Rep, rep': Rep)
    requires ItemAt(code, pc, Many(sel, rep))
    requires rep' == rep || rep' == Possessed(rep)
    ensures RepeatPos(pc, sel) < |code| && ItemAt(code[RepeatPos(pc, sel) := RepeatOp(sel, rep')], pc, Many(sel, rep'))
  {
    var now := code[RepeatPos(pc, sel) := RepeatOp(sel, rep')];
    assert ManySize(sel, rep') == ManySize(sel, rep);
    if sel.Set? {
      assert now[pc + 1..pc + 33] == code[pc + 1..pc + 33];
    }
  }

  /** The first of several branches: it is encoded anew, what follows is still there. */
  lemma {:induction false} FirstEncodes(code: seq<byte>, now: seq<byte>, p: nat, h: nat, alts: Alts, c: Code)
    requires h >= 3 && AltsAt(code, p, h, alts) && Size(c) == Size(alts.code)
    requires Within(code, now, p + h, p + h + Size(c)) && At(now, p + h, c)
    ensures p + h + AltsSize(alts) <= |now| && Get(now, p + 1) == h + Size(c)
    ensures alts.More? ==> now[p + h + Size(c)] == OP_ALT && AltsAt(now, p + h + Size(c), 3, alts.rest)
  {
    var q := p + h + Size(c);
    WithinSame(code, now, p + h, q, 0, p + h);
    WithinSame(code, now, p + h, q, q, |code|);
    SameGet(code, 0, p + h, now, 0, p + 1);
    if alts.More? {
      AltsShift(code, q, |code|, now, 0, q, q, 3, alts.rest);
      assert now[q] == code[q];
    }
  }

  lemma {:induction false} JoinEncodes(code: seq<byte>, now: seq<byte>, p: nat, h: nat, c: Code, rest: Alts)
    requires h >= 3 && At(code, p + h, c) && p + h + Size(c) + 3 + AltsSize(rest) <= |code|
    requires var q := p + h + Size(c);
             && Get(code, p + 1) == h + Size(c) && code[q] == OP_ALT
             && Within(code, now, q + 3, q + 3 + AltsSize(rest)) && AltsAt(now, q, 3, rest)
    ensures AltsAt(now, p, h, More(c, rest))
  {
    hide At, AltsAt;
    var q := p + h + Size(c);
    WithinSame(code, now, q + 3, q + 3 + AltsSize(rest), 0, q + 3);
    AtShift(code, 0, q + 3, now, 0, p + h, p + h, c);
    SameGet(code, 0, q + 3, now, 0, p + 1);
    assert now[q] == code[q];
    AltsMore(now, p, h, c, rest);
  }

  lemma {:induction false} BranchesEncode(code: seq<byte>, p: nat, h: nat, alts: Alts, ctx: Ctx)
    requires h >= 3 && AltsAt(code, p, h, alts)
    ensures p + h + AltsSize(alts) <= |code|
    ensures AltsAt(BranchBytes(code, p + h, alts, ctx), p, h, AutoBranches(alts, ctx))
    decreases alts, 0
  {
    hide ItemAt, At, Within;
    var code1, c := AutoBytes(code, p + h, alts.code, ctx), AutoCode(alts.code, ctx);
    BytesEncode(code, p + h, alts.code, ctx);
    BytesWithin(code, p + h, alts.code, ctx);
    FirstEncodes(code, code1, p, h, alts, c);
    if alts.More? {
      var q := p + h + Size(c);
      BranchesEncode(code1, q, 3, alts.rest, ctx);
      BranchesWithin(code1, q + 3, alts.rest, ctx);
      JoinEncodes(code1, BranchBytes(code1, q + 3, alts.rest, ctx), p, h, c, AutoBranches(alts.rest, ctx));
    } else {
      AltsLast(code1, p, h, c);
    }
  }

  // ----- where the pass stands -----

  /** The groups round the current branch, each with its branches still to come: alts
      starts with the current one. */
  datatype Zip = Outside | Inside(alts: Alts, it: Item, next: Code, up: Zip)

  function ZipCtx(z: Zip): Ctx
  {
    match z
    case Outside => AtEnd
    case Inside(_, it, next, up) => In(it, next, ZipCtx(up))
  }

  /** The closing bracket of the group whose current branch ends at e. */
  function CloseOf(e: nat, alts: Alts): nat { e + if alts.More? then 3 + AltsSize(alts.rest) else 0 }

  /** Where the program ends. */
  function After(e: nat, z: Zip): (r: nat)
    ensures r >= e
    decreases z
  {
    match z
    case Outside => e
    case Inside(alts, _, next, up) => After(CloseOf(e, alts) + 3 + Size(next), up)
  }

  /** The rest of the program, from the branch c at pc on. */
  ghost predicate ZipIn(code: seq<byte>, pc: nat, c: Code, z: Zip)
    decreases z, 1
  {
    At(code, pc, c) && AfterIn(code, pc + Size(c), z)
  }

  ghost predicate AfterIn(code: seq<byte>, e: nat, z: Zip)
    decreases z, 0
  {
    e < |code| &&
    match z
    case Outside => code[e] == OP_END
    case Inside(alts, it, next, up) =>
      var q := CloseOf(e, alts);
      && (alts.More? ==> code[e] == OP_ALT && AltsAt(code, e, 3, alts.rest))
      && it.Group? && CloseAt(code, q) && KetHere(code, q, it) && ZipIn(code, q + 3, next, up)
  }

  lemma CloseIsKet(code: seq<byte>, e: nat, alts: Alts)
    requires CloseAt(code, CloseOf(e, alts))
    requires alts.More? ==> e < |code| && code[e] == OP_ALT && AltsAt(code, e, 3, alts.rest)
    ensures KetOf(code, e) == CloseOf(e, alts)
  {
    if alts.More? {
      AltsSkip(code, e, 3, alts.rest);
    }
  }

  lemma {:induction false} AfterExit(code: seq<byte>, e: nat, z: Zip)
    requires AfterIn(code, e, z)
    ensures ExitAt(code, e, ZipCtx(z)) && After(e, z) < |code|
    decreases z
  {
    if z.Inside? {
      var q := CloseOf(e, z.alts);
      CloseIsKet(code, e, z.alts);
      AfterExit(code, q + 3 + Size(z.next), z.up);
    }
  }

  lemma {:induction false} ZipCode(code: seq<byte>, pc: nat, c: Code, z: Zip)
    requires ZipIn(code, pc, c, z)
    ensures CodeIn(code, pc, c, ZipCtx(z)) && After(pc + Size(c), z) < |code|
  {
    AfterExit(code, pc + Size(c), z);
  }

  /** A byte that is no bracket's opcode may change behind the pass. */
  lemma {:induction false} ZipUpdate(code: seq<byte>, now: seq<byte>, q: nat, v: byte, pc: nat, c: Code, z: Zip)
    requires q < pc && q < |code| && now == code[q := v] && code[q] < OP_ONCE && ZipIn(code, pc, c, z)
    ensures ZipIn(now, pc, c, z)
    decreases z
  {
    hide At, AltsAt, KetHere;
    var e := pc + Size(c);
    AtShift(code, pc, |code|, now, 0, pc, pc, c);
    if z.Inside? {
      if z.alts.More? {
        AltsShift(code, pc, |code|, now, 0, e, e, 3, z.alts.rest);
      }
      ZipUpdate(code, now, q, v, CloseOf(e, z.alts) + 3, z.next, z.up);
      KetStays(code, now, q, v, CloseOf(e, z.alts), z.it);
    }
  }

  lemma KetStays(code: seq<byte>, now: seq<byte>, q: nat, v: byte, ket: nat, it: Item)
    requires it.Group? && CloseAt(code, ket) && KetHere(code, ket, it)
    requires q < ket && now == code[q := v] && code[q] < OP_ONCE
    ensures KetHere(now, ket, it)
  {
    assert now[ket + 1] == code[ket + 1] && now[ket + 2] == code[ket + 2];
    assert BraOp(it.bra) >= OP_ONCE;
  }

  // ----- what the pass still has to do -----

  function Finish(code: seq<byte>, pc: nat, c: Code, z: Zip): seq<byte>
    requires After(pc + Size(c), z) <= |code|
    decreases z, 1
  {
    FinishRest(AutoBytes(code, pc, c, ZipCtx(z)), pc + Size(c), z)
  }

  function FinishRest(code: seq<byte>, e: nat, z: Zip): seq<byte>
    requires After(e, z) <= |code|
    decreases z, 0
  {
    match z
    case Outside => code
    case Inside(alts, it, next, up) =>
      var q := CloseOf(e, alts) + 3;
      assert After(e, z) == After(q + Size(next), up) >= q;
      Finish(if alts.More? then BranchBytes(code, e + 3, alts.rest, ZipCtx(z)) else code, q, next, up)
  }

  /** The pass is at pc, or, behind a class, at the class's repeat opcode with mid more
      bytes to go to pc + mid, in front of the branch c; target is what all will become. */
  ghost predicate Pass(code: seq<byte>, pc: nat, mid: nat, c: Code, z: Zip, target: seq<byte>)
  {
    && pc < |code| && (mid > 0 ==> IsClassRepeat(code[pc]) && mid == OpLength(code[pc]))
    && ZipIn(code, pc + mid, c, z) && After(pc + mid + Size(c), z) <= |code|
    && Finish(code, pc + mid, c, z) == target
  }

  // ----- the moves of the pass -----

  lemma {:induction false} MoveItem(code: seq<byte>, now: seq<byte>, pc: nat, mid: nat, c: Code, z: Zip, target: seq<byte>, pc': nat)
    requires c.Cons? && !c.item.Group? && Pass(code, pc, 0, c, z, target)
    requires now == ItemBytes(code, pc, c.item, c.next, ZipCtx(z))
    requires mid == pc + ItemSize(c.item) - pc' && pc' < |code| && (mid > 0 ==> IsClassRepeat(now[pc']) && mid == OpLength(now[pc']))
    requires pc <= pc'
    requires ZipIn(now, pc + ItemSize(c.item), c.next, z)
    ensures Pass(now, pc', mid, c.next, z, target)
  {
    hide ZipIn, ItemBytes, FinishRest;
  }

  lemma {:induction false} FinishZero(code: seq<byte>, pc: nat, it: Item, next: Code, z: Zip)
    requires it.Group? && it.zero != NoZero && After(pc + Size(Cons(it, next)), z) <= |code|
    ensures pc + 1 + Size(Cons(Bare(it), next)) == pc + Size(Cons(it, next))
    ensures Finish(code, pc + 1, Cons(Bare(it), next), z) == Finish(code, pc, Cons(it, next), z)
  {
    var bare := Bare(it);
    assert pc + 1 + ItemSize(bare) == pc + ItemSize(it);
    assert Bare(bare) == bare;
    assert ItemBytes(code, pc, it, next, ZipCtx(z)) == ItemBytes(code, pc + 1, bare, next, ZipCtx(z));
  }

  lemma {:induction false} MoveZero(code: seq<byte>, pc: nat, c: Code, z: Zip, target: seq<byte>)
    requires c.Cons? && c.item.Group? && c.item.zero != NoZero && Pass(code, pc, 0, c, z, target)
    ensures Pass(code, pc + 1, 0, Cons(Bare(c.item), c.next), z, target)
  {
    hide Finish, AfterIn, ItemAt;
    BareItem(code, pc, c.item);
    FinishZero(code, pc, c.item, c.next, z);
  }

  lemma {:induction false} GroupHere(code: seq<byte>, p: nat, it: Item)
    requires it.Group? && it.zero == NoZero && ItemAt(code, p, it)
    ensures AltsAt(code, p, BraSize(it.bra), it.body)
    ensures var q := p + BraSize(it.bra) + AltsSize(it.body); CloseAt(code, q) && KetHere(code, q, it)
  {
    GroupElim(code, p, it);
    KetCloses(code, p, BraSize(it.bra) + AltsSize(it.body), it.ket);
  }

  lemma {:induction false} BranchHere(code: seq<byte>, p: nat, h: nat, alts: Alts)
    requires h >= 3 && AltsAt(code, p, h, alts) && p + h + AltsSize(alts) < |code|
    ensures At(code, p + h, alts.code)
    ensures var e := p + h + Size(alts.code);
            CloseOf(e, alts) == p + h + AltsSize(alts) && e < |code| && (alts.More? ==> code[e] == OP_ALT && AltsAt(code, e, 3, alts.rest))
  {
  }

  lemma {:induction false} ZipInside(code: seq<byte>, pc: nat, it: Item, next: Code, z: Zip)
    requires it.Group? && it.zero == NoZero && ZipIn(code, pc, Cons(it, next), z)
    ensures ZipIn(code, pc + BraSize(it.bra), it.body.code, Inside(it.body, it, next, z))
  {
    hide ItemAt, AltsAt, KetHere, CloseAt;
    GroupHere(code, pc, it);
    BranchHere(code, pc, BraSize(it.bra), it.body);
    assert ZipIn(code, pc + ItemSize(it), next, z);
  }

  lemma {:induction false} FinishInside(code: seq<byte>, pc: nat, it: Item, next: Code, z: Zip)
    requires it.Group? && it.zero == NoZero && After(pc + Size(Cons(it, next)), z) <= |code|
    ensures After(pc + BraSize(it.bra) + Size(it.body.code), Inside(it.body, it, next, z)) == After(pc + Size(Cons(it, next)), z)
    ensures Finish(code, pc + BraSize(it.bra), it.body.code, Inside(it.body, it, next, z)) == Finish(code, pc, Cons(it, next), z)
  {
    var z', p := Inside(it.body, it, next, z), pc + BraSize(it.bra);
    var e, q := p + Size(it.body.code), p + AltsSize(it.body) + 3;
    assert CloseOf(e, it.body) + 3 == q == pc + ItemSize(it);
    var code1 := AutoBytes(code, p, it.body.code, ZipCtx(z'));
    var code2 := BranchBytes(code, p, it.body, ZipCtx(z'));
    assert code2 == if it.body.More? then BranchBytes(code1, e + 3, it.body.rest, ZipCtx(z')) else code1;
    assert ItemBytes(code, pc, it, next, ZipCtx(z)) == code2;
    assert FinishRest(code1, e, z') == Finish(code2, q, next, z);
  }

  lemma {:induction false} MoveIn(code: seq<byte>, pc: nat, c: Code, z: Zip, target: seq<byte>)
    requires c.Cons? && c.item.Group? && c.item.zero == NoZero && Pass(code, pc, 0, c, z, target)
    ensures Pass(code, pc + BraSize(c.item.bra), 0, c.item.body.code, Inside(c.item.body, c.item, c.next, z), target)
  {
    hide ItemAt, Finish, AfterIn;
    ZipInside(code, pc, c.item, c.next, z);
    FinishInside(code, pc, c.item, c.next, z);
    AfterExit(code, pc + BraSize(c.item.bra) + Size(c.item.body.code), Inside(c.item.body, c.item, c.next, z));
  }

  lemma {:induction false} AtNil(code: seq<byte>, pc: nat, z: Zip, target: seq<byte>)
    requires Pass(code, pc, 0, Nil, z, target)
    ensures AfterIn(code, pc, z) && After(pc, z) <= |code| && FinishRest(code, pc, z) == target
  {
    assert pc + 0 + Size(Nil) == pc;
    assert AutoBytes(code, pc, Nil, ZipCtx(z)) == code;
  }

  lemma {:induction false} FinishAlt(code: seq<byte>, pc: nat, z: Zip)
    requires z.Inside? && z.alts.More? && After(pc, z) <= |code|
    ensures After(pc + 3 + Size(z.alts.rest.code), z.(alts := z.alts.rest)) == After(pc, z)
    ensures Finish(code, pc + 3, z.alts.rest.code, z.(alts := z.alts.rest)) == FinishRest(code, pc, z)
  {
    var rest, z' := z.alts.rest, z.(alts := z.alts.rest);
    var e, q := pc + 3 + Size(rest.code), CloseOf(pc, z.alts) + 3;
    assert CloseOf(e, rest) + 3 == q;
    var code1 := AutoBytes(code, pc + 3, rest.code, ZipCtx(z'));
    var code2 := BranchBytes(code, pc + 3, rest, ZipCtx(z));
    assert code2 == if rest.More? then BranchBytes(code1, e + 3, rest.rest, ZipCtx(z')) else code1;
    assert FinishRest(code1, e, z') == Finish(code2, q, z.next, z.up);
  }

  lemma {:induction false} ZipAlt(code: seq<byte>, pc: nat, z: Zip)
    requires z.Inside? && z.alts.More? && AfterIn(code, pc, z)
    ensures ZipIn(code, pc + 3, z.alts.rest.code, z.(alts := z.alts.rest))
    ensures AfterIn(code, pc + 3 + Size(z.alts.rest.code), z.(alts := z.alts.rest))
  {
    hide At, AltsAt, Get;
    BranchHere(code, pc, 3, z.alts.rest);
  }

  lemma {:induction false} MoveAlt(code: seq<byte>, pc: nat, z: Zip, target: seq<byte>)
    requires Pass(code, pc, 0, Nil, z, target) && z.Inside? && z.alts.More?
    ensures Pass(code, pc + 3, 0, z.alts.rest.code, z.(alts := z.alts.rest), target)
  {
    hide Finish, ZipIn, FinishRest, AfterIn;
    AtNil(code, pc, z, target);
    ZipAlt(code, pc, z);
    FinishAlt(code, pc, z);
    AfterExit(code, pc + 3 + Size(z.alts.rest.code), z.(alts := z.alts.rest));
  }

  lemma {:induction false} MoveOut(code: seq<byte>, pc: nat, z: Zip, target: seq<byte>)
    requires Pass(code, pc, 0, Nil, z, target) && z.Inside? && z.alts.Last?
    ensures Pass(code, pc + 3, 0, z.next, z.up, target)
  {
    AtNil(code, pc, z, target);
    assert ZipIn(code, pc + 3, z.next, z.up);
    AfterExit(code, pc + 3 + Size(z.next), z.up);
  }

  // ----- the pass -----

  lemma CharOffset(code: seq<byte>, pc: nat, sel: Sel, rep: Rep)
    requires !sel.Set? && ItemAt(code, pc, Many(sel, rep))
    ensures var off := code[pc] - RepeatBase(code[pc]);
            && 0 <= off
            && (off <= MINUPTO_OFFSET <==> !rep.Exact? && rep.mode != Possessive)
            && (off <= MINUPTO_OFFSET ==> (off % 2 == 0 <==> rep.mode == Greedy))
            && (off <= MINUPTO_OFFSET ==> code[pc] - off + 9 + off / 2 == CharRepOp(sel, Possessed(rep)))
  {
    var off := CharRepOp(sel, rep) - OP_STAR - 13 * Block(sel);
    assert RepeatBase(code[pc]) == OP_STAR + 13 * Block(sel) && code[pc] - RepeatBase(code[pc]) == off;
  }

  lemma ClassOffset(code: seq<byte>, pc: nat, sel: Sel, rep: Rep)
    requires sel.Set? && ItemAt(code, pc, Many(sel, rep))
    ensures var op := code[pc + 33];
            && (OP_CRSTAR <= op <= OP_CRMINRANGE <==> rep.mode != Possessive)
            && (OP_CRSTAR <= op <= OP_CRMINRANGE ==> (op % 2 == 0 <==> rep.mode == Greedy))
            && (OP_CRSTAR <= op <= OP_CRMINRANGE ==> OP_CRPOSSTAR + (op - OP_CRSTAR) / 2 == ClassRepOp(Possessed(rep)))
  {
  }

  /** Whether the repeat at pc, which ends at end, can be made possessive. */
  method CanPossess(code: seq<byte>, pc: nat, greedy: bool, ghost c: Code, ghost z: Zip) returns (r: bool)
    requires c.Cons? && c.item.Many? && ZipIn(code, pc, c, z)
    ensures r == Compare(c.next, ZipCtx(z), Base(c.item.sel, greedy), false)
  {
    ZipCode(code, pc, c, z);
    InnerEnd(code, pc, c, ZipCtx(z));
    var _, list, end := GetChrPropertyList(code, pc, c.item);
    list := list.(flag := greedy);
    r := CompareOpcodes(code, end, list, end, Base(c.item.sel, greedy), c.next, ZipCtx(z));
  }

  /** A repeated literal or type. */
  method PossessChars(a: array<byte>, pc: nat, ghost c: Code, ghost z: Zip)
    requires c.Cons? && c.item.Many? && !c.item.sel.Set? && ZipIn(a[..], pc, c, z) && pc + ItemSize(c.item) <= a.Length
    modifies a
    ensures a[..] == ItemBytes(old(a[..]), pc, c.item, c.next, ZipCtx(z))
  {
    CharOffset(a[..], pc, c.item.sel, c.item.rep);
    var off := a[pc] - RepeatBase(a[pc]);
    if off <= MINUPTO_OFFSET {
      var r := CanPossess(a[..], pc, off % 2 == 0, c, z);
      if r {
        a[pc] := a[pc] - off + 9 + off / 2;
      }
    }
  }

  /** A class. */
  method PossessClass(a: array<byte>, pc: nat, ghost c: Code, ghost z: Zip)
    requires c.Cons? && (c.item.One? || c.item.Many?) && c.item.sel.Set? && ZipIn(a[..], pc, c, z) && pc + ItemSize(c.item) <= a.Length
    modifies a
    ensures a[..] == ItemBytes(old(a[..]), pc, c.item, c.next, ZipCtx(z))
  {
    ZipCode(a[..], pc, c, z);
    InnerEnd(a[..], pc, c, ZipCtx(z));
    if c.item.Many? {
      ClassOffset(a[..], pc, c.item.sel, c.item.rep);
    }
    var op := a[pc + 33];
    if OP_CRSTAR <= op <= OP_CRMINRANGE {
      var r := CanPossess(a[..], pc, op % 2 == 0, c, z);
      if r {
        a[pc + 33] := OP_CRPOSSTAR + (op - OP_CRSTAR) / 2;
      }
    }
  }

  /** A move that changes nothing: at a bracket, an ALT or a zero-repeat opcode. */
  lemma PassBracket(code: seq<byte>, pc: nat, c: Code, z: Zip, target: seq<byte>) returns (c': Code, z': Zip)
    requires Pass(code, pc, 0, c, z, target) && (c == Nil || c.item.Group?) && code[pc] != OP_END
    ensures code[pc] >= OP_ALT && OpLength(code[pc]) > 0
    ensures Pass(code, pc + OpLength(code[pc]), 0, c', z', target)
  {
    hide ItemAt;
    if c == Nil {
      AtNil(code, pc, z, target);
      if z.alts.More? {
        MoveAlt(code, pc, z, target);
        c', z' := z.alts.rest.code, z.(alts := z.alts.rest);
      } else {
        MoveOut(code, pc, z, target);
        c', z' := z.next, z.up;
      }
    } else if c.item.zero != NoZero {
      ZeroOf(code, pc, c.item);
      MoveZero(code, pc, c, z, target);
      c', z' := Cons(Bare(c.item), c.next), z;
    } else {
      GroupElim(code, pc, c.item);
      MoveIn(code, pc, c, z, target);
      c', z' := c.item.body.code, Inside(c.item.body, c.item, c.next, z);
    }
  }

  /** The opcode of an item that is no group, after the pass has been there. */
  lemma PassLength(was: seq<byte>, now: seq<byte>, pc: nat, c: Code, z: Zip, target: seq<byte>) returns (mid: nat)
    requires c.Cons? && !c.item.Group? && Pass(was, pc, 0, c, z, target)
    requires now == ItemBytes(was, pc, c.item, c.next, ZipCtx(z))
    ensures pc < |now| && OpLength(now[pc]) > 0 && Pass(now, pc + OpLength(now[pc]), mid, c.next, z, target)
  {
    hide ItemAt, AfterIn, Finish, ZipIn;
    var e := pc + ItemSize(c.item);
    ZipNext(was, pc, c, z);
    if c.item.Many? {
      mid := PassRepeat(was, now, pc, c.item, c.next, z);
    } else {
      SingleLength(was, pc, c.item);
      mid := 0;
    }
    MoveItem(was, now, pc, mid, c, z, target, e - mid);
  }

  lemma SingleLength(code: seq<byte>, pc: nat, it: Item)
    requires (it.One? || it.Assert?) && ItemAt(code, pc, it)
    ensures OpLength(code[pc]) == ItemSize(it)
  {
    if it.One? {
      OneOpcode(code, pc, it);
    }
  }

  lemma PassRepeat(was: seq<byte>, now: seq<byte>, pc: nat, it: Item, next: Code, z: Zip) returns (mid: nat)
    requires it.Many? && ItemAt(was, pc, it) && pc + ItemSize(it) < |was|
    requires now == ItemBytes(was, pc, it, next, ZipCtx(z)) && ZipIn(was, pc + ItemSize(it), next, z)
    ensures |now| == |was| && ZipIn(now, pc + ItemSize(it), next, z)
    ensures OpLength(now[pc]) > 0 && OpLength(now[pc]) + mid == ItemSize(it)
    ensures mid > 0 ==> IsClassRepeat(now[pc + OpLength(now[pc])]) && mid == OpLength(now[pc + OpLength(now[pc])])
  {
    mid := RepeatLength(was, now, pc, it, AutoItem(it, next, ZipCtx(z)), next, ZipCtx(z));
    var q := RepeatPos(pc, it.sel);
    ZipUpdate(was, now, q, now[q], pc + ItemSize(it), next, z);
  }

  lemma ZipNext(code: seq<byte>, pc: nat, c: Code, z: Zip)
    requires c.Cons? && ZipIn(code, pc, c, z)
    ensures ItemAt(code, pc, c.item) && ZipIn(code, pc + ItemSize(c.item), c.next, z)
    ensures pc + ItemSize(c.item) < |code|
  {
    hide ItemAt, AfterIn;
    AfterExit(code, pc + Size(c), z);
  }

  lemma RepeatLength(was: seq<byte>, now: seq<byte>, pc: nat, it: Item, it': Item, next: Code, ctx: Ctx) returns (mid: nat)
    requires it.Many? && ItemAt(was, pc, it) && pc + ItemSize(it) < |was|
    requires now == ItemBytes(was, pc, it, next, ctx) && it' == AutoItem(it, next, ctx)
    ensures var q := RepeatPos(pc, it.sel);
            q < pc + ItemSize(it) && now == was[q := now[q]] && was[q] < OP_ONCE
    ensures OpLength(now[pc]) > 0 && OpLength(now[pc]) + mid == ItemSize(it)
    ensures mid > 0 ==> IsClassRepeat(now[pc + OpLength(now[pc])]) && mid == OpLength(now[pc + OpLength(now[pc])])
  {
    ItemEncodes(was, pc, it, next, ctx);
    ManyOpcode(now, pc, it');
    ManyOpcode(was, pc, it);
    mid := if it.sel.Set? then ItemSize(it) - 33 else 0;
  }

  /** From a class's repeat opcode on to the next item. */
  lemma PassMid(code: seq<byte>, pc: nat, mid: nat, c: Code, z: Zip, target: seq<byte>)
    requires mid > 0 && Pass(code, pc, mid, c, z, target)
    ensures Pass(code, pc + mid, 0, c, z, target) && OpLength(code[pc]) == mid && IsClassRepeat(code[pc])
  {
    hide Finish;
    ZipCode(code, pc + mid, c, z);
    ExitBound(code, pc + mid, c, ZipCtx(z));
  }

  lemma ExitBound(code: seq<byte>, pc: nat, c: Code, ctx: Ctx)
    requires CodeIn(code, pc, c, ctx)
    ensures pc < |code|
  {
    AtBound(code, pc, c);
  }

  /** What happens at one opcode, up to the next one. */
  method PassOpcode(a: array<byte>, pc: nat, ghost mid: nat, ghost c: Code, ghost z: Zip, ghost target: seq<byte>)
    returns (ghost mid': nat, ghost c': Code, ghost z': Zip)
    requires Pass(a[..], pc, mid, c, z, target) && a[pc] != OP_END
    modifies a
    ensures OpLength(a[pc]) > 0 && Pass(a[..], pc + OpLength(a[pc]), mid', c', z', target)
  {
    hide Finish, AfterIn, ItemAt;
    ghost var was := a[..];
    mid', c', z' := 0, c, z;
    if mid > 0 {
      PassMid(was, pc, mid, c, z, target);
    } else {
      if c == Nil || c.item.Group? {
        c', z' := PassBracket(was, pc, c, z, target);
      } else {
        PassKinds(was, pc, c, z);
        c' := c.next;
      }
    }
    var op := a[pc];
    if OP_STAR <= op <= OP_TYPEPOSUPTO {
      PossessChars(a, pc, c, z);
    } else if op == OP_CLASS || op == OP_NCLASS {
      PossessClass(a, pc, c, z);
    }
    if mid == 0 && c.Cons? && !c.item.Group? {
      mid' := PassLength(was, a[..], pc, c, z, target);
    }
  }

  lemma PassKinds(code: seq<byte>, pc: nat, c: Code, z: Zip)
    requires c.Cons? && !c.item.Group? && ZipIn(code, pc, c, z)
    ensures pc + ItemSize(c.item) <= |code| && pc < |code|
    ensures OP_STAR <= code[pc] <= OP_TYPEPOSUPTO <==> c.item.Many? && !c.item.sel.Set?
    ensures code[pc] == OP_CLASS || code[pc] == OP_NCLASS <==> (c.item.One? || c.item.Many?) && c.item.sel.Set?
  {
    ZipNext(code, pc, c, z);
    if c.item.One? {
      OneOpcode(code, pc, c.item);
    } else if c.item.Many? {
      ManyOpcode(code, pc, c.item);
    } else {
      assert code[pc] == AnchorOp(c.item.anchor);
    }
  }

  /** The pass over a finished program. */
  method AutoPossessify(a: array<byte>, ghost alts: Alts)
    requires ProgramAt(a[..], alts)
    modifies a
    ensures ProgramAt(a[..], AutoProgram(alts))
  {
    ghost var c0 := Cons(Top(alts), Nil);
    ghost var was, target := a[..], AutoBytes(a[..], 0, c0, AtEnd);
    StartPass(was, alts);
    var pc: nat := 0;
    ghost var mid: nat, c, z := 0, c0, Outside;
    while a[pc] != OP_END
      invariant Pass(a[..], pc, mid, c, z, target)
      decreases a.Length - pc
    {
      mid, c, z := PassOpcode(a, pc, mid, c, z, target);
      pc := pc + OpLength(a[pc]);
    }
    EndPass(a[..], pc, mid, c, z, target);
    TargetEncodes(was, alts);
  }

  lemma StartPass(code: seq<byte>, alts: Alts)
    requires ProgramAt(code, alts)
    ensures Pass(code, 0, 0, Cons(Top(alts), Nil), Outside, AutoBytes(code, 0, Cons(Top(alts), Nil), AtEnd))
  {
    SingleAt(code, 0, Top(alts));
    var c := Cons(Top(alts), Nil);
    assert Size(c) == |code| - 1;
    assert Finish(code, 0, c, Outside) == AutoBytes(code, 0, c, AtEnd);
  }

  lemma EndPass(code: seq<byte>, pc: nat, mid: nat, c: Code, z: Zip, target: seq<byte>)
    requires Pass(code, pc, mid, c, z, target) && code[pc] == OP_END
    ensures code == target
  {
    ZipCode(code, pc + mid, c, z);
    if c.Cons? {
      ItemOpcode(code, pc, c.item);
    } else {
      AtNil(code, pc, z, target);
    }
  }

  lemma TargetEncodes(code: seq<byte>, alts: Alts)
    requires ProgramAt(code, alts)
    ensures ProgramAt(AutoBytes(code, 0, Cons(Top(alts), Nil), AtEnd), AutoProgram(alts))
  {
    var c := Cons(Top(alts), Nil);
    SingleAt(code, 0, Top(alts));
    BytesEncode(code, 0, c, AtEnd);
    BytesWithin(code, 0, c, AtEnd);
    assert AutoCode(c, AtEnd) == Cons(Top(AutoProgram(alts)), Nil);
  }
}
