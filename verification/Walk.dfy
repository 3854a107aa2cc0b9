/** Walking over compiled code by the table of item lengths, and the search for a
    capturing bracket that relies on it. */
module Walk {
  import opened Opcodes
  import opened Bytecode
  import opened Machine
  import opened EmptinessScan

  // ----- the walk visits exactly the opcodes -----

  /** The walk from pc, by the table of item lengths, comes by q. OP_END and an opcode of
      no length end the walk. */
  predicate Visits(code: seq<byte>, pc: nat, q: nat)
    decreases |code| - pc
  {
    pc < |code| &&
    (pc == q || (code[pc] != OP_END && OpLength(code[pc]) > 0 && Visits(code, pc + OpLength(code[pc]), q)))
  }

  /** In the tree of the branch c at pc, q is the position of an opcode. */
  predicate Mark(c: Code, pc: nat, q: nat)
    decreases c, 0
  {
    c.Cons? && (ItemMark(c.item, pc, q) || Mark(c.next, pc + ItemSize(c.item), q))
  }

  predicate ItemMark(it: Item, pc: nat, q: nat)
    decreases it, 1
  {
    || q == pc
    || (it.Many? && it.sel.Set? && q == pc + 33)
    || (it.Group? && GroupMark(it.body, pc + ZeroSize(it.zero), BraSize(it.bra), q))
  }

  /** The bracket at p, the opcodes of the branches, or the closing bracket. */
  predicate GroupMark(alts: Alts, p: nat, h: nat, q: nat)
    decreases alts, 1
  {
    q == p || BranchMark(alts, p + h, q) || q == p + h + AltsSize(alts)
  }

  predicate BranchMark(alts: Alts, pc: nat, q: nat)
    decreases alts, 0
  {
    var e := pc + Size(alts.code);
    Mark(alts.code, pc, q) || (alts.More? && (q == e || BranchMark(alts.rest, e + 3, q)))
  }

  lemma VisitsOne(code: seq<byte>, pc: nat, n: nat, q: nat)
    requires pc < |code| && code[pc] != OP_END && OpLength(code[pc]) == n > 0
    ensures Visits(code, pc, q) <==> q == pc || Visits(code, pc + n, q)
  {
  }

  lemma {:induction false} VisitsCode(code: seq<byte>, pc: nat, c: Code, q: nat)
    requires At(code, pc, c)
    ensures Visits(code, pc, q) <==> Mark(c, pc, q) || Visits(code, pc + Size(c), q)
    decreases c, 0
  {
    if c.Cons? {
      VisitsItem(code, pc, c.item, q);
      VisitsCode(code, pc + ItemSize(c.item), c.next, q);
    }
  }

  lemma {:induction false} VisitsItem(code: seq<byte>, pc: nat, it: Item, q: nat)
    requires ItemAt(code, pc, it)
    ensures Visits(code, pc, q) <==> ItemMark(it, pc, q) || Visits(code, pc + ItemSize(it), q)
    decreases it, 1
  {
    match it
    case One(_) =>
      OneOpcode(code, pc, it);
      VisitsOne(code, pc, ItemSize(it), q);
    case Many(sel, _) =>
      ManyOpcode(code, pc, it);
      if sel.Set? {
        VisitsOne(code, pc, 33, q);
        VisitsOne(code, pc + 33, ItemSize(it) - 33, q);
      } else {
        VisitsOne(code, pc, ItemSize(it), q);
      }
    case Assert(_) =>
      VisitsOne(code, pc, 1, q);
    case Group(_, _, _, _, _) =>
      GroupEnds(code, pc, it);
      VisitsGroup(code, pc, it, q);
  }

  /** The opcodes at both ends of a group, and the branches between them. */
  predicate Framed(code: seq<byte>, pc: nat, it: Item)
    requires it.Group?
  {
    var p := pc + ZeroSize(it.zero);
    var end := p + BraSize(it.bra) + AltsSize(it.body);
    && end + 3 <= |code| && IsKet(code[end])
    && code[p] == BraOp(it.bra) && (it.bra.Paren? && it.bra.cap ==> Get(code, p + 3) == it.num)
    && (it.zero != NoZero ==> IsZero(code[pc]))
    && AltsAt(code, p, BraSize(it.bra), it.body)
  }

  lemma GroupEnds(code: seq<byte>, pc: nat, it: Item)
    requires it.Group? && ItemAt(code, pc, it)
    ensures Framed(code, pc, it)
  {
    hide AltsAt;
    GroupElim(code, pc, it);
  }

  lemma {:induction false} VisitsGroup(code: seq<byte>, pc: nat, it: Item, q: nat)
    requires it.Group? && Framed(code, pc, it)
    ensures Visits(code, pc, q) <==> ItemMark(it, pc, q) || Visits(code, pc + ItemSize(it), q)
    decreases it, 0
  {
    hide AltsAt, GroupMark, OpLength, BraOp;
    var p := pc + ZeroSize(it.zero);
    BracketLengths(it);
    VisitsBracket(code, p, BraSize(it.bra), it.body, q);
    if it.zero != NoZero {
      ZeroLength(code[pc]);
      VisitsOne(code, pc, 1, q);
    }
  }

  lemma BracketLengths(it: Item)
    requires it.Group?
    ensures BraOp(it.bra) != OP_END && OpLength(BraOp(it.bra)) == BraSize(it.bra)
  {
  }

  lemma ZeroLength(op: byte)
    requires IsZero(op)
    ensures OpLength(op) == 1 && op != OP_END
  {
  }

  lemma {:induction false} VisitsBracket(code: seq<byte>, p: nat, h: nat, alts: Alts, q: nat)
    requires h >= 3 && AltsAt(code, p, h, alts)
    requires code[p] != OP_END && OpLength(code[p]) == h
    requires var end := p + h + AltsSize(alts); end < |code| && IsKet(code[end])
    ensures Visits(code, p, q) <==> GroupMark(alts, p, h, q) || Visits(code, p + h + AltsSize(alts) + 3, q)
    decreases alts, 1
  {
    hide AltsAt, BranchMark;
    VisitsOne(code, p, h, q);
    VisitsBranches(code, p, h, alts, q);
    VisitsOne(code, p + h + AltsSize(alts), 3, q);
  }

  lemma {:induction false} VisitsBranches(code: seq<byte>, p: nat, h: nat, alts: Alts, q: nat)
    requires h >= 3 && AltsAt(code, p, h, alts)
    ensures Visits(code, p + h, q) <==> BranchMark(alts, p + h, q) || Visits(code, p + h + AltsSize(alts), q)
    decreases alts, 0
  {
    hide At, Mark, Visits;
    var e := p + h + Size(alts.code);
    VisitsCode(code, p + h, alts.code, q);
    if alts.More? {
      VisitsOne(code, e, 3, q);
      VisitsBranches(code, e, 3, alts.rest, q);
    }
  }

  /** In a finished program the walk comes by the opcodes of the tree, all of them and
      nothing else, and then OP_END. */
  lemma WalkIsInStep(code: seq<byte>, alts: Alts, q: nat)
    requires ProgramAt(code, alts)
    ensures Visits(code, 0, q) <==> ItemMark(Top(alts), 0, q) || q == |code| - 1
  {
    VisitsItem(code, 0, Top(alts), q);
  }

  // ----- the search for a capturing bracket -----

  /** The tree has a capturing bracket numbered n whose opcode is at q. */
  predicate Captures(c: Code, pc: nat, n: nat, q: nat)
    decreases c, 0
  {
    c.Cons? && (ItemCaptures(c.item, pc, n, q) || Captures(c.next, pc + ItemSize(c.item), n, q))
  }

  predicate ItemCaptures(it: Item, pc: nat, n: nat, q: nat)
    decreases it, 1
  {
    it.Group? &&
    var p := pc + ZeroSize(it.zero);
    || (it.bra.Paren? && it.bra.cap && it.num == n && q == p)
    || BranchCaptures(it.body, p + BraSize(it.bra), n, q)
  }

  predicate BranchCaptures(alts: Alts, pc: nat, n: nat, q: nat)
    decreases alts, 0
  {
    || Captures(alts.code, pc, n, q)
    || (alts.More? && BranchCaptures(alts.rest, pc + Size(alts.code) + 3, n, q))
  }

  predicate IsCapturing(op: byte)
  {
    op == OP_CBRA || op == OP_SCBRA || op == OP_CBRAPOS || op == OP_SCBRAPOS
  }

  /** The opcode at q, if the walk comes by, is a capturing bracket numbered n. */
  predicate Hit(code: seq<byte>, n: nat, q: nat)
  {
    q < |code| && IsCapturing(code[q]) && q + 5 <= |code| && Get(code, q + 3) == n
  }

  lemma {:induction false} HitsCode(code: seq<byte>, pc: nat, c: Code, n: nat, q: nat)
    requires At(code, pc, c)
    ensures Captures(c, pc, n, q) <==> Mark(c, pc, q) && Hit(code, n, q)
    decreases c, 0
  {
    if c.Cons? {
      HitsItem(code, pc, c.item, n, q);
      HitsCode(code, pc + ItemSize(c.item), c.next, n, q);
    }
  }

  lemma {:induction false} HitsItem(code: seq<byte>, pc: nat, it: Item, n: nat, q: nat)
    requires ItemAt(code, pc, it)
    ensures ItemCaptures(it, pc, n, q) <==> ItemMark(it, pc, q) && Hit(code, n, q)
    decreases it, 1
  {
    match it
    case One(_) => OneOpcode(code, pc, it);
    case Many(_, _) => ManyOpcode(code, pc, it);
    case Assert(_) => assert code[pc] == AnchorOp(it.anchor);
    case Group(_, _, _, _, _) =>
      GroupEnds(code, pc, it);
      HitsGroup(code, pc, it, n, q);
  }

  lemma {:induction false} HitsGroup(code: seq<byte>, pc: nat, it: Item, n: nat, q: nat)
    requires it.Group? && Framed(code, pc, it)
    ensures ItemCaptures(it, pc, n, q) <==> ItemMark(it, pc, q) && Hit(code, n, q)
    decreases it, 0
  {
    FrameHits(code, pc, it, n);
    HitsBranches(code, pc + ZeroSize(it.zero), BraSize(it.bra), it.body, n, q);
    CombineHits(it, pc, n, q, Hit(code, n, q));
  }

  lemma FrameHits(code: seq<byte>, pc: nat, it: Item, n: nat)
    requires it.Group? && Framed(code, pc, it)
    ensures !Hit(code, n, pc + ItemSize(it) - 3)
    ensures it.zero != NoZero ==> !Hit(code, n, pc)
    ensures Hit(code, n, pc + ZeroSize(it.zero)) <==> it.bra.Paren? && it.bra.cap && it.num == n
  {
  }

  lemma {:induction false} CombineHits(it: Item, pc: nat, n: nat, q: nat, hit: bool)
    requires it.Group?
    requires q == pc + ItemSize(it) - 3 || (it.zero != NoZero && q == pc) ==> !hit
    requires q == pc + ZeroSize(it.zero) ==> (hit <==> it.bra.Paren? && it.bra.cap && it.num == n)
    requires var b := pc + ZeroSize(it.zero) + BraSize(it.bra);
             BranchCaptures(it.body, b, n, q) <==> BranchMark(it.body, b, q) && hit
    ensures ItemCaptures(it, pc, n, q) <==> ItemMark(it, pc, q) && hit
  {
    hide BranchMark, BranchCaptures;
    var p := pc + ZeroSize(it.zero);
    assert ItemMark(it, pc, q) <==> q == pc || GroupMark(it.body, p, BraSize(it.bra), q);
  }

  lemma {:induction false} HitsBranches(code: seq<byte>, p: nat, h: nat, alts: Alts, n: nat, q: nat)
    requires h >= 3 && AltsAt(code, p, h, alts)
    ensures BranchCaptures(alts, p + h, n, q) <==> BranchMark(alts, p + h, q) && Hit(code, n, q)
    decreases alts, 0
  {
    HitsCode(code, p + h, alts.code, n, q);
    if alts.More? {
      HitsBranches(code, p + h + Size(alts.code), 3, alts.rest, n, q);
    }
  }

  /** The walk goes forward. */
  lemma {:induction false} VisitsForward(code: seq<byte>, pc: nat, q: nat)
    requires Visits(code, pc, q)
    ensures pc <= q < |code|
    decreases |code| - pc
  {
    if pc != q {
      VisitsForward(code, pc + OpLength(code[pc]), q);
    }
  }

  /** The capturing brackets of the tree are those the walk comes by. */
  lemma CapturesVisited(code: seq<byte>, alts: Alts, n: nat, q: nat)
    requires ProgramAt(code, alts)
    ensures ItemCaptures(Top(alts), 0, n, q) <==> Visits(code, 0, q) && Hit(code, n, q)
  {
    WalkIsInStep(code, alts, q);
    HitsItem(code, 0, Top(alts), n, q);
  }

  /** The walk reaches OP_END, and every capturing bracket has room for its number. */
  ghost predicate Sound(code: seq<byte>, pc: nat)
    decreases |code| - pc
  {
    pc < |code| &&
    (code[pc] == OP_END ||
     (OpLength(code[pc]) > 0 && (IsCapturing(code[pc]) ==> pc + 5 <= |code|) && Sound(code, pc + OpLength(code[pc]))))
  }

  lemma {:induction false} SoundCode(code: seq<byte>, pc: nat, c: Code)
    requires At(code, pc, c) && Sound(code, pc + Size(c))
    ensures Sound(code, pc)
    decreases c, 0
  {
    if c.Cons? {
      SoundCode(code, pc + ItemSize(c.item), c.next);
      SoundItem(code, pc, c.item);
    }
  }

  lemma {:induction false} SoundItem(code: seq<byte>, pc: nat, it: Item)
    requires ItemAt(code, pc, it) && Sound(code, pc + ItemSize(it))
    ensures Sound(code, pc)
    decreases it, 1
  {
    match it
    case One(_) => OneOpcode(code, pc, it);
    case Many(sel, _) =>
      ManyOpcode(code, pc, it);
      if sel.Set? {
        assert Sound(code, pc + 33);
      }
    case Assert(_) => assert code[pc] == AnchorOp(it.anchor);
    case Group(_, _, _, _, _) =>
      GroupEnds(code, pc, it);
      SoundGroup(code, pc, it);
  }

  lemma {:induction false} SoundGroup(code: seq<byte>, pc: nat, it: Item)
    requires it.Group? && Framed(code, pc, it) && Sound(code, pc + ItemSize(it))
    ensures Sound(code, pc)
    decreases it, 0
  {
    hide AltsAt;
    var p := pc + ZeroSize(it.zero);
    assert Sound(code, p + BraSize(it.bra) + AltsSize(it.body));
    SoundBranches(code, p, BraSize(it.bra), it.body);
    assert Sound(code, p);
  }

  lemma {:induction false} SoundBranches(code: seq<byte>, p: nat, h: nat, alts: Alts)
    requires h >= 3 && AltsAt(code, p, h, alts) && Sound(code, p + h + AltsSize(alts))
    ensures Sound(code, p + h)
    decreases alts, 0
  {
    if alts.More? {
      SoundBranches(code, p + h + Size(alts.code), 3, alts.rest);
    }
    SoundCode(code, p + h, alts.code);
  }

  /** The leftmost capturing bracket with a number, or -1 when there is none. */
  method FindBracket(code: seq<byte>, number: nat, ghost alts: Alts) returns (r: int)
    requires ProgramAt(code, alts)
    ensures r >= 0 ==> ItemCaptures(Top(alts), 0, number, r) && forall q: nat :: q < r ==> !ItemCaptures(Top(alts), 0, number, q)
    ensures r < 0 ==> forall q: nat :: !ItemCaptures(Top(alts), 0, number, q)
  {
    forall q: nat ensures ItemCaptures(Top(alts), 0, number, q) <==> Visits(code, 0, q) && Hit(code, number, q) {
      CapturesVisited(code, alts, number, q);
    }
    SoundItem(code, 0, Top(alts));
    r := Search(code, number);
  }

  /** The walk has come to pc without meeting a bracket with the number. */
  ghost predicate Searched(code: seq<byte>, number: nat, pc: nat)
  {
    && Visits(code, 0, pc)
    && forall q: nat :: Visits(code, 0, q) ==> Visits(code, pc, q) || !Hit(code, number, q)
  }

  lemma SearchStep(code: seq<byte>, number: nat, pc: nat, n: nat)
    requires Searched(code, number, pc) && pc < |code| && code[pc] != OP_END && OpLength(code[pc]) == n > 0
    requires pc + n < |code| && !Hit(code, number, pc)
    ensures Searched(code, number, pc + n)
  {
    VisitsOn(code, 0, pc, n);
    forall q: nat | Visits(code, 0, q) ensures Visits(code, pc + n, q) || !Hit(code, number, q) {
      VisitsOne(code, pc, n, q);
    }
  }

  lemma {:induction false} VisitsOn(code: seq<byte>, from: nat, pc: nat, n: nat)
    requires Visits(code, from, pc) && pc < |code| && code[pc] != OP_END && OpLength(code[pc]) == n > 0
    requires pc + n < |code|
    ensures Visits(code, from, pc + n)
    decreases |code| - from
  {
    if from != pc {
      VisitsOn(code, from + OpLength(code[from]), pc, n);
    } else {
      VisitsOne(code, pc, n, pc + n);
    }
  }

  method Search(code: seq<byte>, number: nat) returns (r: int)
    requires Sound(code, 0)
    ensures r >= 0 ==> Visits(code, 0, r) && Hit(code, number, r) && forall q: nat :: q < r && Visits(code, 0, q) ==> !Hit(code, number, q)
    ensures r < 0 ==> forall q: nat :: Visits(code, 0, q) ==> !Hit(code, number, q)
  {
    var pc: nat := 0;
    while code[pc] != OP_END
      invariant Sound(code, pc) && Searched(code, number, pc)
      decreases |code| - pc
    {
      var c := code[pc];
      if IsCapturing(c) && Get(code, pc + 3) == number {
        forall q: nat | q < pc && Visits(code, 0, q) ensures !Hit(code, number, q) {
          if Visits(code, pc, q) {
            VisitsForward(code, pc, q);
          }
        }
        return pc;
      }
      SearchStep(code, number, pc, OpLength(c));
      pc := pc + OpLength(c);
    }
    return -1;
  }
}
