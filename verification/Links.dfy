/** The links of compiled groups: following them from any bracket, at any depth, visits
    the header of every branch in order and arrives at the closing bracket, whose own link
    leads back to where the walk began. */
module Links {
  import opened Opcodes
  import opened Bytecode
  import opened Machine

  /** The positions met when following links from a bracket or ALT at p, up to and
      including the first that is not an ALT. */
  function Follow(code: seq<byte>, p: nat): seq<nat>
    decreases |code| - p
  {
    if p + 3 > |code| then [p] else
    var q := p + Get(code, p + 1);
    if q == p || q >= |code| then [p]
    else if code[q] == OP_ALT then [p] + Follow(code, q)
    else [p, q]
  }

  /** Where the header of each branch is, and behind the last branch the closing bracket. */
  function Headers(p: nat, h: nat, alts: Alts): seq<nat>
    decreases alts
  {
    var next := p + h + Size(alts.code);
    [p] + if alts.More? then Headers(next, 3, alts.rest) else [next]
  }

  /** A walk from the bracket meets exactly the headers of the branches and then the
      closing bracket, and one link leads back from there. */
  ghost predicate WellLinked(code: seq<byte>, p: nat, h: nat, alts: Alts)
  {
    var ket := p + h + AltsSize(alts);
    && Follow(code, p) == Headers(p, h, alts)
    && ket + 2 < |code| && IsKet(code[ket]) && ket - Get(code, ket + 1) == p
  }

  /** So for every group of the branch c at pc, whatever its depth. */
  ghost predicate AllLinked(code: seq<byte>, pc: nat, c: Code)
    decreases c
  {
    c.Cons? ==>
      && AllLinked(code, pc + ItemSize(c.item), c.next)
      && (c.item.Group? ==>
            var p, h := pc + ZeroSize(c.item.zero), BraSize(c.item.bra);
            && WellLinked(code, p, h, c.item.body)
            && AllLinkedAlts(code, p, h, c.item.body))
  }

  ghost predicate AllLinkedAlts(code: seq<byte>, p: nat, h: nat, alts: Alts)
    decreases alts
  {
    && AllLinked(code, p + h, alts.code)
    && (alts.More? ==> AllLinkedAlts(code, p + h + Size(alts.code), 3, alts.rest))
  }

  lemma {:induction false} FollowsHeaders(code: seq<byte>, p: nat, h: nat, alts: Alts)
    requires Linked(code, p, h, alts) && CloseAt(code, p + h + AltsSize(alts))
    ensures Follow(code, p) == Headers(p, h, alts)
    decreases alts
  {
    var next := p + h + Size(alts.code);
    if alts.More? {
      FollowsHeaders(code, next, 3, alts.rest);
      assert Follow(code, p) == [p] + Follow(code, next);
    } else {
      assert Follow(code, p) == [p, next];
      assert Headers(p, h, alts) == [p] + [next];
    }
  }

  lemma {:induction false} GroupLinked(code: seq<byte>, p: nat, it: Item)
    requires BracketAt(code, p, it)
    ensures WellLinked(code, p, BraSize(it.bra), it.body)
  {
    KetCloses(code, p, BraSize(it.bra) + AltsSize(it.body), it.ket);
    AltsLinked(code, p, BraSize(it.bra), it.body);
    FollowsHeaders(code, p, BraSize(it.bra), it.body);
  }

  lemma KetCloses(code: seq<byte>, p: nat, n: nat, ket: Ket)
    requires KetAt(code, p, n, ket)
    ensures CloseAt(code, p + n)
  {
  }

  lemma {:induction false} LinksLead(code: seq<byte>, pc: nat, c: Code)
    requires At(code, pc, c)
    ensures AllLinked(code, pc, c)
    decreases c, 0
  {
    hide ItemAt, AltsAt, WellLinked;
    if c.Cons? {
      LinksLead(code, pc + ItemSize(c.item), c.next);
      if c.item.Group? {
        BracketOf(code, pc, c.item);
        GroupLinked(code, pc + ZeroSize(c.item.zero), c.item);
        LinksLeadAlts(code, pc + ZeroSize(c.item.zero), BraSize(c.item.bra), c.item.body);
      }
    }
  }

  lemma {:induction false} LinksLeadAlts(code: seq<byte>, p: nat, h: nat, alts: Alts)
    requires h >= 3 && AltsAt(code, p, h, alts)
    ensures AllLinkedAlts(code, p, h, alts)
    decreases alts, 1
  {
    LinksLead(code, p + h, alts.code);
    if alts.More? {
      LinksLeadAlts(code, p + h + Size(alts.code), 3, alts.rest);
    }
  }

  /** In a finished program every group is well linked. */
  lemma ProgramLinked(code: seq<byte>, alts: Alts)
    requires ProgramAt(code, alts)
    ensures AllLinked(code, 0, Cons(Top(alts), Nil))
  {
    SingleAt(code, 0, Top(alts));
    LinksLead(code, 0, Cons(Top(alts), Nil));
  }
}
