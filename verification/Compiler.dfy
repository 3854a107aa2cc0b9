/** The second pass: the code buffer is filled in place, branch by branch, while the
    first and required characters are worked out alongside. */
module Compiler {
  import opened Opcodes
  import opened Bytecode
  import opened Pattern
  import opened Translation
  import opened TwoPass
  import opened Measure
  import opened FirstChar
  import opened EmitChars
  import opened EmitGroups
  import opened EmitAlternatives

  /** The code of the first item of a branch. */
  function ItemCode(b: Branch, bc: nat): Code
    requires b != Empty
  {
    match b
    case Item(atom, q, _) => AtomCode(atom, q, bc)
    case AnchorItem(a, _) => Single(Assert(a))
  }

  lemma {:induction false} ItemCodeSplits(b: Branch, bc: nat)
    requires b != Empty
    ensures Cat(ItemCode(b, bc), BranchCode(b.rest, bc + BranchCaptures(b) - BranchCaptures(b.rest))) == BranchCode(b, bc)
  {
  }

  lemma {:induction false} GroupRoom(cap: bool, alts: Pattern, q: Quantifier, bc: nat)
    ensures (if cap then 8 else 6) + PatternLength(alts) <= AtomLength(Parens(cap, alts), q)
    ensures Size(GroupCode(PieceOf(cap, alts, bc), q)) <= AtomLength(Parens(cap, alts), q)
    ensures AtomCode(Parens(cap, alts), q, bc) == GroupCode(PieceOf(cap, alts, bc), q)
  {
    AtomFits(Parens(cap, alts), q, bc);
    GroupLengthAtLeast((if cap then 8 else 6) + PatternLength(alts), q);
  }

  /** The characters agreed on after one more alternative, given those so far. */
  function AlternativeSummary(isFirst: bool, b: Branch, so: Summary): Summary
  {
    var m := BranchSummary(b, so.varies, START);
    if isFirst then m else Merge(so.first, so.req, m)
  }

  function RestSummary(isFirst: bool, p: Pattern, so: Summary): Summary
  {
    if isFirst then PatternSummary(p, so.varies) else OthersSummary(p, so)
  }

  lemma RestStep(isFirst: bool, p: Pattern, so: Summary)
    ensures RestSummary(isFirst, p, so) ==
            if p.LastBranch? then AlternativeSummary(isFirst, p.b, so)
            else RestSummary(false, p.others, AlternativeSummary(isFirst, p.b, so))
  {
  }

  lemma {:induction false} CombineStep(d: Done, p: Pattern, bc: nat)
    ensures Combine(d, PatternCode(p, bc)) ==
            if p.LastBranch? then Combine(d, Last(BranchCode(p.b, bc)))
            else Combine(Then(d, BranchCode(p.b, bc)), PatternCode(p.others, bc + BranchCaptures(p.b)))
  {
  }

  /** What the compiler writes for a group before looking at its quantifier. */
  lemma {:induction false} ParensAt(was: seq<byte>, now: seq<byte>, start: nat, g: Piece)
    requires HeaderKept(was, now, start, if g.cap then 5 else 3)
    requires was[start] == (if g.cap then OP_CBRA else OP_BRA)
    requires g.cap ==> Get(was, start + 3) == g.num
    requires AltsAt(now, start, if g.cap then 5 else 3, g.body)
    requires KetAt(now, start, (if g.cap then 5 else 3) + AltsSize(g.body), Ket)
    ensures ItemAt(now, start, PlainGroup(g, NoZero))
  {
    hide AltsAt, KetAt, ItemAt;
    assert now[start] == was[start];
    assert g.cap ==> now[start + 3] == was[start + 3] && now[start + 4] == was[start + 4];
    GroupIntro(now, start, PlainGroup(g, NoZero));
  }

  /** The compiler's working data: the buffer for the code, the number of capturing
      groups opened so far, and whether anything so far varies in length. */
  class CompileData {
    const code: array<byte>
    var bracount: nat
    var varies: bool

    constructor (buffer: array<byte>)
      ensures code == buffer && bracount == 0 && !varies
    {
      code := buffer;
      bracount := 0;
      varies := false;
    }

    /** A group with its quantifier. */
    method CompileGroup(cap: bool, alts: Pattern, q: Quantifier, start: nat) returns (end: nat, sub: Summary)
      requires start + AtomLength(Parens(cap, alts), q) <= code.Length <= 65536
      modifies this, code
      ensures At(code[..], start, AtomCode(Parens(cap, alts), q, old(bracount)))
      ensures end == start + Size(AtomCode(Parens(cap, alts), q, old(bracount)))
      ensures Kept(old(code[..]), code[..], start)
      ensures bracount == old(bracount) + AtomCaptures(Parens(cap, alts))
      ensures sub == PatternSummary(alts, old(varies)) && varies == sub.varies
      decreases alts, 1
    {
      ghost var g := PieceOf(cap, alts, bracount);
      GroupRoom(cap, alts, q, bracount);
      end, sub := CompileParens(cap, alts, start);
      end := RepeatGroup(code, start, end, q, g);
    }

    /** The brackets and what is between them. */
    method CompileParens(cap: bool, alts: Pattern, start: nat) returns (end: nat, sub: Summary)
      requires start + (if cap then 8 else 6) + PatternLength(alts) <= code.Length <= 65536
      modifies this, code
      ensures ItemAt(code[..], start, PlainGroup(PieceOf(cap, alts, old(bracount)), NoZero))
      ensures end == start + PieceSize(PieceOf(cap, alts, old(bracount)))
      ensures Kept(old(code[..]), code[..], start)
      ensures bracount == old(bracount) + AtomCaptures(Parens(cap, alts))
      ensures sub == PatternSummary(alts, old(varies)) && varies == sub.varies
      decreases alts, 0, 1
    {
      hide ItemAt, At, AltsAt, GroupAt, PatternCode;
      ghost var g := PieceOf(cap, alts, bracount);
      var skip := OpenParens(cap, start);
      ghost var mid := code[..];
      var first, req;
      end, first, req := CompileRegex(alts, start, skip);
      sub := Summary(first, req, varies);
      ParensAt(mid, code[..], start, g);
    }

    /** The opcode of the bracket and, for a capturing group, its number. */
    method OpenParens(cap: bool, start: nat) returns (skip: nat)
      requires start + (if cap then 8 else 6) <= code.Length
      modifies this`bracount, code
      ensures skip == if cap then 2 else 0
      ensures bracount == old(bracount) + if cap then 1 else 0
      ensures code[start] == (if cap then OP_CBRA else OP_BRA)
      ensures cap ==> Get(code[..], start + 3) == bracount % 65536
      ensures Kept(old(code[..]), code[..], start)
    {
      skip := 0;
      code[start] := OP_BRA;
      if cap {
        bracount := bracount + 1;
        code[start] := OP_CBRA;
        Put(code, start + 3, bracount);
        skip := 2;
      }
    }

    /** A sequence of alternatives. The opcode of the bracket at start is already there;
        what follows it is written here, up to the closing bracket. */
    method CompileRegex(p: Pattern, start: nat, skip: nat) returns (end: nat, first: Known, req: Known)
      requires skip == 0 || skip == 2
      requires start + 6 + skip + PatternLength(p) <= code.Length <= 65536
      requires code[start] != OP_ALT
      modifies this, code
      ensures AltsAt(code[..], start, 3 + skip, PatternCode(p, old(bracount)))
      ensures end == start + 3 + skip + AltsSize(PatternCode(p, old(bracount))) + 3
      ensures KetAt(code[..], start, end - start - 3, Ket)
      ensures HeaderKept(old(code[..]), code[..], start, 3 + skip)
      ensures bracount == old(bracount) + Captures(p)
      ensures Summary(first, req, varies) == PatternSummary(p, old(varies))
      decreases p, 0, 0
    {
      hide AltsAt, OpenAt, HeaderKept;
      ghost var h, bc, was := 3 + skip, bracount, code[..];
      OpenBracket(start, h);
      var rest := p;
      var last: nat, pos: nat := start, start + 3 + skip;
      ghost var d := Start;
      first, req := Unset, Unset;
      while true
        invariant Open(code[..], start, h, d, last, pos)
        invariant pos + PatternLength(rest) + 3 <= code.Length
        invariant Combine(d, PatternCode(rest, bracount)) == PatternCode(p, bc)
        invariant bracount + Captures(rest) == bc + Captures(p)
        invariant HeaderKept(was, code[..], start, h)
        invariant RestSummary(d == Start, rest, Summary(first, req, varies)) == PatternSummary(p, old(varies))
        invariant rest == p || rest < p
        decreases rest
      {
        ghost var tree := BranchCode(rest.b, bracount);
        end, first, req := CompileAlternative(rest, last, pos, first, req, start, h, d, was);
        if rest.LastBranch? {
          end := CloseRegex(start, last, end, h, d, tree, was);
          return;
        }
        NextBranch(start, last, end, h, d, tree, was);
        d, last, pos, rest := Then(d, tree), end, end + 3, rest.others;
      }
    }

    /** The first alternative of rest, behind the header at last. */
    method CompileAlternative(rest: Pattern, last: nat, pos: nat, first: Known, req: Known,
                              ghost start: nat, ghost h: nat, ghost d: Done, ghost was: seq<byte>) returns (end: nat, first': Known, req': Known)
      requires Open(code[..], start, h, d, last, pos) && HeaderKept(was, code[..], start, h)
      requires pos + PatternLength(rest) <= code.Length <= 65536
      modifies this, code
      ensures BranchDone(code[..], start, h, d, last, end, BranchCode(rest.b, old(bracount)))
      ensures HeaderKept(was, code[..], start, h)
      ensures end + (if rest.LastBranch? then 0 else 3 + PatternLength(rest.others)) <= pos + PatternLength(rest)
      ensures bracount + (if rest.LastBranch? then 0 else Captures(rest.others)) == old(bracount) + Captures(rest)
      ensures Combine(d, PatternCode(rest, old(bracount))) ==
              if rest.LastBranch? then Combine(d, Last(BranchCode(rest.b, old(bracount))))
              else Combine(Then(d, BranchCode(rest.b, old(bracount))), PatternCode(rest.others, bracount))
      ensures RestSummary(d == Start, rest, Summary(first, req, old(varies))) ==
              if rest.LastBranch? then Summary(first', req', varies)
              else RestSummary(false, rest.others, Summary(first', req', varies))
      decreases rest, 0, -1
    {
      CombineStep(d, rest, bracount);
      RestStep(d == Start, rest, Summary(first, req, varies));
      ghost var mid, tree := code[..], BranchCode(rest.b, bracount);
      BranchFits(rest.b, bracount);
      OpenStart(mid, start, h, d, last);
      end, first', req' := CompileBranch(rest.b, pos);
      OpenExtend(mid, code[..], start, h, d, last, pos, tree);
      HeaderTrans(was, mid, code[..], start, h);
      first', req' := MergeBranch(last, first, req, first', req');
    }

    /** The characters of the first branch are taken as they are; those of the others
        are merged with what came before. */
    method MergeBranch(last: nat, first: Known, req: Known, branchFirst: Known, branchReq: Known) returns (first': Known, req': Known)
      requires last < code.Length
      ensures Summary(first', req', varies) ==
              var m := Summary(branchFirst, branchReq, varies);
              if code[last] != OP_ALT then m else Merge(first, req, m)
    {
      first', req' := branchFirst, branchReq;
      if code[last] == OP_ALT {
        var m := Merge(first, req, Summary(first', req', varies));
        first', req' := m.first, m.req;
      }
    }

    method CompileBranch(b: Branch, start: nat) returns (end: nat, first: Known, req: Known)
      requires start + BranchLength(b) <= code.Length <= 65536
      modifies this, code
      ensures At(code[..], start, BranchCode(b, old(bracount)))
      ensures end == start + Size(BranchCode(b, old(bracount)))
      ensures Kept(old(code[..]), code[..], start)
      ensures bracount == old(bracount) + BranchCaptures(b)
      ensures Summary(first, req, varies) == BranchSummary(b, old(varies), START)
      decreases b, 0
    {
      ghost var bc, was := bracount, code[..];
      var rest, track := b, START;
      end := start;
      ghost var done := Nil;
      while rest != Empty
        invariant start <= end && end + BranchLength(rest) <= code.Length
        invariant At(code[..], start, done) && end == start + Size(done)
        invariant Cat(done, BranchCode(rest, bracount)) == BranchCode(b, bc)
        invariant bracount + BranchCaptures(rest) == bc + BranchCaptures(b)
        invariant Kept(was, code[..], start)
        invariant BranchSummary(rest, varies, track) == BranchSummary(b, old(varies), START)
        invariant rest == b || rest < b
        decreases rest
      {
        ghost var c := ItemCode(rest, bracount);
        end, track := AppendItem(rest, end, track, start, done, was);
        done, rest := Cat(done, c), rest.rest;
      }
      CatNil(done);
      first, req := track.first, track.req;
    }

    /** The next item, behind the code done so far. */
    method AppendItem(b: Branch, pos: nat, track: Track, ghost start: nat, ghost done: Code, ghost was: seq<byte>) returns (end: nat, track': Track)
      requires b != Empty
      requires pos + BranchLength(b) <= code.Length <= 65536
      requires At(code[..], start, done) && pos == start + Size(done) && Kept(was, code[..], start)
      modifies this, code
      ensures At(code[..], start, Cat(done, ItemCode(b, old(bracount))))
      ensures end == start + Size(Cat(done, ItemCode(b, old(bracount)))) && end + BranchLength(b.rest) <= code.Length
      ensures Kept(was, code[..], start)
      ensures Cat(Cat(done, ItemCode(b, old(bracount))), BranchCode(b.rest, bracount)) == Cat(done, BranchCode(b, old(bracount)))
      ensures bracount + BranchCaptures(b.rest) == old(bracount) + BranchCaptures(b)
      ensures BranchSummary(b.rest, varies, track') == BranchSummary(b, old(varies), track)
      decreases b, 0, 1
    {
      ghost var mid, c, bc := code[..], ItemCode(b, bracount), bracount;
      end, track' := CompileItem(b, pos, track);
      AppendAt(mid, code[..], start, done, c);
      CatSize(done, c);
      ItemCodeSplits(b, bc);
      CatAssoc(done, c, BranchCode(b.rest, bracount));
    }

    /** One item of a branch. */
    method CompileItem(b: Branch, start: nat, track: Track) returns (end: nat, track': Track)
      requires b != Empty
      requires start + BranchLength(b) <= code.Length <= 65536
      modifies this, code
      ensures At(code[..], start, ItemCode(b, old(bracount)))
      ensures end == start + Size(ItemCode(b, old(bracount))) && end + BranchLength(b.rest) <= code.Length
      ensures Kept(old(code[..]), code[..], start)
      ensures bracount + BranchCaptures(b.rest) == old(bracount) + BranchCaptures(b)
      ensures BranchSummary(b.rest, varies, track') == BranchSummary(b, old(varies), track)
      decreases b, 0, 0
    {
      track' := track;
      if b.AnchorItem? {
        code[start] := AnchorOp(b.anchor);
        end := start + 1;
        SingleAt(code[..], start, Assert(b.anchor));
        SingleSize(Assert(b.anchor));
      } else {
        AtomFits(b.atom, b.q, bracount);
        if b.atom.Chars? {
          end := CompileChars(code, start, b.atom.sel, b.q, AtomCode(b.atom, b.q, bracount));
          track' := AfterChars(b.atom.sel, varies, track');
        } else {
          var before := varies;
          var sub;
          end, sub := CompileGroup(b.atom.cap, b.atom.alts, b.q, start);
          track' := AfterGroup(sub, before, track');
        }
        track' := AfterQuant(b.atom, b.q, varies, track');
        varies := VariesAfter(b.q, varies);
      }
    }

    /** Marks the bracket as open: its link is zero. */
    method OpenBracket(start: nat, ghost h: nat)
      requires 3 <= h && start + h <= code.Length && code[start] != OP_ALT
      modifies code
      ensures Open(code[..], start, h, Start, start, start + h)
      ensures HeaderKept(old(code[..]), code[..], start, h)
    {
      Put(code, start + 1, 0);
    }

    /** Another branch follows: an ALT that links back to the header before it. */
    method NextBranch(start: nat, last: nat, end: nat, ghost h: nat, ghost d: Done, ghost tree: Code, ghost was: seq<byte>)
      requires BranchDone(code[..], start, h, d, last, end, tree) && HeaderKept(was, code[..], start, h)
      requires end + 3 <= code.Length <= 65536
      modifies code
      ensures Open(code[..], start, h, Then(d, tree), end, end + 3) && HeaderKept(was, code[..], start, h)
    {
      ghost var mid := code[..];
      OpenStart(mid, start, h, d, last);
      OpenSize(mid, start, h, d, last, Last(tree));
      EmitAlt(last, end);
      NextOpen(mid, code[..], start, h, d, last, end, tree);
      HeaderTrans(was, mid, code[..], start, h);
    }

    method EmitAlt(last: nat, end: nat)
      requires last <= end && end + 3 <= code.Length <= 65536
      modifies code
      ensures code[end] == OP_ALT && Get(code[..], end + 1) == end - last
      ensures Kept(old(code[..]), code[..], end)
    {
      code[end] := OP_ALT;
      Put(code, end + 1, end - last);
    }

    /** The group ends: the chain of links is reversed and the closing bracket written. */
    method CloseRegex(start: nat, last: nat, code0: nat, ghost h: nat, ghost d: Done, ghost tree: Code, ghost was: seq<byte>) returns (end: nat)
      requires BranchDone(code[..], start, h, d, last, code0, tree) && HeaderKept(was, code[..], start, h)
      requires code0 + 3 <= code.Length <= 65536
      modifies code
      ensures end == code0 + 3 && code0 == start + h + AltsSize(Combine(d, Last(tree)))
      ensures AltsAt(code[..], start, h, Combine(d, Last(tree)))
      ensures KetAt(code[..], start, code0 - start, Ket)
      ensures HeaderKept(was, code[..], start, h)
    {
      OpenStart(code[..], start, h, d, last);
      OpenSize(code[..], start, h, d, last, Last(tree));
      ghost var mid := code[..];
      ReverseChain(code, last, code0, start, h, d, tree);
      HeaderTrans(was, mid, code[..], start, h);
      mid := code[..];
      EmitKet(start, code0);
      end := code0 + 3;
      AltsShift(mid, 0, code0, code[..], 0, start, start, h, Combine(d, Last(tree)));
      HeaderTrans(was, mid, code[..], start, h);
    }

    method EmitKet(start: nat, at: nat)
      requires start <= at && at + 3 <= code.Length && at - start < 65536
      modifies code
      ensures KetAt(code[..], start, at - start, Ket)
      ensures Kept(old(code[..]), code[..], at)
    {
      code[at] := OP_KET;
      Put(code, at + 1, at - start);
    }
  }
}
