/** The first compiling pass, which only measures, and its agreement with the second:
    the code that is emitted never needs more room than was measured. */
module TwoPass {
  import opened Opcodes
  import opened Bytecode
  import opened Pattern
  import opened Translation

  // ----- arithmetic -----

  lemma {:induction false} MulStep(k: nat, x: nat)
    requires k >= 1
    ensures k * x == (k - 1) * x + x
  {
  }

  lemma {:induction false} MulMono(k: nat, x: nat, y: nat)
    requires x <= y
    ensures k * x <= k * y
    ensures k >= 1 && x < y ==> k * x < k * y
  {
    assert k * y == k * x + k * (y - x);
  }

  // ----- what the first pass accumulates -----

  /** An item that a quantifier shrinks still counts at its full size. */
  function CharsLength(sel: Sel, q: Quantifier): nat
  {
    var n := Size(if sel.Set? then ClassCode(sel, q) else CharCode(sel, q));
    if n < OneSize(sel) then OneSize(sel) else n
  }

  /** What the first pass adds for k nested optional copies of a group that measures
      lp bytes: each needs a BRAZERO, and all but the last a nesting bracket. */
  function NestedLength(k: nat, lp: nat): (r: nat)
  {
    if k == 0 then 0 else
    MulMono(k, 1, lp + 7);
    k * (lp + 7) - 6
  }

  /** A quantified group whose single copy measures lp bytes. */
  function GroupLength(lp: nat, q: Quantifier): nat
  {
    match q
    case NoQuant => lp
    case Quant(lo, hi, mode) =>
      (if NeedsAtomic(q) then 6 else 0) +
      if lo == 0 then
        if hi <= 1 then lp + 1
        else lp + 4 + NestedLength(hi - 1, lp) + 3
      else
        lp + (lo - 1) * lp + NestedLength(if hi > lo then hi - lo else 0, lp)
  }

  function AtomLength(atom: Atom, q: Quantifier): nat
    decreases atom, 1
  {
    match atom
    case Chars(sel) => CharsLength(sel, q)
    case Parens(cap, alts) => GroupLength((if cap then 8 else 6) + PatternLength(alts), q)
  }

  function BranchLength(b: Branch): nat
    decreases b, 0
  {
    match b
    case Empty => 0
    case Item(atom, q, rest) => AtomLength(atom, q) + BranchLength(rest)
    case AnchorItem(_, rest) => 1 + BranchLength(rest)
  }

  /** Everything between the opening and the closing bracket. */
  function PatternLength(p: Pattern): nat
    decreases p, 0
  {
    BranchLength(p.b) + (if p.OrElse? then 3 + PatternLength(p.others) else 0)
  }

  /** The whole program with its outer bracket and OP_END. */
  function ProgramLength(p: Pattern): nat
  {
    1 + 6 + PatternLength(p)
  }

  // ----- what the second pass emits -----

  function PieceSize(g: Piece): nat
  {
    (if g.cap then 8 else 6) + AltsSize(g.body)
  }

  lemma SingleSize(it: Item)
    ensures Size(Single(it)) == ItemSize(it)
  {
    assert Size(Nil) == 0;
  }

  lemma {:induction false} CopiesSize(g: Piece, n: nat, tail: Code)
    ensures Size(Copies(g, n, tail)) == n * PieceSize(g) + Size(tail)
    decreases n
  {
    if n > 0 {
      CopiesSize(g, n - 1, tail);
      MulStep(n, PieceSize(g));
    }
  }

  lemma {:induction false} OptionalSize(g: Piece, zero: Zero, n: nat)
    requires zero != NoZero
    ensures Size(Optional(g, zero, n)) == NestedLength(n, PieceSize(g))
    decreases n
  {
    if n > 1 {
      OptionalSize(g, zero, n - 1);
      MulStep(n, PieceSize(g) + 7);
      var inner := Cons(PlainGroup(g, NoZero), Optional(g, zero, n - 1));
      assert Size(inner) == PieceSize(g) + Size(Optional(g, zero, n - 1));
      assert AltsSize(Last(inner)) == Size(inner);
      SingleSize(Optional(g, zero, n).item);
    } else if n == 1 {
      SingleSize(PlainGroup(g, zero));
    }
  }

  lemma AtomicSize(c: Code)
    ensures Size(Atomic(c)) == Size(c) + 6
  {
    assert AltsSize(Last(c)) == Size(c);
  }

  lemma CharCodeSize(sel: Sel, q: Quantifier)
    requires !sel.Set? && q.Quant?
    ensures Size(CharCode(sel, q)) ==
            if q.hi == 0 then 0
            else if q.lo == 0 then (if q.hi == -1 || q.hi == 1 then 2 else 4)
            else if q.lo == 1 then
              if q.hi == -1 then 2
              else if q.hi == 1 then OneSize(sel)
              else OneSize(sel) + 4 + (if q.mode == Possessive && sel.Type? then 6 else 0)
            else if q.hi == q.lo then 4
            else if q.hi == -1 || q.hi - q.lo == 1 then 6
            else 8
  {
    var c := CharCode(sel, q);
    if c.Cons? && c.next == Nil {
      SingleSize(c.item);
      if c.item.Group? {
        var inner := c.item.body.code;
        AtomicSize(inner);
        PairSize(inner.item, inner.next.item);
      }
    } else if c.Cons? {
      PairSize(c.item, c.next.item);
    }
  }

  lemma PairSize(a: Bytecode.Item, b: Bytecode.Item)
    ensures Size(Cons(a, Single(b))) == ItemSize(a) + ItemSize(b)
  {
    SingleSize(b);
  }

  lemma RepeatedSize(g: Piece, lo: u16, hi: int, mode: Mode)
    requires hi == -1 || lo <= hi < 65536
    ensures Size(RepeatedGroup(g, lo, hi, mode)) ==
            GroupLength(PieceSize(g), Quant(lo, hi, mode)) - (if NeedsAtomic(Quant(lo, hi, mode)) then 6 else 0)
  {
    var n := PieceSize(g);
    if lo == 0 {
      if hi > 1 {
        OptionalSize(g, ZeroFor(mode), hi);
        MulStep(hi, n + 7);
      } else {
        SingleSize(RepeatedGroup(g, lo, hi, mode).item);
      }
    } else if hi == -1 {
      SingleSize(LoopGroup(g, NoZero, mode));
      CopiesSize(g, lo - 1, Single(LoopGroup(g, NoZero, mode)));
    } else {
      CopiesSize(g, lo, Optional(g, ZeroFor(mode), hi - lo));
      OptionalSize(g, ZeroFor(mode), hi - lo);
      MulStep(lo, n);
    }
  }

  /** For groups the two passes agree exactly. */
  lemma GroupSize(g: Piece, q: Quantifier)
    ensures Size(GroupCode(g, q)) == GroupLength(PieceSize(g), q)
  {
    if q.Quant? {
      RepeatedSize(g, q.lo, q.hi, q.mode);
      AtomicSize(RepeatedGroup(g, q.lo, q.hi, q.mode));
    } else {
      SingleSize(PlainGroup(g, NoZero));
    }
  }

  lemma GroupLengthMono(x: nat, y: nat, q: Quantifier)
    requires x <= y
    ensures GroupLength(x, q) <= GroupLength(y, q)
    ensures x < y ==> GroupLength(x, q) < GroupLength(y, q)
  {
    if q.Quant? {
      if q.lo == 0 {
        if q.hi > 1 {
          MulMono(q.hi - 1, x + 7, y + 7);
        }
      } else {
        MulMono(q.lo - 1, x, y);
        if q.hi > q.lo {
          MulMono(q.hi - q.lo, x + 7, y + 7);
        }
      }
    }
  }

  /** Some single-character item has the quantifier {0}, which drops it after it was
      measured. */
  predicate Drops(p: Pattern)
    decreases p, 0
  {
    BranchDrops(p.b) || (p.OrElse? && Drops(p.others))
  }

  predicate BranchDrops(b: Branch)
    decreases b, 0
  {
    match b
    case Empty => false
    case Item(atom, q, rest) =>
      || (atom.Chars? && q.Quant? && q.hi == 0)
      || (atom.Parens? && Drops(atom.alts))
      || BranchDrops(rest)
    case AnchorItem(_, rest) => BranchDrops(rest)
  }

  /** The second pass emits at most what the first measured, and exactly that unless
      an item was dropped. */
  lemma {:induction false} PatternFits(p: Pattern, bc: nat)
    ensures AltsSize(PatternCode(p, bc)) <= PatternLength(p)
    ensures AltsSize(PatternCode(p, bc)) == PatternLength(p) <==> !Drops(p)
    decreases p, 0
  {
    BranchFits(p.b, bc);
    if p.OrElse? {
      PatternFits(p.others, bc + BranchCaptures(p.b));
    }
  }

  lemma {:induction false} BranchFits(b: Branch, bc: nat)
    ensures Size(BranchCode(b, bc)) <= BranchLength(b)
    ensures Size(BranchCode(b, bc)) == BranchLength(b) <==> !BranchDrops(b)
    decreases b, 0
  {
    hide AtomCode, AtomLength;
    match b
    case Empty =>
    case Item(atom, q, rest) =>
      AtomFits(atom, q, bc);
      BranchFits(rest, bc + AtomCaptures(atom));
      CatSize(AtomCode(atom, q, bc), BranchCode(rest, bc + AtomCaptures(atom)));
    case AnchorItem(a, rest) =>
      BranchFits(rest, bc);
  }

  lemma {:induction false} AtomFits(atom: Atom, q: Quantifier, bc: nat)
    ensures Size(AtomCode(atom, q, bc)) <= AtomLength(atom, q)
    ensures Size(AtomCode(atom, q, bc)) == AtomLength(atom, q) <==>
            !(if atom.Chars? then q.Quant? && q.hi == 0 else Drops(atom.alts))
    decreases atom, 1
  {
    match atom
    case Chars(sel) =>
      CharsFit(sel, q);
    case Parens(cap, alts) =>
      var g := PieceOf(cap, alts, bc);
      PatternFits(alts, if cap then bc + 1 else bc);
      GroupSize(g, q);
      GroupLengthMono(PieceSize(g), (if cap then 8 else 6) + PatternLength(alts), q);
  }

  lemma CharsFit(sel: Sel, q: Quantifier)
    ensures q.Quant? && q.hi == 0 ==> (if sel.Set? then ClassCode(sel, q) else CharCode(sel, q)) == Nil
    ensures !(q.Quant? && q.hi == 0) ==> Size(if sel.Set? then ClassCode(sel, q) else CharCode(sel, q)) >= OneSize(sel)
  {
  }

  /** The emitted program, OP_END included, fits the measured length, so the overrun
      check after the second pass cannot fire. */
  lemma ProgramFits(p: Pattern)
    ensures ItemSize(Group(NoZero, Paren(false, false, false), 0, PatternCode(p, 0), Ket)) + 1 <= ProgramLength(p)
  {
    PatternFits(p, 0);
  }
}
