/** Which patterns the scan for a fixed length accepts, and that their matches have it. */
module FixedPattern {
  import opened Opcodes
  import opened Bytecode
  import opened Matching
  import opened FixedLength
  import opened Pattern
  import opened Translation

  /** The length of all matches as far as it can be read off the quantifiers: each says one
      number, and alternatives are equally long. -1 stands for none. */
  function FixedOf(p: Pattern): (n: int)
    ensures n >= -1
    decreases p, 0
  {
    var n := FixedBranch(p.b);
    if p.LastBranch? || n == FixedOf(p.others) then n else -1
  }

  function FixedBranch(b: Branch): (n: int)
    ensures n >= -1
    decreases b, 0
  {
    match b
    case Empty => 0
    case AnchorItem(_, rest) => FixedBranch(rest)
    case Item(atom, q, rest) => Sum(FixedItem(atom, q), FixedBranch(rest))
  }

  /** A group must be there; a character may also occur no times. */
  function FixedItem(atom: Atom, q: Quantifier): (n: int)
    ensures n >= -1
    decreases atom, 1
  {
    var d := if atom.Chars? then 1 else FixedOf(atom.alts);
    if q == NoQuant then d
    else if q.lo != q.hi || (atom.Parens? && q.lo == 0) then -1
    else Product(q.lo, d)
  }

  function Sum(d: int, e: int): int { if d < 0 || e < 0 then -1 else d + e }

  function Product(n: nat, d: int): (r: int)
    ensures r >= -1
  {
    if d < 0 then -1 else Multiple(n, d)
  }

  function Multiple(n: nat, d: nat): nat { if n == 0 then 0 else Multiple(n - 1, d) + d }

  lemma {:induction false} MultipleIs(n: nat, d: nat)
    ensures Multiple(n, d) == n * d
    decreases n
  {
    if n > 0 {
      MultipleIs(n - 1, d);
      assert n * d == (n - 1) * d + d;
    }
  }

  // ----- the scan's answer on the code of a pattern -----

  /** The answer for a group that occurs once. */
  function OnceLength(alts: Alts): int { BranchesLength(CodeLength(alts.code), alts, -1, true) }

  lemma {:induction false} CatLength(a: Code, b: Code)
    ensures CodeLength(Cat(a, b)) == Sum(CodeLength(a), CodeLength(b))
    decreases a
  {
    if a.Cons? {
      CatLength(a.next, b);
    }
  }

  lemma PlainLength(g: Piece, tail: Code)
    ensures CodeLength(Cons(PlainGroup(g, NoZero), tail)) == Sum(OnceLength(g.body), CodeLength(tail))
  {
  }

  lemma {:induction false} CopiesLength(g: Piece, n: nat)
    requires n > 0
    ensures CodeLength(Copies(g, n, Nil)) == Product(n, OnceLength(g.body))
    decreases n
  {
    PlainLength(g, Copies(g, n - 1, Nil));
    if n > 1 {
      CopiesLength(g, n - 1);
    } else {
      assert Copies(g, 0, Nil) == Nil && CodeLength(Nil) == 0;
      var d := OnceLength(g.body);
      MultipleIs(1, if d < 0 then 0 else d);
    }
  }

  lemma {:induction false} BranchesBound(d: int, alts: Alts, so: int, once: bool)
    ensures BranchesLength(d, alts, so, once) >= -1
    decreases alts
  {
    if alts.More? {
      BranchesBound(CodeLength(alts.rest.code), alts.rest, d, once);
    }
  }

  lemma ConsLength(it: Bytecode.Item, next: Code)
    ensures CodeLength(Cons(it, next)) == Sum(ItemLength(it), CodeLength(next)) && CodeLength(Nil) == 0
  {
  }

  lemma AtomicLength(c: Code)
    ensures CodeLength(Atomic(c)) == Sum(CodeLength(c), 0)
  {
    ConsLength(Atomic(c).item, Nil);
    assert OnceLength(Last(c)) == if CodeLength(c) < 0 then -1 else CodeLength(c);
  }

  lemma ClassFixed(sel: Sel, q: Quantifier)
    requires sel.Set?
    ensures CodeLength(ClassCode(sel, q)) == FixedItem(Chars(sel), q)
  {
    var c := ClassCode(sel, q);
    MultipleIs(if q.Quant? then q.lo else 1, 1);
    hide CodeLength, BranchesLength;
    ConsLength(One(sel), Nil);
    if c.Cons? {
      ConsLength(c.item, Nil);
    }
  }

  lemma CharFixed(sel: Sel, q: Quantifier)
    requires !sel.Set?
    ensures CodeLength(CharCode(sel, q)) == FixedItem(Chars(sel), q)
  {
    var c := CharCode(sel, q);
    MultipleIs(if q.Quant? then q.lo else 1, 1);
    hide CodeLength, BranchesLength;
    ConsLength(One(sel), Nil);
    if c.Cons? {
      ConsLength(c.item, c.next);
      if c.item.Group? {
        var inner := c.item.body.code;
        AtomicLength(inner);
        ConsLength(inner.item, inner.next);
        ConsLength(inner.next.item, Nil);
      } else if c.next.Cons? {
        ConsLength(c.next.item, Nil);
      }
    }
  }

  lemma GroupFixed(g: Piece, q: Quantifier)
    ensures CodeLength(GroupCode(g, q)) ==
            if q == NoQuant then OnceLength(g.body)
            else if q.lo != q.hi || q.lo == 0 then -1
            else Product(q.lo, OnceLength(g.body))
  {
    ConsLength(PlainGroup(g, NoZero), Nil);
    PlainLength(g, Nil);
    BranchesBound(CodeLength(g.body.code), g.body, -1, true);
    if q.Quant? {
      RepeatedFixed(g, q.lo, q.hi, q.mode);
      AtomicLength(RepeatedGroup(g, q.lo, q.hi, q.mode));
    }
  }

  lemma {:induction false} CopiesUnfixed(g: Piece, n: nat, tail: Code)
    requires CodeLength(tail) == -1
    ensures CodeLength(Copies(g, n, tail)) == -1
    decreases n
  {
    if n > 0 {
      CopiesUnfixed(g, n - 1, tail);
    }
  }

  lemma {:induction false} LoopUnfixed(d: int, alts: Alts, so: int)
    ensures BranchesLength(d, alts, so, false) == -1
    decreases alts
  {
    if alts.More? {
      LoopUnfixed(CodeLength(alts.rest.code), alts.rest, d);
    }
  }

  lemma RepeatedFixed(g: Piece, lo: u16, hi: int, mode: Mode)
    requires hi == -1 || lo <= hi
    ensures CodeLength(RepeatedGroup(g, lo, hi, mode)) == if lo != hi || lo == 0 then -1 else Product(lo, OnceLength(g.body))
  {
    assert CodeLength(Nil) == 0;
    if hi == -1 {
      var loop := LoopGroup(g, NoZero, mode);
      LoopUnfixed(CodeLength(g.body.code), g.body, -1);
      assert ItemLength(loop) == -1 && CodeLength(Single(loop)) == -1;
      if lo > 0 {
        CopiesUnfixed(g, lo - 1, Single(loop));
      }
    } else if lo == hi {
      if lo > 0 {
        CopiesLength(g, lo);
      }
    } else {
      var rest := Optional(g, ZeroFor(mode), hi - lo);
      assert ItemLength(rest.item) == -1 && CodeLength(rest) == -1;
      CopiesUnfixed(g, lo, rest);
    }
  }

  lemma {:induction false} ItemFixed(atom: Atom, q: Quantifier, bc: nat)
    ensures CodeLength(AtomCode(atom, q, bc)) == FixedItem(atom, q)
    decreases atom, 1
  {
    hide CodeLength, BranchesLength, CharCode, ClassCode, GroupCode, OnceLength;
    match atom
    case Chars(sel) =>
      if sel.Set? {
        ClassFixed(sel, q);
      } else {
        CharFixed(sel, q);
      }
    case Parens(cap, alts) =>
      PatternFixed(alts, if cap then bc + 1 else bc);
      GroupFixed(PieceOf(cap, alts, bc), q);
  }

  lemma {:induction false} BranchFixed(b: Branch, bc: nat)
    ensures CodeLength(BranchCode(b, bc)) == FixedBranch(b)
    decreases b, 0
  {
    hide ItemLength, BranchesLength, FixedItem, AtomCode, Cat;
    match b
    case Empty =>
    case AnchorItem(a, rest) =>
      BranchFixed(rest, bc);
      AnchorLength(a, BranchCode(rest, bc));
    case Item(atom, q, rest) =>
      ItemFixed(atom, q, bc);
      BranchFixed(rest, bc + AtomCaptures(atom));
      CatLength(AtomCode(atom, q, bc), BranchCode(rest, bc + AtomCaptures(atom)));
  }

  lemma AnchorLength(a: Anchor, next: Code)
    ensures CodeLength(Cons(Assert(a), next)) == Sum(0, CodeLength(next))
  {
  }

  lemma {:induction false} BranchesFixed(p: Pattern, bc: nat, so: int)
    ensures var alts := PatternCode(p, bc);
            BranchesLength(CodeLength(alts.code), alts, so, true) ==
            if so >= 0 && so != FixedOf(p) then -1 else FixedOf(p)
    decreases p, 0
  {
    BranchFixed(p.b, bc);
    if p.OrElse? {
      BranchesFixed(p.others, bc + BranchCaptures(p.b), FixedBranch(p.b));
    }
  }

  /** The scan of the code of a pattern finds the length that its quantifiers fix, and none
      exactly when they fix none. */
  lemma {:induction false} PatternFixed(p: Pattern, bc: nat)
    ensures OnceLength(PatternCode(p, bc)) == FixedOf(p)
    decreases p, 1
  {
    BranchesFixed(p, bc, -1);
  }

  // ----- and that is the length of every match -----

  lemma {:induction false} TimesFixed(a: Atom, n: nat, s: Subject, i: nat, j: nat)
    requires Times(a, n, s, i, j) && (a.Parens? ==> FixedOf(a.alts) >= 0)
    ensures j - i == Multiple(n, if a.Chars? then 1 else FixedOf(a.alts))
    decreases a, 1, n
  {
    if n > 0 {
      var m := TimesSplit(a, n, s, i, j);
      if a.Parens? {
        SpanFixed(a.alts, s, i, m);
      }
      TimesFixed(a, n - 1, s, m, j);
    }
  }

  lemma {:induction false} ItemSpanFixed(atom: Atom, q: Quantifier, s: Subject, i: nat, j: nat)
    requires QuantSpan(atom, q, s, i, j) && FixedItem(atom, q) >= 0
    ensures j - i == FixedItem(atom, q)
    decreases atom, 2
  {
    var n: nat :| Allows(q, n) && Times(atom, n, s, i, j);
    if atom.Chars? || FixedOf(atom.alts) >= 0 {
      TimesFixed(atom, n, s, i, j);
    }
  }

  lemma {:induction false} BranchSpanFixed(b: Branch, s: Subject, i: nat, j: nat)
    requires BranchSpan(b, s, i, j) && FixedBranch(b) >= 0
    ensures j - i == FixedBranch(b)
    decreases b, 2
  {
    hide FixedItem, QuantSpan;
    match b
    case Empty =>
    case AnchorItem(_, rest) => BranchSpanFixed(rest, s, i, j);
    case Item(atom, q, rest) =>
      var m := BranchSplit(b, s, i, j);
      ItemSpanFixed(atom, q, s, i, m);
      BranchSpanFixed(rest, s, m, j);
  }

  /** Possessive quantifiers included. */
  lemma {:induction false} SpanFixed(p: Pattern, s: Subject, i: nat, j: nat)
    requires PatternSpan(p, s, i, j) && FixedOf(p) >= 0
    ensures j - i == FixedOf(p)
    decreases p, 0
  {
    if BranchSpan(p.b, s, i, j) {
      BranchSpanFixed(p.b, s, i, j);
    } else {
      SpanFixed(p.others, s, i, j);
    }
  }
}
