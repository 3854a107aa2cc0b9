/** Searching for a pattern that does not tell the cases of letters apart: what is found does
    not depend on the case of the letters in the subject. */
module Caseless {
  import opened Opcodes
  import opened Bytecode
  import opened Matching
  import opened Characters
  import opened Pattern
  import opened Reference
  import opened Exec

  /** A literal is caseless or has one case only, and a class holds both cases of a letter or
      neither. */
  predicate Folds(sel: Sel)
  {
    match sel
    case Lit(c, caseless, _) => caseless || (forall x: byte :: Lower(x) == Lower(c) ==> x == c)
    case Type(_) => true
    case Set(_, bits) => forall x: byte, y: byte :: Lower(x) == Lower(y) ==> InBitmap(bits, x) == InBitmap(bits, y)
  }

  predicate PatternFolds(p: Pattern)
    decreases p, 0
  {
    BranchFolds(p.b) && (p.OrElse? ==> PatternFolds(p.others))
  }

  predicate BranchFolds(b: Branch)
    decreases b, 0
  {
    match b
    case Empty => true
    case Item(atom, _, rest) => AtomFolds(atom) && BranchFolds(rest)
    case AnchorItem(_, rest) => BranchFolds(rest)
  }

  predicate AtomFolds(a: Atom)
    decreases a, 1
  {
    match a
    case Chars(sel) => Folds(sel)
    case Parens(_, alts) => PatternFolds(alts)
  }

  /** The same text up to the case of its letters. */
  predicate SameText(s: Subject, t: Subject)
  {
    |s| == |t| && forall i :: 0 <= i < |s| ==> Lower(s[i]) == Lower(t[i])
  }

  // ----- one character -----

  lemma TypeFolds(op: TypeOp, x: byte, y: byte)
    requires Lower(x) == Lower(y)
    ensures IsType(op, x) <==> IsType(op, y)
  {
  }

  lemma SameAccepts(sel: Sel, x: byte, y: byte)
    requires Folds(sel) && Lower(x) == Lower(y)
    ensures Accepts(sel, x) <==> Accepts(sel, y)
  {
    match sel
    case Lit(c, caseless, negated) =>
      LiteralAccepts(c, caseless, negated, x);
      LiteralAccepts(c, caseless, negated, y);
    case Type(op) => TypeFolds(op, x, y);
    case Set(_, _) =>
  }

  lemma SameHolds(a: Anchor, s: Subject, t: Subject, i: nat)
    requires SameText(s, t) && i <= |s|
    ensures Holds(a, s, i) <==> Holds(a, t, i)
  {
    if i < |s| {
      assert Lower(s[i]) == Lower(t[i]);
    }
  }

  // ----- the ways of a pattern -----

  lemma {:induction false} SameWays(p: Pattern, bc: nat, s: Subject, t: Subject, pos: nat, caps: Caps)
    requires PatternFolds(p) && SameText(s, t) && pos <= |s|
    ensures PatternWays(p, bc, s, pos, caps) == PatternWays(p, bc, t, pos, caps)
    decreases p, 0
  {
    SameBranch(p.b, bc, s, t, pos, caps);
    if p.OrElse? {
      SameWays(p.others, bc + BranchCaptures(p.b), s, t, pos, caps);
    }
  }

  lemma {:induction false} SameBranch(b: Branch, bc: nat, s: Subject, t: Subject, pos: nat, caps: Caps)
    requires BranchFolds(b) && SameText(s, t) && pos <= |s|
    ensures BranchWays(b, bc, s, pos, caps) == BranchWays(b, bc, t, pos, caps)
    decreases b, 0, 0
  {
    match b
    case Empty =>
    case Item(atom, q, rest) =>
      SameQuant(atom, q, bc, s, t, pos, caps);
      SameAll(QuantWays(atom, q, bc, s, pos, caps), rest, bc + AtomCaptures(atom), s, t, pos);
    case AnchorItem(a, rest) =>
      SameHolds(a, s, t, pos);
      SameBranch(rest, bc, s, t, pos, caps);
  }

  lemma {:induction false} SameAll(w: Ways, rest: Branch, bc: nat, s: Subject, t: Subject, lo: nat)
    requires BranchFolds(rest) && SameText(s, t) && Inside(w, s, lo) && Inside(w, t, lo)
    ensures BranchAll(w, rest, bc, s, lo) == BranchAll(w, rest, bc, t, lo)
    decreases rest, 1, w
  {
    if w.Way? {
      SameBranch(rest, bc, s, t, w.pos, w.caps);
      SameAll(w.more, rest, bc, s, t, lo);
    }
  }

  lemma {:induction false} SameAtom(a: Atom, bc: nat, s: Subject, t: Subject, pos: nat, caps: Caps)
    requires AtomFolds(a) && SameText(s, t) && pos <= |s|
    ensures AtomWays(a, bc, s, pos, caps) == AtomWays(a, bc, t, pos, caps)
    decreases a, 0
  {
    match a
    case Chars(sel) =>
      if pos < |s| {
        SameAccepts(sel, s[pos], t[pos]);
      }
    case Parens(cap, alts) => SameWays(alts, if cap then bc + 1 else bc, s, t, pos, caps);
  }

  lemma {:induction false} SameQuant(a: Atom, q: Quantifier, bc: nat, s: Subject, t: Subject, pos: nat, caps: Caps)
    requires AtomFolds(a) && SameText(s, t) && pos <= |s|
    ensures QuantWays(a, q, bc, s, pos, caps) == QuantWays(a, q, bc, t, pos, caps)
    decreases a, 4
  {
    if q == NoQuant {
      SameAtom(a, bc, s, t, pos, caps);
    } else {
      SameRepeat(a, bc, q.lo, q.hi, q.mode != Lazy, s, t, pos, caps);
    }
  }

  lemma {:induction false} SameRepeat(a: Atom, bc: nat, lo: nat, hi: int, greedy: bool, s: Subject, t: Subject, pos: nat, caps: Caps)
    requires AtomFolds(a) && SameText(s, t) && pos <= |s| && (hi < 0 || lo <= hi)
    ensures RepeatWays(a, bc, lo, hi, greedy, s, pos, caps) == RepeatWays(a, bc, lo, hi, greedy, t, pos, caps)
    decreases a, 1, lo + (if hi < 0 then 0 else hi), |s| - pos, 2
  {
    SameAtom(a, bc, s, t, pos, caps);
    var w := AtomWays(a, bc, s, pos, caps);
    if lo > 0 {
      SameRounds(w, a, bc, lo - 1, Least(hi), greedy, s, t, pos);
    } else if hi != 0 {
      SameRounds(w, a, bc, 0, Least(hi), greedy, s, t, pos);
    }
  }

  lemma {:induction false} SameRounds(w: Ways, a: Atom, bc: nat, lo: nat, hi: int, greedy: bool, s: Subject, t: Subject, start: nat)
    requires AtomFolds(a) && SameText(s, t) && Inside(w, s, start) && Inside(w, t, start) && start <= |s| && (hi < 0 || lo <= hi)
    ensures RepeatAll(w, a, bc, lo, hi, greedy, s, start) == RepeatAll(w, a, bc, lo, hi, greedy, t, start)
    decreases a, 1, lo + (if hi < 0 then 0 else hi), if lo == 0 && hi < 0 then |s| - start else |s| + 1, 1, w
  {
    if w.Way? {
      if !(lo == 0 && hi < 0 && w.pos <= start) {
        SameRepeat(a, bc, lo, hi, greedy, s, t, w.pos, w.caps);
      }
      SameRounds(w.more, a, bc, lo, hi, greedy, s, t, start);
    }
  }

  // ----- searching -----

  /** What a search is to find is found in any subject that is the same text. */
  lemma {:induction false} SearchFolds(p: Pattern, s: Subject, t: Subject, from: nat)
    requires PatternFolds(p) && SameText(s, t) && from <= |s|
    ensures Meant(p, s, from) == Meant(p, t, from)
    decreases |s| - from
  {
    SameWays(p, 0, s, t, from, map[]);
    if from < |s| {
      SearchFolds(p, s, t, from + 1);
    }
  }

  function Flipped(s: Subject): Subject
  {
    seq(|s|, i requires 0 <= i < |s| => OtherCase(s[i]))
  }

  /** In particular in the subject with the case of every letter flipped. */
  lemma FlippedText(s: Subject)
    ensures SameText(s, Flipped(s)) && Flipped(Flipped(s)) == s
  {
    forall i | 0 <= i < |s| ensures Lower(s[i]) == Lower(Flipped(s)[i]) && Flipped(Flipped(s))[i] == s[i] {
      FlipsCase(s[i], OtherCase(s[i]));
    }
  }
}
