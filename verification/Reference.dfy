/** What a pattern means to a backtracking matcher: all its ways to match at a position, in
    order of preference, each with its end and captures. Nothing here refers to code. */
module Reference {
  import opened Bytecode
  import opened Matching
  import opened Pattern
  import Ordered

  type Caps = Ordered.Captures

  datatype Ways = None | Way(pos: nat, caps: Caps, more: Ways)

  function Append(a: Ways, b: Ways): Ways
  {
    match a
    case None => b
    case Way(pos, caps, more) => Way(pos, caps, Append(more, b))
  }

  /** The most preferred way alone. */
  function Only(a: Ways): Ways
  {
    if a == None then None else Way(a.pos, a.caps, None)
  }

  function Here(pos: nat, caps: Caps): Ways { Way(pos, caps, None) }

  /** Every way ends between lo and the end of the subject. */
  predicate Inside(a: Ways, s: Subject, lo: nat)
  {
    a.Way? ==> lo <= a.pos <= |s| && Inside(a.more, s, lo)
  }

  lemma {:induction false} InsideAppend(a: Ways, b: Ways, s: Subject, lo: nat)
    ensures Inside(a, s, lo) && Inside(b, s, lo) ==> Inside(Append(a, b), s, lo)
    decreases a
  {
    if a.Way? {
      InsideAppend(a.more, b, s, lo);
    }
  }

  lemma {:induction false} InsideLower(a: Ways, s: Subject, hi: nat, lo: nat)
    requires Inside(a, s, hi) && lo <= hi
    ensures Inside(a, s, lo)
    decreases a
  {
    if a.Way? {
      InsideLower(a.more, s, hi, lo);
    }
  }

  /** The number of the next capturing group, in the two bytes the code has for it. */
  function Number(bc: nat): nat { (bc + 1) % 65536 }

  /** Ways through a group become ways that have set its capture. */
  function Closed(a: Ways, cap: bool, num: nat, start: nat): Ways
  {
    if a == None || !cap then a else Way(a.pos, a.caps[num := (start, a.pos)], Closed(a.more, cap, num, start))
  }

  lemma {:induction false} InsideClosed(a: Ways, cap: bool, num: nat, start: nat, s: Subject, lo: nat)
    requires Inside(a, s, lo)
    ensures Inside(Closed(a, cap, num, start), s, lo)
    decreases a
  {
    if a.Way? {
      InsideClosed(a.more, cap, num, start, s, lo);
    }
  }

  // ----- the ways of a pattern; bc capturing groups have been opened before it -----

  function PatternWays(p: Pattern, bc: nat, s: Subject, pos: nat, caps: Caps): (r: Ways)
    requires pos <= |s|
    ensures Inside(r, s, pos)
    decreases p, 0
  {
    var first := BranchWays(p.b, bc, s, pos, caps);
    if p.LastBranch? then first
    else
      var others := PatternWays(p.others, bc + BranchCaptures(p.b), s, pos, caps);
      InsideAppend(first, others, s, pos);
      Append(first, others)
  }

  function BranchWays(b: Branch, bc: nat, s: Subject, pos: nat, caps: Caps): (r: Ways)
    requires pos <= |s|
    ensures Inside(r, s, pos)
    decreases b, 0, 0
  {
    match b
    case Empty => Here(pos, caps)
    case Item(atom, q, rest) => BranchAll(QuantWays(atom, q, bc, s, pos, caps), rest, bc + AtomCaptures(atom), s, pos)
    case AnchorItem(a, rest) => if Holds(a, s, pos) then BranchWays(rest, bc, s, pos, caps) else None
  }

  /** Each way gone on with by the rest of the branch. */
  function BranchAll(a: Ways, rest: Branch, bc: nat, s: Subject, lo: nat): (r: Ways)
    requires Inside(a, s, lo)
    ensures Inside(r, s, lo)
    decreases rest, 1, a
  {
    if a == None then None
    else
      var on, others := BranchWays(rest, bc, s, a.pos, a.caps), BranchAll(a.more, rest, bc, s, lo);
      InsideLower(on, s, a.pos, lo);
      InsideAppend(on, others, s, lo);
      Append(on, others)
  }

  function AtomWays(a: Atom, bc: nat, s: Subject, pos: nat, caps: Caps): (r: Ways)
    requires pos <= |s|
    ensures Inside(r, s, pos)
    decreases a, 0
  {
    match a
    case Chars(sel) => if pos < |s| && Accepts(sel, s[pos]) then Here(pos + 1, caps) else None
    case Parens(cap, alts) =>
      var inner := PatternWays(alts, if cap then bc + 1 else bc, s, pos, caps);
      InsideClosed(inner, cap, Number(bc), pos, s, pos);
      Closed(inner, cap, Number(bc), pos)
  }

  /** A possessive quantifier keeps the most preferred way of the greedy one. */
  function QuantWays(a: Atom, q: Quantifier, bc: nat, s: Subject, pos: nat, caps: Caps): (r: Ways)
    requires pos <= |s|
    ensures Inside(r, s, pos)
    decreases a, 4
  {
    if q == NoQuant then AtomWays(a, bc, s, pos, caps)
    else
      var all := RepeatWays(a, bc, q.lo, q.hi, q.mode != Lazy, s, pos, caps);
      if q.mode == Possessive then Only(all) else all
  }

  function Least(hi: int): int { if hi < 0 then hi else hi - 1 }

  /** From lo to hi matches of the atom (hi is -1 for any number). */
  function RepeatWays(a: Atom, bc: nat, lo: nat, hi: int, greedy: bool, s: Subject, pos: nat, caps: Caps): (r: Ways)
    requires pos <= |s| && (hi < 0 || lo <= hi)
    ensures Inside(r, s, pos)
    ensures lo == 0 ==> r.Way?
    decreases a, 1, lo + (if hi < 0 then 0 else hi), |s| - pos, 2
  {
    if lo > 0 then RepeatAll(AtomWays(a, bc, s, pos, caps), a, bc, lo - 1, Least(hi), greedy, s, pos)
    else if hi == 0 then Here(pos, caps)
    else
      var more := RepeatAll(AtomWays(a, bc, s, pos, caps), a, bc, 0, Least(hi), greedy, s, pos);
      assert Inside(Here(pos, caps), s, pos);
      InsideAppend(more, Here(pos, caps), s, pos);
      if greedy then Append(more, Here(pos, caps)) else Way(pos, caps, more)
  }

  /** Each way gone on with by further matches of the atom; but a match of nothing ends an
      unlimited repeat. */
  function RepeatAll(w: Ways, a: Atom, bc: nat, lo: nat, hi: int, greedy: bool, s: Subject, start: nat): (r: Ways)
    requires Inside(w, s, start) && start <= |s| && (hi < 0 || lo <= hi)
    ensures Inside(r, s, start)
    ensures lo == 0 ==> (r.Way? <==> w.Way?)
    decreases a, 1, lo + (if hi < 0 then 0 else hi), if lo == 0 && hi < 0 then |s| - start else |s| + 1, 1, w
  {
    if w == None then None
    else
      var on := if lo == 0 && hi < 0 && w.pos <= start then Here(w.pos, w.caps)
                else RepeatWays(a, bc, lo, hi, greedy, s, w.pos, w.caps);
      var others := RepeatAll(w.more, a, bc, lo, hi, greedy, s, start);
      InsideLower(on, s, w.pos, start);
      InsideAppend(on, others, s, start);
      Append(on, others)
  }
}
