/** Patterns, as the compiler meets them item by item, and what they denote. */
module Pattern {
  import opened Opcodes
  import opened Bytecode
  import opened Matching

  /** A quantifier. The maximum -1 stands for "no maximum". */
  datatype RawQuant = NoQuant | Quant(lo: u16, hi: int, mode: Mode)

  type Quantifier = q: RawQuant | q.Quant? ==> q.hi == -1 || q.lo <= q.hi < 65536 witness NoQuant

  datatype Atom = Chars(sel: Sel) | Parens(cap: bool, alts: Pattern)

  datatype Branch =
    | Empty
    | Item(atom: Atom, q: Quantifier, rest: Branch)
    | AnchorItem(anchor: Anchor, rest: Branch)

  datatype Pattern =
    | LastBranch(b: Branch)
    | OrElse(b: Branch, others: Pattern)

  /** The number of capturing groups. */
  function Captures(p: Pattern): nat
    decreases p, 0
  {
    BranchCaptures(p.b) + (if p.OrElse? then Captures(p.others) else 0)
  }

  function BranchCaptures(b: Branch): nat
    decreases b, 0
  {
    match b
    case Empty => 0
    case Item(atom, _, rest) => AtomCaptures(atom) + BranchCaptures(rest)
    case AnchorItem(_, rest) => BranchCaptures(rest)
  }

  function AtomCaptures(atom: Atom): nat
    decreases atom, 1
  {
    if atom.Chars? then 0 else (if atom.cap then 1 else 0) + Captures(atom.alts)
  }

  // ----- denotation -----

  ghost predicate AtomSpan(a: Atom, s: Subject, i: nat, j: nat)
    decreases a, 1
  {
    match a
    case Chars(sel) => i < |s| && j == i + 1 && Accepts(sel, s[i])
    case Parens(_, alts) => PatternSpan(alts, s, i, j)
  }

  /** n matches of the atom, end to end. */
  ghost predicate Times(a: Atom, n: nat, s: Subject, i: nat, j: nat)
    decreases a, 2, n
  {
    if n == 0 then i == j <= |s|
    else exists m: nat :: AtomSpan(a, s, i, m) && Times(a, n - 1, s, m, j)
  }

  predicate Allows(q: Quantifier, n: nat)
  {
    match q
    case NoQuant => n == 1
    case Quant(lo, hi, _) => lo <= n && (hi < 0 || n <= hi)
  }

  ghost predicate QuantSpan(a: Atom, q: Quantifier, s: Subject, i: nat, j: nat)
    decreases a, 3
  {
    exists n: nat :: Allows(q, n) && Times(a, n, s, i, j)
  }

  ghost predicate BranchSpan(b: Branch, s: Subject, i: nat, j: nat)
    decreases b, 0
  {
    match b
    case Empty => i == j <= |s|
    case Item(atom, q, rest) => exists m: nat :: QuantSpan(atom, q, s, i, m) && BranchSpan(rest, s, m, j)
    case AnchorItem(a, rest) => i <= |s| && Holds(a, s, i) && BranchSpan(rest, s, i, j)
  }

  ghost predicate PatternSpan(p: Pattern, s: Subject, i: nat, j: nat)
    decreases p, 0
  {
    BranchSpan(p.b, s, i, j) || (p.OrElse? && PatternSpan(p.others, s, i, j))
  }

  /** No quantifier is possessive. A possessive quantifier's meaning depends on the
      order in which matches are tried, which a relation cannot express. */
  predicate Backtracks(p: Pattern)
    decreases p, 0
  {
    BranchBacktracks(p.b) && (p.OrElse? ==> Backtracks(p.others))
  }

  predicate BranchBacktracks(b: Branch)
    decreases b, 0
  {
    match b
    case Empty => true
    case Item(atom, q, rest) =>
      && (q.Quant? ==> q.mode != Possessive)
      && (atom.Parens? ==> Backtracks(atom.alts))
      && BranchBacktracks(rest)
    case AnchorItem(_, rest) => BranchBacktracks(rest)
  }

  // ----- counting matches -----

  lemma TimesSplit(a: Atom, n: nat, s: Subject, i: nat, j: nat) returns (m: nat)
    requires n >= 1 && Times(a, n, s, i, j)
    ensures AtomSpan(a, s, i, m) && Times(a, n - 1, s, m, j)
  {
    m :| AtomSpan(a, s, i, m) && Times(a, n - 1, s, m, j);
  }

  lemma TimesJoin(a: Atom, n: nat, s: Subject, i: nat, m: nat, j: nat)
    requires AtomSpan(a, s, i, m) && Times(a, n, s, m, j)
    ensures Times(a, n + 1, s, i, j)
  {
  }

  /** n matches of a single-character atom are a run of n accepted characters. */
  lemma {:induction false} TimesIsRun(sel: Sel, n: nat, s: Subject, i: nat, j: nat)
    ensures Times(Chars(sel), n, s, i, j) <==> Run(sel, s, i, j) && j - i == n
    decreases n
  {
    var a := Chars(sel);
    if n > 0 {
      if Times(a, n, s, i, j) {
        var m := TimesSplit(a, n, s, i, j);
        TimesIsRun(sel, n - 1, s, m, j);
      }
      if Run(sel, s, i, j) && j - i == n {
        TimesIsRun(sel, n - 1, s, i + 1, j);
        TimesJoin(a, n - 1, s, i, i + 1, j);
      }
    }
  }

  lemma BranchSplit(b: Branch, s: Subject, i: nat, j: nat) returns (m: nat)
    requires b.Item? && BranchSpan(b, s, i, j)
    ensures QuantSpan(b.atom, b.q, s, i, m) && BranchSpan(b.rest, s, m, j)
  {
    m :| QuantSpan(b.atom, b.q, s, i, m) && BranchSpan(b.rest, s, m, j);
  }

  // ----- a match moves forward and stays inside the subject -----

  lemma {:induction false} TimesBounds(a: Atom, n: nat, s: Subject, i: nat, j: nat)
    requires Times(a, n, s, i, j)
    ensures i <= j <= |s|
    decreases a, 1, n
  {
    if n > 0 {
      var m := TimesSplit(a, n, s, i, j);
      if a.Parens? {
        PatternBounds(a.alts, s, i, m);
      }
      TimesBounds(a, n - 1, s, m, j);
    }
  }

  lemma {:induction false} BranchBounds(b: Branch, s: Subject, i: nat, j: nat)
    requires BranchSpan(b, s, i, j)
    ensures i <= j <= |s|
    decreases b, 2
  {
    match b
    case Empty =>
    case Item(atom, q, rest) =>
      var m: nat :| QuantSpan(atom, q, s, i, m) && BranchSpan(rest, s, m, j);
      var n: nat :| Allows(q, n) && Times(atom, n, s, i, m);
      TimesBounds(atom, n, s, i, m);
      BranchBounds(rest, s, m, j);
    case AnchorItem(_, rest) => BranchBounds(rest, s, i, j);
  }

  lemma {:induction false} PatternBounds(p: Pattern, s: Subject, i: nat, j: nat)
    requires PatternSpan(p, s, i, j)
    ensures i <= j <= |s|
    decreases p, 0
  {
    if BranchSpan(p.b, s, i, j) {
      BranchBounds(p.b, s, i, j);
    } else {
      PatternBounds(p.others, s, i, j);
    }
  }
}
