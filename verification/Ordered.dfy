/** The matcher with its order of preference: which match is found first, and with which
    captures. What remains to be done after the current branch is a chain of group exits. */
module Ordered {
  import opened Bytecode
  import opened Matching
  import opened Machine

  type Captures = map<nat, (nat, nat)>

  datatype Outcome = NoMatch | Match(end: nat, caps: Captures)

  /** Done accepts. Ret leaves the group it, entered at subject position start; next is
      the code behind the group. */
  datatype Cont = Done | Ret(it: Item, next: Code, start: nat, k: Cont)

  function First(a: Outcome, b: Outcome): Outcome
  {
    if a.Match? then a else b
  }

  /** How many characters a repeat with the given maximum (-1 for none) can take. */
  function Longest(sel: Sel, s: Subject, pos: nat, max: int): (n: nat)
    requires pos <= |s|
    ensures pos + n <= |s| && (max >= 0 ==> n <= max)
    ensures forall x {:trigger s[x]} :: pos <= x < pos + n ==> Accepts(sel, s[x])
    ensures n == max || pos + n == |s| || !Accepts(sel, s[pos + n])
    decreases |s| - pos
  {
    if max == 0 || pos == |s| || !Accepts(sel, s[pos]) then 0
    else 1 + Longest(sel, s, pos + 1, max - 1)
  }

  predicate Loops(it: Item) { it.Group? && it.ket != Ket }

  /** A group that keeps the first way through it that it finds: an atomic one, or one
      repeated possessively. */
  predicate Keeps(it: Item) { it.Group? && (it.bra.Once? || it.ket == KetRPos) }

  /** A bound on the work ahead; a loop that has moved on since it was last entered may go
      round once more. */
  function Weight(k: Cont, pos: nat): nat
  {
    match k
    case Done => 0
    case Ret(it, next, start, k') =>
      1 + Size(next) + Weight(k', pos) + if Loops(it) && start < pos then 1 + AltsSize(it.body) else 0
  }

  function Close(it: Item, start: nat, pos: nat, caps: Captures): Captures
  {
    if it.Group? && it.bra.Paren? && it.bra.cap then caps[it.num as nat := (start, pos)] else caps
  }

  lemma HeadSize(c: Code)
    ensures c.Cons? ==> Size(c) == ItemSize(c.item) + Size(c.next) && ItemSize(c.item) >= 1
    ensures c.Cons? && c.item.Group? ==> ItemSize(c.item) >= AltsSize(c.item.body) + 6
  {
  }

  /** The branch c at subject position pos, with k to be done after it. */
  function Try(c: Code, s: Subject, pos: nat, caps: Captures, k: Cont): (r: Outcome)
    requires pos <= |s|
    ensures r.Match? ==> pos <= r.end <= |s|
    decreases |s| - pos, Size(c) + Weight(k, pos), 2
  {
    HeadSize(c);
    match c
    case Nil => Exit(s, pos, caps, k)
    case Cons(One(sel), next) =>
      if pos < |s| && Accepts(sel, s[pos]) then Try(next, s, pos + 1, caps, k) else NoMatch
    case Cons(Many(sel, rep), next) =>
      var n := Longest(sel, s, pos, RepMax(rep));
      if n < RepMin(rep) then NoMatch
      else if RepMode(rep) == Possessive then Try(next, s, pos + n, caps, k)
      else Counts(next, s, pos, RepMin(rep), n, RepMode(rep) == Greedy, caps, k)
    case Cons(Assert(a), next) =>
      if Holds(a, s, pos) then Try(next, s, pos, caps, k) else NoMatch
    case Cons(Group(zero, bra, num, body, ket), next) =>
      var once := Pass(c.item, next, s, pos, caps, k);
      var never := Try(next, s, pos, caps, k);
      if zero == NoZero then once
      else if zero == BraMinZero then First(never, once)
      else if zero == SkipZero then never
      else if zero == BraPosZero && Keeps(c.item) && Branches(body, s, pos, caps, Done).Match? then once
      else First(once, never)
  }

  /** A repeat that may take from lo to hi characters, most first or fewest first. */
  function Counts(next: Code, s: Subject, pos: nat, lo: nat, hi: nat, greedy: bool, caps: Captures, k: Cont): (r: Outcome)
    requires lo <= hi && pos + hi <= |s|
    ensures r.Match? ==> pos <= r.end <= |s|
    decreases |s| - pos, Size(next) + Weight(k, pos), 3 + hi - lo
  {
    if lo == hi then Try(next, s, pos + lo, caps, k)
    else if greedy then First(Try(next, s, pos + hi, caps, k), Counts(next, s, pos, lo, hi - 1, greedy, caps, k))
    else First(Try(next, s, pos + lo, caps, k), Counts(next, s, pos, lo + 1, hi, greedy, caps, k))
  }

  /** The branches of a group, in order. */
  function Branches(alts: Alts, s: Subject, pos: nat, caps: Captures, k: Cont): (r: Outcome)
    requires pos <= |s|
    ensures r.Match? ==> pos <= r.end <= |s|
    decreases |s| - pos, AltsSize(alts) + Weight(k, pos), 3
  {
    var r := Try(alts.code, s, pos, caps, k);
    if alts.More? then First(r, Branches(alts.rest, s, pos, caps, k)) else r
  }

  /** A pass through the group it, with what follows. A group that keeps its first way
      through is matched on its own, and only the end of that is gone on from. */
  function Pass(it: Item, next: Code, s: Subject, pos: nat, caps: Captures, k: Cont): (r: Outcome)
    requires it.Group? && pos <= |s|
    ensures r.Match? ==> pos <= r.end <= |s|
    decreases |s| - pos, AltsSize(it.body) + 1 + Size(next) + Weight(k, pos), 4
  {
    if !Keeps(it) then Branches(it.body, s, pos, caps, Ret(it, next, pos, k))
    else
      var way := Branches(it.body, s, pos, caps, Done);
      if way.NoMatch? then NoMatch else Exit(s, way.end, way.caps, Ret(it, next, pos, k))
  }

  /** The end of a branch: out of the group, or round again unless nothing was consumed. A
      possessive loop goes on as long as it can. */
  function Exit(s: Subject, pos: nat, caps: Captures, k: Cont): (r: Outcome)
    requires pos <= |s|
    ensures r.Match? ==> pos <= r.end <= |s|
    decreases |s| - pos, Weight(k, pos), 1
  {
    match k
    case Done => Match(pos, caps)
    case Ret(it, next, start, k') =>
      var caps' := Close(it, start, pos, caps);
      if !Loops(it) || pos <= start then Try(next, s, pos, caps', k')
      else
        var out := Try(next, s, pos, caps', k');
        var again := Pass(it, next, s, pos, caps', k');
        if it.ket == KetRMin then First(out, again)
        else if it.ket == KetRPos && Branches(it.body, s, pos, caps', Done).Match? then again
        else First(again, out)
  }

  /** The match found first at a position, with its captures. */
  function FirstMatch(alts: Alts, s: Subject, pos: nat): Outcome
    requires pos <= |s|
  {
    Try(Cons(Top(alts), Nil), s, pos, map[], Done)
  }

  // ----- one step at a time -----

  lemma TryOne(sel: Sel, next: Code, s: Subject, pos: nat, caps: Captures, k: Cont)
    requires pos <= |s|
    ensures Try(Cons(One(sel), next), s, pos, caps, k) ==
            if pos < |s| && Accepts(sel, s[pos]) then Try(next, s, pos + 1, caps, k) else NoMatch
    ensures Longest(sel, s, pos, 1) == if pos < |s| && Accepts(sel, s[pos]) then 1 else 0
  {
  }

  lemma TryAssert(a: Anchor, next: Code, s: Subject, pos: nat, caps: Captures, k: Cont)
    requires pos <= |s|
    ensures Try(Cons(Assert(a), next), s, pos, caps, k) == if Holds(a, s, pos) then Try(next, s, pos, caps, k) else NoMatch
  {
  }

  lemma TryMany(sel: Sel, rep: Rep, next: Code, s: Subject, pos: nat, caps: Captures, k: Cont)
    requires pos <= |s|
    ensures Try(Cons(Many(sel, rep), next), s, pos, caps, k) ==
            var n := Longest(sel, s, pos, RepMax(rep));
            if n < RepMin(rep) then NoMatch
            else if RepMode(rep) == Possessive then Try(next, s, pos + n, caps, k)
            else Counts(next, s, pos, RepMin(rep), n, RepMode(rep) == Greedy, caps, k)
  {
  }

  lemma TryGroup(it: Item, next: Code, s: Subject, pos: nat, caps: Captures, k: Cont)
    requires it.Group? && pos <= |s|
    ensures Try(Cons(it, next), s, pos, caps, k) ==
            var once, never := Pass(it, next, s, pos, caps, k), Try(next, s, pos, caps, k);
            if it.zero == NoZero then once
            else if it.zero == BraMinZero then First(never, once)
            else if it.zero == SkipZero then never
            else if it.zero == BraPosZero && Keeps(it) && Branches(it.body, s, pos, caps, Done).Match? then once
            else First(once, never)
  {
  }

  lemma CountsStep(next: Code, s: Subject, pos: nat, lo: nat, hi: nat, greedy: bool, caps: Captures, k: Cont)
    requires lo <= hi && pos + hi <= |s|
    ensures Counts(next, s, pos, lo, hi, greedy, caps, k) ==
            if lo == hi then Try(next, s, pos + lo, caps, k)
            else if greedy then First(Try(next, s, pos + hi, caps, k), Counts(next, s, pos, lo, hi - 1, greedy, caps, k))
            else First(Try(next, s, pos + lo, caps, k), Counts(next, s, pos, lo + 1, hi, greedy, caps, k))
  {
  }
}
