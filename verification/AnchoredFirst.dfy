/** Why a search need only look at the start of the subject, or of a line, when the code is
    tied to it: if something is found anywhere else, something is found there. */
module AnchoredFirst {
  import opened Bytecode
  import opened Matching
  import opened Machine
  import opened Ordered
  import opened OrderedSpan
  import opened Anchoring

  // ----- captures do not matter -----

  predicate SameEnd(a: Outcome, b: Outcome)
  {
    a.Match? == b.Match? && (a.Match? ==> a.end == b.end)
  }

  lemma {:induction false} TryEnd(c: Code, s: Subject, pos: nat, a: Captures, b: Captures, k: Cont)
    requires pos <= |s|
    ensures SameEnd(Try(c, s, pos, a, k), Try(c, s, pos, b, k))
    decreases |s| - pos, Size(c) + Weight(k, pos), 2
  {
    HeadSize(c);
    match c
    case Nil => ExitEnd(s, pos, a, b, k);
    case Cons(One(sel), next) =>
      if pos < |s| {
        TryEnd(next, s, pos + 1, a, b, k);
      }
    case Cons(Many(sel, rep), next) => ManyEnd(sel, rep, next, s, pos, a, b, k);
    case Cons(Assert(_), next) => TryEnd(next, s, pos, a, b, k);
    case Cons(Group(_, _, _, _, _), next) => GroupEnd(c.item, next, s, pos, a, b, k);
  }

  lemma {:induction false} GroupEnd(it: Item, next: Code, s: Subject, pos: nat, a: Captures, b: Captures, k: Cont)
    requires it.Group? && pos <= |s|
    ensures SameEnd(Try(Cons(it, next), s, pos, a, k), Try(Cons(it, next), s, pos, b, k))
    decreases |s| - pos, AltsSize(it.body) + 2 + Size(next) + Weight(k, pos), 5
  {
    hide Try, Pass, Branches;
    TryGroup(it, next, s, pos, a, k);
    TryGroup(it, next, s, pos, b, k);
    TryEnd(next, s, pos, a, b, k);
    PassEnd(it, next, s, pos, a, b, k);
    BranchesEnd(it.body, s, pos, a, b, Done);
  }

  lemma {:induction false} ManyEnd(sel: Sel, rep: Rep, next: Code, s: Subject, pos: nat, a: Captures, b: Captures, k: Cont)
    requires pos <= |s|
    ensures var c := Cons(Many(sel, rep), next); SameEnd(Try(c, s, pos, a, k), Try(c, s, pos, b, k))
    decreases |s| - pos, Size(next) + Weight(k, pos), 4 + |s|
  {
    hide Try, Counts;
    var n := Longest(sel, s, pos, RepMax(rep));
    TryMany(sel, rep, next, s, pos, a, k);
    TryMany(sel, rep, next, s, pos, b, k);
    if n >= RepMin(rep) {
      TryEnd(next, s, pos + n, a, b, k);
      CountsEnd(next, s, pos, RepMin(rep), n, RepMode(rep) == Greedy, a, b, k);
    }
  }

  lemma {:induction false} CountsEnd(next: Code, s: Subject, pos: nat, lo: nat, hi: nat, greedy: bool, a: Captures, b: Captures, k: Cont)
    requires lo <= hi && pos + hi <= |s|
    ensures SameEnd(Counts(next, s, pos, lo, hi, greedy, a, k), Counts(next, s, pos, lo, hi, greedy, b, k))
    decreases |s| - pos, Size(next) + Weight(k, pos), 3 + hi - lo
  {
    if lo == hi {
      TryEnd(next, s, pos + lo, a, b, k);
    } else if greedy {
      TryEnd(next, s, pos + hi, a, b, k);
      CountsEnd(next, s, pos, lo, hi - 1, greedy, a, b, k);
    } else {
      TryEnd(next, s, pos + lo, a, b, k);
      CountsEnd(next, s, pos, lo + 1, hi, greedy, a, b, k);
    }
  }

  lemma {:induction false} BranchesEnd(alts: Alts, s: Subject, pos: nat, a: Captures, b: Captures, k: Cont)
    requires pos <= |s|
    ensures SameEnd(Branches(alts, s, pos, a, k), Branches(alts, s, pos, b, k))
    decreases |s| - pos, AltsSize(alts) + Weight(k, pos), 3
  {
    TryEnd(alts.code, s, pos, a, b, k);
    if alts.More? {
      BranchesEnd(alts.rest, s, pos, a, b, k);
    }
  }

  lemma {:induction false} PassEnd(it: Item, next: Code, s: Subject, pos: nat, a: Captures, b: Captures, k: Cont)
    requires it.Group? && pos <= |s|
    ensures SameEnd(Pass(it, next, s, pos, a, k), Pass(it, next, s, pos, b, k))
    decreases |s| - pos, AltsSize(it.body) + 1 + Size(next) + Weight(k, pos), 4
  {
    if Keeps(it) {
      BranchesEnd(it.body, s, pos, a, b, Done);
      var x, y := Branches(it.body, s, pos, a, Done), Branches(it.body, s, pos, b, Done);
      if x.Match? {
        ExitEnd(s, x.end, x.caps, y.caps, Ret(it, next, pos, k));
      }
    } else {
      BranchesEnd(it.body, s, pos, a, b, Ret(it, next, pos, k));
    }
  }

  lemma {:induction false} ExitEnd(s: Subject, pos: nat, a: Captures, b: Captures, k: Cont)
    requires pos <= |s|
    ensures SameEnd(Exit(s, pos, a, k), Exit(s, pos, b, k))
    decreases |s| - pos, Weight(k, pos), 1
  {
    if k.Ret? {
      var a', b' := Close(k.it, k.start, pos, a), Close(k.it, k.start, pos, b);
      TryEnd(k.next, s, pos, a', b', k.k);
      if Loops(k.it) && pos > k.start {
        PassEnd(k.it, k.next, s, pos, a', b', k.k);
        BranchesEnd(k.it.body, s, pos, a', b', Done);
      }
    }
  }

  // ----- having entered a loop earlier leaves no less to be found -----

  /** The same code is left to be done, in groups that were entered no later. */
  predicate Looser(k: Cont, k': Cont)
  {
    match k
    case Done => k' == Done
    case Ret(it, next, start, up) =>
      && k'.Ret? && k'.it == it && k'.next == next && Looser(up, k'.k)
      && (k'.start == start || (k'.start < start && it.Group? && !Keeps(it)))
  }

  lemma {:induction false} LooserTry(c: Code, s: Subject, pos: nat, a: Captures, b: Captures, k: Cont, k': Cont)
    requires Looser(k, k') && pos <= |s| && Try(c, s, pos, a, k).Match?
    ensures Try(c, s, pos, b, k').Match?
    decreases |s| - pos, Size(c) + Weight(k, pos), 2
  {
    HeadSize(c);
    match c
    case Nil => LooserExit(s, pos, a, b, k, k');
    case Cons(One(sel), next) => LooserTry(next, s, pos + 1, a, b, k, k');
    case Cons(Many(sel, rep), next) => LooserMany(sel, rep, next, s, pos, a, b, k, k');
    case Cons(Assert(_), next) => LooserTry(next, s, pos, a, b, k, k');
    case Cons(Group(_, _, _, body, _), next) =>
      if Try(next, s, pos, a, k).Match? {
        LooserTry(next, s, pos, a, b, k, k');
      }
      if Pass(c.item, next, s, pos, a, k).Match? {
        LooserPass(c.item, next, s, pos, a, b, k, k');
      }
      BranchesEnd(body, s, pos, a, b, Done);
  }

  lemma {:induction false} LooserMany(sel: Sel, rep: Rep, next: Code, s: Subject, pos: nat, a: Captures, b: Captures, k: Cont, k': Cont)
    requires Looser(k, k') && pos <= |s| && Try(Cons(Many(sel, rep), next), s, pos, a, k).Match?
    ensures Try(Cons(Many(sel, rep), next), s, pos, b, k').Match?
    decreases |s| - pos, Size(next) + Weight(k, pos), 4 + |s|
  {
    hide Try, Counts;
    var n := Longest(sel, s, pos, RepMax(rep));
    TryMany(sel, rep, next, s, pos, a, k);
    TryMany(sel, rep, next, s, pos, b, k');
    if RepMode(rep) == Possessive {
      LooserTry(next, s, pos + n, a, b, k, k');
    } else {
      LooserCounts(next, s, pos, RepMin(rep), n, RepMode(rep) == Greedy, a, b, k, k');
    }
  }

  lemma {:induction false} LooserCounts(next: Code, s: Subject, pos: nat, lo: nat, hi: nat, greedy: bool, a: Captures, b: Captures, k: Cont, k': Cont)
    requires Looser(k, k') && lo <= hi && pos + hi <= |s| && Counts(next, s, pos, lo, hi, greedy, a, k).Match?
    ensures Counts(next, s, pos, lo, hi, greedy, b, k').Match?
    decreases |s| - pos, Size(next) + Weight(k, pos), 3 + hi - lo
  {
    hide Try;
    var n := if greedy then hi else lo;
    if Try(next, s, pos + n, a, k).Match? {
      LooserTry(next, s, pos + n, a, b, k, k');
    } else if greedy {
      LooserCounts(next, s, pos, lo, hi - 1, greedy, a, b, k, k');
    } else {
      LooserCounts(next, s, pos, lo + 1, hi, greedy, a, b, k, k');
    }
  }

  lemma {:induction false} LooserBranches(alts: Alts, s: Subject, pos: nat, a: Captures, b: Captures, k: Cont, k': Cont)
    requires Looser(k, k') && pos <= |s| && Branches(alts, s, pos, a, k).Match?
    ensures Branches(alts, s, pos, b, k').Match?
    decreases |s| - pos, AltsSize(alts) + Weight(k, pos), 3
  {
    if Try(alts.code, s, pos, a, k).Match? {
      LooserTry(alts.code, s, pos, a, b, k, k');
    } else {
      LooserBranches(alts.rest, s, pos, a, b, k, k');
    }
  }

  lemma {:induction false} LooserPass(it: Item, next: Code, s: Subject, pos: nat, a: Captures, b: Captures, k: Cont, k': Cont)
    requires Looser(k, k') && it.Group? && pos <= |s| && Pass(it, next, s, pos, a, k).Match?
    ensures Pass(it, next, s, pos, b, k').Match?
    decreases |s| - pos, AltsSize(it.body) + 1 + Size(next) + Weight(k, pos), 4
  {
    var back, back' := Ret(it, next, pos, k), Ret(it, next, pos, k');
    if Keeps(it) {
      BranchesEnd(it.body, s, pos, a, b, Done);
      var x, y := Branches(it.body, s, pos, a, Done), Branches(it.body, s, pos, b, Done);
      LooserExit(s, x.end, x.caps, y.caps, back, back');
    } else {
      LooserBranches(it.body, s, pos, a, b, back, back');
    }
  }

  lemma {:induction false} LooserExit(s: Subject, pos: nat, a: Captures, b: Captures, k: Cont, k': Cont)
    requires Looser(k, k') && pos <= |s| && Exit(s, pos, a, k).Match?
    ensures Exit(s, pos, b, k').Match?
    decreases |s| - pos, Weight(k, pos), 1
  {
    if k.Ret? {
      var a', b' := Close(k.it, k.start, pos, a), Close(k'.it, k'.start, pos, b);
      if Try(k.next, s, pos, a', k.k).Match? {
        LooserTry(k.next, s, pos, a', b', k.k, k'.k);
      }
      if Loops(k.it) && pos > k.start {
        if Pass(k.it, k.next, s, pos, a', k.k).Match? {
          LooserPass(k.it, k.next, s, pos, a', b', k.k, k'.k);
        }
        BranchesEnd(k.it.body, s, pos, a', b', Done);
      }
    }
  }

  // ----- the search -----

  /** As the test decides, but no .* counts inside a possessively repeated group either. */
  predicate Begins(test: Test, alts: Alts, kept: bool)
    decreases alts
  {
    BranchBegins(test, alts.code, kept) && (alts.More? ==> Begins(test, alts.rest, kept))
  }

  predicate BranchBegins(test: Test, c: Code, kept: bool)
    decreases c
  {
    c.Cons? &&
    match c.item
    case One(_) => false
    case Many(sel, rep) => !kept && sel == Type(Filler(test)) && rep.Star?
    case Assert(a) => Explicit(test, a)
    case Group(zero, _, _, body, _) => zero == NoZero && Begins(test, body, kept || Keeps(c.item))
  }

  /** Inside a kept group only explicit anchors count, and they hold at 0 alone. */
  lemma {:induction false} KeptAtStart(test: Test, alts: Alts, s: Subject, pos: nat, caps: Captures, k: Cont)
    requires Begins(test, alts, true) && pos <= |s| && Branches(alts, s, pos, caps, k).Match?
    ensures pos == 0
    decreases alts
  {
    if Try(alts.code, s, pos, caps, k).Match? {
      var it := alts.code.item;
      if it.Group? {
        assert Pass(it, alts.code.next, s, pos, caps, k).Match?;
        KeptAtStart(test, it.body, s, pos, caps, if Keeps(it) then Done else Ret(it, alts.code.next, pos, k));
      }
    } else {
      KeptAtStart(test, alts.rest, s, pos, caps, k);
    }
  }

  /** A repeat without a maximum ends at the same place from wherever it could have begun. */
  lemma {:induction false} SameReach(sel: Sel, s: Subject, base: nat, i: nat)
    requires Run(sel, s, base, i)
    ensures base + Longest(sel, s, base, -1) == i + Longest(sel, s, i, -1)
    decreases i - base
  {
    if base < i {
      assert Accepts(sel, s[base]);
      SameReach(sel, s, base + 1, i);
      LongestAny(sel, s, base + 1, -2, -1);
    }
  }

  /** Any negative maximum means none. */
  lemma {:induction false} LongestAny(sel: Sel, s: Subject, pos: nat, a: int, b: int)
    requires pos <= |s| && a < 0 && b < 0
    ensures Longest(sel, s, pos, a) == Longest(sel, s, pos, b)
    decreases |s| - pos
  {
    if pos < |s| && Accepts(sel, s[pos]) {
      LongestAny(sel, s, pos + 1, a - 1, b - 1);
    }
  }

  lemma {:induction false} SomeTry(next: Code, s: Subject, pos: nat, lo: nat, hi: nat, greedy: bool, caps: Captures, k: Cont) returns (n: nat)
    requires lo <= hi && pos + hi <= |s| && Counts(next, s, pos, lo, hi, greedy, caps, k).Match?
    ensures lo <= n <= hi && Try(next, s, pos + n, caps, k).Match?
    decreases hi - lo
  {
    n := if greedy then hi else lo;
    if Try(next, s, pos + n, caps, k).NoMatch? {
      n := SomeTry(next, s, pos, if greedy then lo else lo + 1, if greedy then hi - 1 else hi, greedy, caps, k);
    }
  }

  lemma {:induction false} TryBegins(test: Test, c: Code, s: Subject, base: nat, pos: nat, a: Captures, b: Captures, k: Cont, k': Cont)
    requires BranchBegins(test, c, false) && Looser(k, k') && Covered(test, s, base, pos) && Try(c, s, pos, a, k).Match?
    ensures Try(c, s, base, b, k').Match?
    decreases c, 0
  {
    match c
    case Cons(Many(sel, rep), next) => ManyBegins(sel, rep, next, s, base, pos, a, b, k, k');
    case Cons(Assert(_), next) => LooserTry(next, s, 0, a, b, k, k');
    case Cons(Group(_, _, _, body, _), next) =>
      if Keeps(c.item) {
        KeptAtStart(test, body, s, pos, a, Done);
        LooserPass(c.item, next, s, 0, a, b, k, k');
      } else {
        BranchesBegin(test, body, s, base, pos, a, b, Ret(c.item, next, pos, k), Ret(c.item, next, base, k'));
      }
  }

  lemma ManyBegins(sel: Sel, rep: Rep, next: Code, s: Subject, base: nat, pos: nat, a: Captures, b: Captures, k: Cont, k': Cont)
    requires Run(sel, s, base, pos) && rep.Star? && Looser(k, k') && Try(Cons(Many(sel, rep), next), s, pos, a, k).Match?
    ensures Try(Cons(Many(sel, rep), next), s, base, b, k').Match?
  {
    hide Try, Counts, Longest, Looser;
    SameReach(sel, s, base, pos);
    TryMany(sel, rep, next, s, pos, a, k);
    TryMany(sel, rep, next, s, base, b, k');
    var n := Longest(sel, s, pos, -1);
    if rep.mode == Possessive {
      LooserTry(next, s, pos + n, a, b, k, k');
    } else {
      var m := SomeTry(next, s, pos, 0, n, rep.mode == Greedy, a, k);
      LooserTry(next, s, pos + m, a, b, k, k');
      SomeCount(next, s, base, 0, pos + n - base, rep.mode == Greedy, b, k', pos + m - base);
    }
  }

  lemma {:induction false} BranchesBegin(test: Test, alts: Alts, s: Subject, base: nat, pos: nat, a: Captures, b: Captures, k: Cont, k': Cont)
    requires Begins(test, alts, false) && Looser(k, k') && Covered(test, s, base, pos) && Branches(alts, s, pos, a, k).Match?
    ensures Branches(alts, s, base, b, k').Match?
    decreases alts, 1
  {
    if Try(alts.code, s, pos, a, k).Match? {
      TryBegins(test, alts.code, s, base, pos, a, b, k, k');
    } else {
      BranchesBegin(test, alts.rest, s, base, pos, a, b, k, k');
    }
  }

  /** Where such a program finds something, it finds something from wherever the leading .*
      could have begun. */
  lemma FirstBegins(test: Test, alts: Alts, s: Subject, base: nat, pos: nat)
    requires Begins(test, alts, false) && Covered(test, s, base, pos) && FirstMatch(alts, s, pos).Match?
    ensures FirstMatch(alts, s, base).Match?
  {
    var c := Cons(Top(alts), Nil);
    assert BranchBegins(test, c, false);
    TryBegins(test, c, s, base, pos, map[], map[], Done, Done);
  }
}
