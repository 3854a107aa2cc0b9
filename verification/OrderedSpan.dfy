/** The matcher with preferences finds only matches that the code's relation allows, and
    finds one whenever there is one. */
module OrderedSpan {
  import opened Bytecode
  import opened Matching
  import opened Machine
  import opened Ordered

  /** Passes through a looping group, each of which consumes something. */
  ghost predicate Rounds(body: Alts, s: Subject, i: nat, j: nat)
    decreases |s| - i
  {
    i == j <= |s| || exists m: nat :: i < m <= |s| && AltsSpan(body, s, i, m) && Rounds(body, s, m, j)
  }

  /** What is left to do can take the subject from m to e. */
  ghost predicate ContSpan(k: Cont, s: Subject, m: nat, e: nat)
    decreases k
  {
    match k
    case Done => m == e <= |s|
    case Ret(it, next, start, k') =>
      exists x: nat, y: nat :: ExitSpan(it, start, s, m, x) && Span(next, s, x, y) && ContSpan(k', s, y, e)
  }

  /** Leaving a group at m after any further passes, which end at x. */
  ghost predicate ExitSpan(it: Item, start: nat, s: Subject, m: nat, x: nat)
  {
    m <= |s| && (m == x || (Loops(it) && m > start && Rounds(it.body, s, m, x)))
  }

  // ----- only matches that are allowed -----

  lemma ExitJoin(it: Item, next: Code, start: nat, k: Cont, s: Subject, m: nat, x: nat, y: nat, e: nat)
    requires ExitSpan(it, start, s, m, x) && Span(next, s, x, y) && ContSpan(k, s, y, e)
    ensures ContSpan(Ret(it, next, start, k), s, m, e)
  {
  }

  lemma ExitSplit(k: Cont, s: Subject, m: nat, e: nat) returns (x: nat, y: nat)
    requires k.Ret? && ContSpan(k, s, m, e)
    ensures ExitSpan(k.it, k.start, s, m, x) && Span(k.next, s, x, y) && ContSpan(k.k, s, y, e)
  {
    x, y :| ExitSpan(k.it, k.start, s, m, x) && Span(k.next, s, x, y) && ContSpan(k.k, s, y, e);
  }

  lemma {:induction false} TrySound(c: Code, s: Subject, pos: nat, caps: Captures, k: Cont) returns (m: nat)
    requires pos <= |s| && Try(c, s, pos, caps, k).Match?
    ensures Span(c, s, pos, m) && ContSpan(k, s, m, Try(c, s, pos, caps, k).end)
    decreases |s| - pos, Size(c) + Weight(k, pos), 2
  {
    HeadSize(c);
    match c
    case Nil =>
      m := pos;
      ExitSound(s, pos, caps, k);
    case Cons(One(sel), next) =>
      m := TrySound(next, s, pos + 1, caps, k);
      SpanJoin(c.item, next, s, pos, pos + 1, m);
    case Cons(Many(sel, rep), next) =>
      m := ManySound(sel, rep, next, s, pos, caps, k);
    case Cons(Assert(a), next) =>
      m := TrySound(next, s, pos, caps, k);
      SpanJoin(c.item, next, s, pos, pos, m);
    case Cons(Group(zero, _, _, body, _), next) =>
      if zero != SkipZero && Pass(c.item, next, s, pos, caps, k) == Try(c, s, pos, caps, k) {
        var x, y;
        x, y, m := PassSound(c.item, next, s, pos, caps, k);
        PassSpan(c.item, s, pos, x, y);
        SpanJoin(c.item, next, s, pos, y, m);
      } else {
        m := TrySound(next, s, pos, caps, k);
        SpanJoin(c.item, next, s, pos, pos, m);
      }
  }

  lemma {:induction false} ManySound(sel: Sel, rep: Rep, next: Code, s: Subject, pos: nat, caps: Captures, k: Cont) returns (m: nat)
    requires pos <= |s| && Try(Cons(Many(sel, rep), next), s, pos, caps, k).Match?
    ensures Span(Cons(Many(sel, rep), next), s, pos, m)
    ensures ContSpan(k, s, m, Try(Cons(Many(sel, rep), next), s, pos, caps, k).end)
    decreases |s| - pos, Size(next) + Weight(k, pos), 4 + |s|
  {
    TryMany(sel, rep, next, s, pos, caps, k);
    var n, x := Longest(sel, s, pos, RepMax(rep)), pos;
    if RepMode(rep) == Possessive {
      x := pos + n;
      m := TrySound(next, s, x, caps, k);
    } else {
      var count;
      count, m := CountsSound(next, s, pos, RepMin(rep), n, RepMode(rep) == Greedy, caps, k);
      x := pos + count;
    }
    assert Takes(sel, rep, s, pos, x);
    SpanJoin(Many(sel, rep), next, s, pos, x, m);
  }

  lemma {:induction false} CountsSound(next: Code, s: Subject, pos: nat, lo: nat, hi: nat, greedy: bool, caps: Captures, k: Cont) returns (n: nat, m: nat)
    requires lo <= hi && pos + hi <= |s| && Counts(next, s, pos, lo, hi, greedy, caps, k).Match?
    ensures lo <= n <= hi && Span(next, s, pos + n, m)
    ensures ContSpan(k, s, m, Counts(next, s, pos, lo, hi, greedy, caps, k).end)
    decreases |s| - pos, Size(next) + Weight(k, pos), 3 + hi - lo
  {
    n := if greedy then hi else lo;
    if Try(next, s, pos + n, caps, k).Match? {
      m := TrySound(next, s, pos + n, caps, k);
    } else if greedy {
      n, m := CountsSound(next, s, pos, lo, hi - 1, greedy, caps, k);
    } else {
      n, m := CountsSound(next, s, pos, lo + 1, hi, greedy, caps, k);
    }
  }

  lemma {:induction false} BranchesSound(alts: Alts, s: Subject, pos: nat, caps: Captures, k: Cont) returns (m: nat)
    requires pos <= |s| && Branches(alts, s, pos, caps, k).Match?
    ensures AltsSpan(alts, s, pos, m) && ContSpan(k, s, m, Branches(alts, s, pos, caps, k).end)
    decreases |s| - pos, AltsSize(alts) + Weight(k, pos), 3
  {
    if Try(alts.code, s, pos, caps, k).Match? {
      m := TrySound(alts.code, s, pos, caps, k);
    } else {
      m := BranchesSound(alts.rest, s, pos, caps, k);
    }
  }

  /** A pass through a group to m, its exit at x, what follows up to y, and the rest. */
  lemma {:induction false} PassSound(it: Item, next: Code, s: Subject, pos: nat, caps: Captures, k: Cont) returns (m: nat, x: nat, y: nat)
    requires it.Group? && pos <= |s| && Pass(it, next, s, pos, caps, k).Match?
    ensures AltsSpan(it.body, s, pos, m) && ExitSpan(it, pos, s, m, x) && Span(next, s, x, y)
    ensures ContSpan(k, s, y, Pass(it, next, s, pos, caps, k).end)
    decreases |s| - pos, AltsSize(it.body) + 1 + Size(next) + Weight(k, pos), 4
  {
    var back := Ret(it, next, pos, k);
    if Keeps(it) {
      var way := Branches(it.body, s, pos, caps, Done);
      m := BranchesSound(it.body, s, pos, caps, Done);
      ExitSound(s, m, way.caps, back);
    } else {
      m := BranchesSound(it.body, s, pos, caps, back);
    }
    x, y := ExitSplit(back, s, m, Pass(it, next, s, pos, caps, k).end);
  }

  lemma {:induction false} ExitSound(s: Subject, pos: nat, caps: Captures, k: Cont)
    requires pos <= |s| && Exit(s, pos, caps, k).Match?
    ensures ContSpan(k, s, pos, Exit(s, pos, caps, k).end)
    decreases |s| - pos, Weight(k, pos), 1
  {
    if k.Ret? {
      var r, caps' := Exit(s, pos, caps, k), Close(k.it, k.start, pos, caps);
      if Try(k.next, s, pos, caps', k.k) == r {
        var y := TrySound(k.next, s, pos, caps', k.k);
        ExitJoin(k.it, k.next, k.start, k.k, s, pos, pos, y, r.end);
      } else {
        var m, x, y := PassSound(k.it, k.next, s, pos, caps', k.k);
        AltsBounds(k.it.body, s, pos, m);
        RoundsJoin(k.it, s, pos, m, x);
        ExitJoin(k.it, k.next, k.start, k.k, s, pos, x, y, r.end);
      }
    }
  }

  /** One more pass in front of what a loop still does after it. */
  lemma RoundsJoin(it: Item, s: Subject, i: nat, m: nat, x: nat)
    requires Loops(it) && AltsSpan(it.body, s, i, m) && i <= m && ExitSpan(it, i, s, m, x)
    ensures Rounds(it.body, s, i, x)
  {
    if m > i {
      if m == x {
        assert Rounds(it.body, s, m, x);
      }
    }
  }

  /** A pass through a group and what follows it up to the exit, as a match of the group. */
  lemma PassSpan(it: Item, s: Subject, i: nat, m: nat, x: nat)
    requires it.Group? && it.zero != SkipZero && AltsSpan(it.body, s, i, m) && ExitSpan(it, i, s, m, x)
    ensures ItemSpan(it, s, i, x)
  {
    if it.ket != Ket {
      AltsBounds(it.body, s, i, m);
      if m == x {
        IterateOnce(it.body, s, i, m);
      } else {
        var n := RoundsIterate(it.body, s, m, x);
        IterateJoin(it.body, n, s, i, m, x);
      }
    }
  }

  lemma {:induction false} RoundsIterate(body: Alts, s: Subject, i: nat, j: nat) returns (n: nat)
    requires Rounds(body, s, i, j)
    ensures Iterate(body, n, s, i, j)
    decreases |s| - i
  {
    if i == j {
      n := 0;
    } else {
      var m: nat :| i < m <= |s| && AltsSpan(body, s, i, m) && Rounds(body, s, m, j);
      var n1 := RoundsIterate(body, s, m, j);
      IterateJoin(body, n1, s, i, m, j);
      n := n1 + 1;
    }
  }

  // ----- every match that is allowed, when nothing is possessive or atomic -----

  predicate Free(c: Code)
    decreases c, 0
  {
    c.Cons? ==>
      && Free(c.next)
      && (c.item.Many? ==> RepMode(c.item.rep) != Possessive)
      && (c.item.Group? ==> !Keeps(c.item) && FreeBranches(c.item.body))
  }

  predicate FreeBranches(alts: Alts)
    decreases alts, 0
  {
    Free(alts.code) && (alts.More? ==> FreeBranches(alts.rest))
  }

  predicate FreeCont(k: Cont)
  {
    k.Ret? ==> k.it.Group? && !Keeps(k.it) && FreeBranches(k.it.body) && Free(k.next) && FreeCont(k.k)
  }

  /** Passes that consume nothing can be left out. */
  lemma {:induction false} IterateRounds(body: Alts, n: nat, s: Subject, i: nat, j: nat)
    requires Iterate(body, n, s, i, j)
    ensures Rounds(body, s, i, j)
    decreases n
  {
    if n > 0 {
      var m := IterateSplit(body, n, s, i, j);
      AltsBounds(body, s, i, m);
      IterateRounds(body, n - 1, s, m, j);
    }
  }

  /** A match of a group as a first pass and what follows it up to the exit. */
  lemma GroupPass(it: Item, s: Subject, i: nat, j: nat) returns (m: nat)
    requires it.Group? && GroupSpan(it.body, it.ket, s, i, j)
    ensures AltsSpan(it.body, s, i, m) && ExitSpan(it, i, s, m, j) && m <= |s|
  {
    if it.ket == Ket {
      m := j;
      AltsBounds(it.body, s, i, j);
    } else {
      var n: nat :| n >= 1 && Iterate(it.body, n, s, i, j);
      m := IterateSplit(it.body, n, s, i, j);
      AltsBounds(it.body, s, i, m);
      IterateRounds(it.body, n - 1, s, m, j);
      if m == i && m != j {
        m :| i < m <= |s| && AltsSpan(it.body, s, i, m) && Rounds(it.body, s, m, j);
      }
    }
  }

  lemma {:induction false} TryComplete(c: Code, s: Subject, pos: nat, caps: Captures, k: Cont, m: nat, e: nat)
    requires pos <= |s| && Free(c) && FreeCont(k)
    requires Span(c, s, pos, m) && ContSpan(k, s, m, e)
    ensures Try(c, s, pos, caps, k).Match?
    decreases |s| - pos, Size(c) + Weight(k, pos), 2
  {
    hide Try, Span, ItemSpan, GroupSpan, ExitSpan, AltsSpan, ContSpan;
    HeadSize(c);
    if c == Nil {
      NilExits(s, pos, caps, k, m);
      ExitComplete(s, pos, caps, k, e);
    } else {
      var x := SpanSplit(c, s, pos, m);
      ItemBounds(c.item, s, pos, x);
      assert Free(c.next);
      match c.item
      case One(sel) =>
        SingleSpan(c.item, s, pos, x);
        TryOne(sel, c.next, s, pos, caps, k);
        TryComplete(c.next, s, x, caps, k, m, e);
      case Many(sel, rep) =>
        SingleSpan(c.item, s, pos, x);
        ManyComplete(sel, rep, c.next, s, pos, x, caps, k, m, e);
      case Assert(a) =>
        SingleSpan(c.item, s, pos, x);
        TryAssert(a, c.next, s, pos, caps, k);
        TryComplete(c.next, s, x, caps, k, m, e);
      case Group(_, _, _, _, _) => GroupComplete(c.item, c.next, s, pos, x, caps, k, m, e);
    }
  }

  lemma NilExits(s: Subject, pos: nat, caps: Captures, k: Cont, m: nat)
    requires pos <= |s| && Span(Nil, s, pos, m)
    ensures m == pos && Try(Nil, s, pos, caps, k) == Exit(s, pos, caps, k)
  {
  }

  lemma SingleSpan(it: Item, s: Subject, i: nat, j: nat)
    requires !it.Group? && ItemSpan(it, s, i, j)
    ensures it.One? ==> i < |s| && j == i + 1 && Accepts(it.sel, s[i])
    ensures it.Many? ==> Takes(it.sel, it.rep, s, i, j)
    ensures it.Assert? ==> i == j && Holds(it.anchor, s, i)
  {
  }

  lemma {:induction false} GroupComplete(it: Item, next: Code, s: Subject, pos: nat, x: nat, caps: Captures, k: Cont, m: nat, e: nat)
    requires it.Group? && !Keeps(it) && FreeBranches(it.body) && Free(next) && FreeCont(k)
    requires pos <= x <= |s| && ItemSpan(it, s, pos, x) && Span(next, s, x, m) && ContSpan(k, s, m, e)
    ensures Try(Cons(it, next), s, pos, caps, k).Match?
    decreases |s| - pos, Size(Cons(it, next)) + Weight(k, pos), 1
  {
    hide Try, Span, GroupSpan, ExitSpan, AltsSpan, ContSpan, Branches;
    HeadSize(Cons(it, next));
    TryGroup(it, next, s, pos, caps, k);
    if it.zero != SkipZero && GroupSpan(it.body, it.ket, s, pos, x) {
      var y := GroupPass(it, s, pos, x);
      ExitJoin(it, next, pos, k, s, y, x, m, e);
      BranchesComplete(it.body, s, pos, caps, Ret(it, next, pos, k), y, e);
    } else {
      TryComplete(next, s, x, caps, k, m, e);
    }
  }

  lemma {:induction false} LongestIsMost(sel: Sel, s: Subject, pos: nat, max: int, x: nat)
    requires Matching.Run(sel, s, pos, x) && (max < 0 || x - pos <= max)
    ensures x - pos <= Longest(sel, s, pos, max)
    decreases x - pos
  {
    if pos < x {
      assert Accepts(sel, s[pos]);
      LongestIsMost(sel, s, pos + 1, max - 1, x);
    }
  }

  lemma {:induction false} ManyComplete(sel: Sel, rep: Rep, next: Code, s: Subject, pos: nat, x: nat, caps: Captures, k: Cont, m: nat, e: nat)
    requires pos <= |s| && Free(next) && FreeCont(k) && RepMode(rep) != Possessive
    requires Takes(sel, rep, s, pos, x) && Span(next, s, x, m) && ContSpan(k, s, m, e)
    ensures Try(Cons(Many(sel, rep), next), s, pos, caps, k).Match?
    decreases |s| - pos, Size(next) + Weight(k, pos), 4 + |s|
  {
    hide Try, Counts, Span, ContSpan;
    TryMany(sel, rep, next, s, pos, caps, k);
    var n := Longest(sel, s, pos, RepMax(rep));
    LongestIsMost(sel, s, pos, RepMax(rep), x);
    TryComplete(next, s, x, caps, k, m, e);
    SomeCount(next, s, pos, RepMin(rep), n, RepMode(rep) == Greedy, caps, k, x - pos);
  }

  lemma {:induction false} SomeCount(next: Code, s: Subject, pos: nat, lo: nat, hi: nat, greedy: bool, caps: Captures, k: Cont, n: nat)
    requires lo <= n <= hi && pos + hi <= |s| && Try(next, s, pos + n, caps, k).Match?
    ensures Counts(next, s, pos, lo, hi, greedy, caps, k).Match?
    decreases hi - lo
  {
    if lo < hi {
      if greedy && n < hi {
        SomeCount(next, s, pos, lo, hi - 1, greedy, caps, k, n);
      } else if !greedy && n > lo {
        SomeCount(next, s, pos, lo + 1, hi, greedy, caps, k, n);
      }
    }
  }

  lemma {:induction false} BranchesComplete(alts: Alts, s: Subject, pos: nat, caps: Captures, k: Cont, m: nat, e: nat)
    requires pos <= |s| && FreeBranches(alts) && FreeCont(k)
    requires AltsSpan(alts, s, pos, m) && ContSpan(k, s, m, e)
    ensures Branches(alts, s, pos, caps, k).Match?
    decreases |s| - pos, AltsSize(alts) + Weight(k, pos), 3
  {
    if Span(alts.code, s, pos, m) {
      TryComplete(alts.code, s, pos, caps, k, m, e);
    } else {
      BranchesComplete(alts.rest, s, pos, caps, k, m, e);
    }
  }

  lemma {:induction false} ExitComplete(s: Subject, pos: nat, caps: Captures, k: Cont, e: nat)
    requires pos <= |s| && FreeCont(k) && ContSpan(k, s, pos, e)
    ensures Exit(s, pos, caps, k).Match?
    decreases |s| - pos, Weight(k, pos), 1
  {
    if k.Ret? {
      var x, y := ExitSplit(k, s, pos, e);
      var caps' := Close(k.it, k.start, pos, caps);
      if x == pos {
        TryComplete(k.next, s, pos, caps', k.k, y, e);
      } else {
        var m: nat :| pos < m <= |s| && AltsSpan(k.it.body, s, pos, m) && Rounds(k.it.body, s, m, x);
        ExitJoin(k.it, k.next, pos, k.k, s, m, x, y, e);
        BranchesComplete(k.it.body, s, pos, caps', Ret(k.it, k.next, pos, k.k), m, e);
      }
    }
  }

  // ----- whole programs -----

  /** What is found first is a match of the program. */
  lemma FirstMatchIsMatch(alts: Alts, s: Subject, pos: nat)
    requires pos <= |s| && FirstMatch(alts, s, pos).Match?
    ensures AltsSpan(alts, s, pos, FirstMatch(alts, s, pos).end)
  {
    var m := TrySound(Cons(Top(alts), Nil), s, pos, map[], Done);
    var x := SpanSplit(Cons(Top(alts), Nil), s, pos, m);
  }

  /** If the program can match at all from a position, a match is found there. */
  lemma FirstMatchExists(alts: Alts, s: Subject, pos: nat, e: nat)
    requires FreeBranches(alts) && AltsSpan(alts, s, pos, e)
    ensures pos <= |s| && FirstMatch(alts, s, pos).Match?
  {
    AltsBounds(alts, s, pos, e);
    SpanJoin(Top(alts), Nil, s, pos, e, e);
    TryComplete(Cons(Top(alts), Nil), s, pos, map[], Done, e, e);
  }
}
