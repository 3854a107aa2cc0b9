/** The compiled code finds first what the pattern prefers: copies of groups, EXACT and UPTO
    pairs, nested optional groups, loops and atomic wrappings keep the order of preference
    and the captures. */
module Preference {
  import opened Bytecode
  import opened Matching
  import opened Pattern
  import opened Translation
  import opened Reference
  import opened Ordered
  import opened AnchoredFirst
  import Machine

  // ----- going on from each way in turn -----

  /** The first of the ways from which the code c, and then k, leads to a match. */
  function Pick(a: Ways, c: Code, s: Subject, k: Cont): Outcome
    requires Inside(a, s, 0)
  {
    if a == None then NoMatch else First(Try(c, s, a.pos, a.caps, k), Pick(a.more, c, s, k))
  }

  lemma {:induction false} PickAppend(a: Ways, b: Ways, c: Code, s: Subject, k: Cont)
    requires Inside(a, s, 0) && Inside(b, s, 0)
    ensures Inside(Append(a, b), s, 0)
    ensures Pick(Append(a, b), c, s, k) == First(Pick(a, c, s, k), Pick(b, c, s, k))
    decreases a
  {
    InsideAppend(a, b, s, 0);
    if a.Way? {
      PickAppend(a.more, b, c, s, k);
    }
  }

  /** With nothing left to do the first way is taken. */
  lemma PickFirst(a: Ways, s: Subject)
    requires Inside(a, s, 0)
    ensures Pick(a, Nil, s, Done) == if a == None then NoMatch else Match(a.pos, a.caps)
  {
    if a.Way? {
      assert Try(Nil, s, a.pos, a.caps, Done) == Match(a.pos, a.caps);
    }
  }

  // ----- single characters -----

  lemma {:induction false} AppendNone(a: Ways)
    ensures Append(a, None) == a
    decreases a
  {
    if a.Way? {
      AppendNone(a.more);
    }
  }

  /** A character behind which the repeat goes on. */
  lemma CharOne(sel: Sel, bc: nat, lo: nat, hi: int, greedy: bool, s: Subject, pos: nat, caps: Caps)
    requires pos < |s| && (hi < 0 || lo <= hi)
    ensures RepeatAll(Here(pos + 1, caps), Chars(sel), bc, lo, hi, greedy, s, pos) ==
            RepeatWays(Chars(sel), bc, lo, hi, greedy, s, pos + 1, caps)
  {
    assert RepeatAll(None, Chars(sel), bc, lo, hi, greedy, s, pos) == None;
    AppendNone(RepeatWays(Chars(sel), bc, lo, hi, greedy, s, pos + 1, caps));
  }

  lemma CharNext(sel: Sel, bc: nat, lo: nat, hi: int, greedy: bool, s: Subject, pos: nat, caps: Caps)
    requires pos <= |s| && lo > 0 && (hi < 0 || lo <= hi)
    ensures RepeatWays(Chars(sel), bc, lo, hi, greedy, s, pos, caps) ==
            if pos < |s| && Accepts(sel, s[pos]) then RepeatWays(Chars(sel), bc, lo - 1, Least(hi), greedy, s, pos + 1, caps) else None
  {
    if pos < |s| && Accepts(sel, s[pos]) {
      CharOne(sel, bc, lo - 1, Least(hi), greedy, s, pos, caps);
    } else {
      assert RepeatAll(None, Chars(sel), bc, lo - 1, Least(hi), greedy, s, pos) == None;
    }
  }

  /** The minimum is taken without any choice. */
  lemma {:induction false} CharMust(sel: Sel, bc: nat, lo: nat, hi: int, greedy: bool, s: Subject, pos: nat, caps: Caps)
    requires pos <= |s| && (hi < 0 || lo <= hi)
    ensures RepeatWays(Chars(sel), bc, lo, hi, greedy, s, pos, caps) ==
            if Longest(sel, s, pos, lo) < lo then None
            else RepeatWays(Chars(sel), bc, 0, if hi < 0 then hi else hi - lo, greedy, s, pos + lo, caps)
    decreases lo
  {
    hide RepeatWays;
    if lo > 0 {
      CharNext(sel, bc, lo, hi, greedy, s, pos, caps);
      if pos < |s| && Accepts(sel, s[pos]) {
        CharMust(sel, bc, lo - 1, Least(hi), greedy, s, pos + 1, caps);
      }
    }
  }

  /** Counting from the next position. */
  lemma {:induction false} CountsShift(next: Code, s: Subject, pos: nat, lo: nat, hi: nat, greedy: bool, caps: Caps, k: Cont)
    requires lo <= hi && pos + 1 + hi <= |s|
    ensures Counts(next, s, pos + 1, lo, hi, greedy, caps, k) == Counts(next, s, pos, lo + 1, hi + 1, greedy, caps, k)
    decreases hi - lo
  {
    hide Try, Counts;
    CountsStep(next, s, pos + 1, lo, hi, greedy, caps, k);
    CountsStep(next, s, pos, lo + 1, hi + 1, greedy, caps, k);
    if lo < hi {
      if greedy {
        CountsShift(next, s, pos, lo, hi - 1, greedy, caps, k);
      } else {
        CountsShift(next, s, pos, lo + 1, hi, greedy, caps, k);
      }
    }
  }

  /** The least count comes last when the repeat is greedy. */
  lemma {:induction false} CountsLast(next: Code, s: Subject, pos: nat, lo: nat, hi: nat, caps: Caps, k: Cont)
    requires lo < hi && pos + hi <= |s|
    ensures Counts(next, s, pos, lo, hi, true, caps, k) ==
            First(Counts(next, s, pos, lo + 1, hi, true, caps, k), Try(next, s, pos + lo, caps, k))
    decreases hi - lo
  {
    CountsStep(next, s, pos, lo, hi, true, caps, k);
    CountsStep(next, s, pos, lo + 1, hi, true, caps, k);
    if lo + 1 < hi {
      CountsLast(next, s, pos, lo, hi - 1, caps, k);
    } else {
      CountsStep(next, s, pos, lo, lo, true, caps, k);
    }
  }

  /** The ways of an optional repeat, one character at a time. */
  lemma CharSteps(sel: Sel, bc: nat, hi: int, greedy: bool, s: Subject, pos: nat, caps: Caps)
    requires pos <= |s| && hi >= -1
    ensures RepeatWays(Chars(sel), bc, 0, hi, greedy, s, pos, caps) ==
            if hi == 0 || pos == |s| || !Accepts(sel, s[pos]) then Here(pos, caps)
            else
              var more := RepeatWays(Chars(sel), bc, 0, Least(hi), greedy, s, pos + 1, caps);
              if greedy then Append(more, Here(pos, caps)) else Way(pos, caps, more)
  {
    if hi != 0 {
      if pos < |s| && Accepts(sel, s[pos]) {
        CharOne(sel, bc, 0, Least(hi), greedy, s, pos, caps);
      } else {
        assert RepeatAll(None, Chars(sel), bc, 0, Least(hi), greedy, s, pos) == None;
      }
    }
  }

  /** The ways of an optional repeat are its counts, in order. */
  lemma {:induction false} CharMay(sel: Sel, bc: nat, hi: int, greedy: bool, next: Code, s: Subject, pos: nat, caps: Caps, k: Cont)
    requires pos <= |s| && hi >= -1
    ensures var all := RepeatWays(Chars(sel), bc, 0, hi, greedy, s, pos, caps);
            Inside(all, s, 0) && Pick(all, next, s, k) == Counts(next, s, pos, 0, Longest(sel, s, pos, hi), greedy, caps, k)
    decreases |s| - pos
  {
    hide Try, Counts, RepeatWays, Pick, Longest;
    var all := RepeatWays(Chars(sel), bc, 0, hi, greedy, s, pos, caps);
    CharSteps(sel, bc, hi, greedy, s, pos, caps);
    InsideLower(all, s, pos, 0);
    var n := Longest(sel, s, pos, hi);
    CountsStep(next, s, pos, 0, n, greedy, caps, k);
    PickOne(pos, caps, next, s, k);
    if hi != 0 {
      if pos < |s| && Accepts(sel, s[pos]) {
        LeastLongest(sel, s, pos, hi);
        CharMay(sel, bc, Least(hi), greedy, next, s, pos + 1, caps, k);
        CountsShift(next, s, pos, 0, n - 1, greedy, caps, k);
        var more := RepeatWays(Chars(sel), bc, 0, Least(hi), greedy, s, pos + 1, caps);
        if greedy {
          PickAppend(more, Here(pos, caps), next, s, k);
          CountsLast(next, s, pos, 0, n, caps, k);
        } else {
          PickWay(pos, caps, more, next, s, k);
        }
      }
    }
  }

  lemma LeastLongest(sel: Sel, s: Subject, pos: nat, hi: int)
    requires pos < |s| && Accepts(sel, s[pos]) && hi != 0 && hi >= -1
    ensures Longest(sel, s, pos, hi) == 1 + Longest(sel, s, pos + 1, Least(hi))
  {
    if hi < 0 {
      LongestAny(sel, s, pos + 1, -1, -2);
    }
  }

  lemma PickOne(pos: nat, caps: Caps, c: Code, s: Subject, k: Cont)
    requires pos <= |s|
    ensures Inside(Here(pos, caps), s, 0) && Pick(Here(pos, caps), c, s, k) == Try(c, s, pos, caps, k)
  {
    assert Inside(None, s, 0) && Pick(None, c, s, k) == NoMatch;
  }

  /** The most preferred way takes as many as it can. */
  lemma {:induction false} CharMost(sel: Sel, bc: nat, hi: int, s: Subject, pos: nat, caps: Caps)
    requires pos <= |s| && hi >= -1
    ensures Only(RepeatWays(Chars(sel), bc, 0, hi, true, s, pos, caps)) == Here(pos + Longest(sel, s, pos, hi), caps)
    decreases |s| - pos
  {
    hide RepeatWays;
    CharSteps(sel, bc, hi, true, s, pos, caps);
    if hi != 0 && pos < |s| && Accepts(sel, s[pos]) {
      LeastLongest(sel, s, pos, hi);
      CharMost(sel, bc, Least(hi), s, pos + 1, caps);
    }
  }

  lemma {:induction false} LongestSplit(sel: Sel, s: Subject, pos: nat, lo: nat, hi: int)
    requires pos <= |s| && (hi < 0 || lo <= hi)
    ensures if Longest(sel, s, pos, lo) < lo then Longest(sel, s, pos, hi) < lo
            else Longest(sel, s, pos, hi) == lo + Longest(sel, s, pos + lo, if hi < 0 then hi else hi - lo)
    decreases lo
  {
    if lo > 0 && pos < |s| && Accepts(sel, s[pos]) {
      LongestSplit(sel, s, pos + 1, lo - 1, hi - 1);
      if hi < 0 && Longest(sel, s, pos, lo) >= lo {
        LongestAny(sel, s, pos + lo, hi - 1, hi);
      }
    }
  }

  lemma {:induction false} CountsShiftBy(next: Code, s: Subject, pos: nat, d: nat, hi: nat, greedy: bool, caps: Caps, k: Cont)
    requires pos + d + hi <= |s|
    ensures Counts(next, s, pos + d, 0, hi, greedy, caps, k) == Counts(next, s, pos, d, d + hi, greedy, caps, k)
    decreases d
  {
    hide Counts;
    if d > 0 {
      CountsShiftBy(next, s, pos + 1, d - 1, hi, greedy, caps, k);
      CountsShift(next, s, pos, d - 1, d - 1 + hi, greedy, caps, k);
    }
  }

  /** A repeated character in one opcode. */
  lemma ManyIs(sel: Sel, rep: Rep, q: Quantifier, bc: nat, next: Code, s: Subject, pos: nat, caps: Caps, k: Cont)
    requires pos <= |s| && q.Quant? && RepMin(rep) == q.lo && RepMax(rep) == q.hi && RepMode(rep) == q.mode
    ensures var all := QuantWays(Chars(sel), q, bc, s, pos, caps);
            Inside(all, s, 0) && Pick(all, next, s, k) == Try(Cons(Many(sel, rep), next), s, pos, caps, k)
  {
    hide Try, Counts, Pick, Longest, Inside, QuantWays, RepMin, RepMax, RepMode;
    InsideLower(QuantWays(Chars(sel), q, bc, s, pos, caps), s, pos, 0);
    CharMustFirst(sel, q, bc, s, pos, caps);
    LongestSplit(sel, s, pos, q.lo, q.hi);
    TryMany(sel, rep, next, s, pos, caps, k);
    if Longest(sel, s, pos, q.lo) < q.lo {
      PickNone(next, s, k);
    } else {
      var more := Longest(sel, s, pos + q.lo, Beyond(q).hi);
      assert Longest(sel, s, pos, q.hi) == q.lo + more;
      MayPick(sel, Beyond(q), bc, next, s, pos + q.lo, caps, k);
      if q.mode != Possessive {
        CountsShiftBy(next, s, pos, q.lo, more, q.mode != Lazy, caps, k);
      }
    }
  }

  /** Behind the minimum. */
  lemma MayPick(sel: Sel, q: Quantifier, bc: nat, next: Code, s: Subject, pos: nat, caps: Caps, k: Cont)
    requires pos <= |s| && q.Quant? && q.lo == 0
    ensures var all, n := QuantWays(Chars(sel), q, bc, s, pos, caps), Longest(sel, s, pos, q.hi);
            && Inside(all, s, 0)
            && Pick(all, next, s, k) ==
               if q.mode == Possessive then Try(next, s, pos + n, caps, k) else Counts(next, s, pos, 0, n, q.mode != Lazy, caps, k)
  {
    hide Try, Counts, Pick, Longest, Inside, RepeatWays;
    var n := Longest(sel, s, pos, q.hi);
    CharMay(sel, bc, q.hi, q.mode != Lazy, next, s, pos, caps, k);
    if q.mode == Possessive {
      CharMost(sel, bc, q.hi, s, pos, caps);
      PickOne(pos + n, caps, next, s, k);
    }
  }

  lemma PickNone(c: Code, s: Subject, k: Cont)
    ensures Inside(None, s, 0) && Pick(None, c, s, k) == NoMatch
  {
  }

  lemma CatSingle(it: Bytecode.Item, c: Code)
    ensures Cat(Single(it), c) == Cons(it, c)
  {
    assert Cat(Nil, c) == c;
  }

  /** The maximum that is left after the minimum has been taken. */
  function Beyond(q: Quantifier): (r: Quantifier)
    requires q.Quant?
  {
    Quant(0, if q.hi < 0 then q.hi else q.hi - q.lo, q.mode)
  }

  lemma CharMustFirst(sel: Sel, q: Quantifier, bc: nat, s: Subject, pos: nat, caps: Caps)
    requires pos <= |s| && q.Quant?
    ensures QuantWays(Chars(sel), q, bc, s, pos, caps) ==
            if Longest(sel, s, pos, q.lo) < q.lo then None else QuantWays(Chars(sel), Beyond(q), bc, s, pos + q.lo, caps)
  {
    hide RepeatWays;
    CharMust(sel, bc, q.lo, q.hi, q.mode != Lazy, s, pos, caps);
  }

  /** An exact count before more of the same character. */
  lemma ExactIs(sel: Sel, q: Quantifier, c: Code, bc: nat, next: Code, s: Subject, pos: nat, caps: Caps, k: Cont)
    requires pos <= |s| && q.Quant? && q.lo >= 1
    requires pos + q.lo <= |s| ==>
               var all := QuantWays(Chars(sel), Beyond(q), bc, s, pos + q.lo, caps);
               Inside(all, s, 0) && Pick(all, next, s, k) == Try(c, s, pos + q.lo, caps, k)
    ensures var all := QuantWays(Chars(sel), q, bc, s, pos, caps);
            && Inside(all, s, 0)
            && Pick(all, next, s, k) == Try(Cons(Many(sel, Exact(q.lo)), c), s, pos, caps, k)
            && (q.lo == 1 ==> Pick(all, next, s, k) == Try(Cons(One(sel), c), s, pos, caps, k))
  {
    hide Counts, QuantWays;
    CharMustFirst(sel, q, bc, s, pos, caps);
    TryMany(sel, Exact(q.lo), c, s, pos, caps, k);
    PickNone(next, s, k);
    if Longest(sel, s, pos, q.lo) >= q.lo {
      CountsStep(c, s, pos, q.lo, q.lo, true, caps, k);
    }
  }

  /** What an atomic group keeps. */
  lemma AtomicIs(c: Code, all: Ways, next: Code, s: Subject, pos: nat, caps: Caps, k: Cont)
    requires pos <= |s| && Inside(all, s, 0) && Pick(all, Nil, s, Done) == Try(c, s, pos, caps, Done)
    ensures Inside(Only(all), s, 0)
    ensures Pick(Only(all), next, s, k) == Try(Cat(Atomic(c), next), s, pos, caps, k)
  {
    var it := Bytecode.Group(NoZero, Once, 0, Last(c), Ket);
    CatSingle(it, next);
    PickFirst(all, s);
    PickNone(next, s, k);
    assert Branches(Last(c), s, pos, caps, Done) == Try(c, s, pos, caps, Done);
    if all.Way? {
      PickOne(all.pos, all.caps, next, s, k);
      assert Exit(s, all.pos, all.caps, Ret(it, next, pos, k)) == Try(next, s, all.pos, all.caps, k);
    }
  }

  /** A single-character item with its quantifier. */
  lemma CharsAre(sel: Sel, q: Quantifier, bc: nat, next: Code, s: Subject, pos: nat, caps: Caps, k: Cont)
    requires pos <= |s|
    ensures var all := QuantWays(Chars(sel), q, bc, s, pos, caps);
            Inside(all, s, 0) && Pick(all, next, s, k) == Try(Cat(AtomCode(Chars(sel), q, bc), next), s, pos, caps, k)
  {
    hide Counts;
    if q == NoQuant {
      CatSingle(One(sel), next);
      PickNone(next, s, k);
      if pos < |s| {
        PickOne(pos + 1, caps, next, s, k);
      }
    } else if q.hi == 0 {
      PickOne(pos, caps, next, s, k);
    } else if sel.Set? {
      CatSingle(ClassCode(sel, q).item, next);
      ManyIs(sel, ClassCode(sel, q).item.rep, q, bc, next, s, pos, caps, k);
    } else {
      PlainCharsAre(sel, q, bc, next, s, pos, caps, k);
    }
  }

  lemma PlainCharsAre(sel: Sel, q: Quantifier, bc: nat, next: Code, s: Subject, pos: nat, caps: Caps, k: Cont)
    requires pos <= |s| && !sel.Set? && q.Quant? && q.hi != 0
    ensures var all := QuantWays(Chars(sel), q, bc, s, pos, caps);
            Inside(all, s, 0) && Pick(all, next, s, k) == Try(Cat(CharCode(sel, q), next), s, pos, caps, k)
  {
    hide Counts, Try, QuantWays, Pick;
    if q.lo == 0 || (q.lo == 1 && q.hi == -1) {
      var rep := CharCode(sel, q).item.rep;
      CatSingle(Many(sel, rep), next);
      ManyIs(sel, rep, q, bc, next, s, pos, caps, k);
    } else {
      var last := q.hi == q.lo;
      if q.lo == 1 && !last && q.mode == Possessive && sel.Type? {
        WrappedChars(sel, q, bc, next, s, pos, caps, k);
      } else {
        var rep := if last then Query(Greedy) else if q.lo == 1 then Upto(q.mode, q.hi - 1) else OptionalRep(q.mode, Beyond(q).hi);
        var c := if last then next else Cons(Many(sel, rep), next);
        if pos + q.lo <= |s| {
          if last {
            NoMore(sel, q, bc, next, s, pos + q.lo, caps, k);
          } else {
            ManyIs(sel, rep, Beyond(q), bc, next, s, pos + q.lo, caps, k);
          }
        }
        ExactIs(sel, q, c, bc, next, s, pos, caps, k);
        if !last {
          CatSingle(Many(sel, rep), next);
        }
      }
    }
  }

  lemma NoMore(sel: Sel, q: Quantifier, bc: nat, next: Code, s: Subject, pos: nat, caps: Caps, k: Cont)
    requires pos <= |s| && q.Quant? && q.hi == q.lo
    ensures var all := QuantWays(Chars(sel), Beyond(q), bc, s, pos, caps);
            Inside(all, s, 0) && Pick(all, next, s, k) == Try(next, s, pos, caps, k)
  {
    PickOne(pos, caps, next, s, k);
  }

  /** A character type has no possessive pair; the greedy one is wrapped. */
  lemma WrappedChars(sel: Sel, q: Quantifier, bc: nat, next: Code, s: Subject, pos: nat, caps: Caps, k: Cont)
    requires pos <= |s| && sel.Type? && q.Quant? && q.lo == 1 && q.hi > 1 && q.mode == Possessive
    ensures var all := QuantWays(Chars(sel), q, bc, s, pos, caps);
            Inside(all, s, 0) && Pick(all, next, s, k) == Try(Cat(CharCode(sel, q), next), s, pos, caps, k)
  {
    hide Counts, Try, RepeatWays;
    var greedy := Quant(q.lo, q.hi, Greedy);
    var rep := Upto(Greedy, q.hi - 1);
    if pos + 1 <= |s| {
      ManyIs(sel, rep, Beyond(greedy), bc, Nil, s, pos + 1, caps, Done);
    }
    var c := Single(Many(sel, rep));
    ExactIs(sel, greedy, c, bc, Nil, s, pos, caps, Done);
    AtomicIs(Cons(One(sel), c), QuantWays(Chars(sel), greedy, bc, s, pos, caps), next, s, pos, caps, k);
  }

  // ----- leaving a group -----

  /** The ways through a plain group, left by its closing bracket. */
  lemma {:induction false} LeaveIs(it: Bytecode.Item, next: Code, all: Ways, start: nat, s: Subject, k: Cont)
    requires it.Group? && it.ket == Ket && it.bra.Paren? && Inside(all, s, 0)
    ensures Inside(Closed(all, it.bra.cap, it.num, start), s, 0)
    ensures Pick(Closed(all, it.bra.cap, it.num, start), next, s, k) == Pick(all, Nil, s, Ret(it, next, start, k))
    decreases all
  {
    InsideClosed(all, it.bra.cap, it.num, start, s, 0);
    if all.Way? {
      assert Try(Nil, s, all.pos, all.caps, Ret(it, next, start, k)) ==
             Try(next, s, all.pos, Close(it, start, all.pos, all.caps), k);
      if it.bra.cap {
        LeaveIs(it, next, all.more, start, s, k);
      } else {
        LeaveIs(it, next, all.more, start, s, k);
      }
    }
  }

  /** The group of an atom, compiled. */
  function GroupOf(a: Atom, bc: nat): Piece
    requires a.Parens?
  {
    PieceOf(a.cap, a.alts, bc)
  }

  // ----- one pass -----

  /** A plain copy of a group. */
  lemma {:induction false} OnceIs(a: Atom, bc: nat, zero: Zero, next: Code, s: Subject, pos: nat, caps: Caps, k: Cont)
    requires a.Parens? && pos <= |s|
    ensures var all, it := AtomWays(a, bc, s, pos, caps), PlainGroup(GroupOf(a, bc), zero);
            Inside(all, s, 0) && Pick(all, next, s, k) == Pass(it, next, s, pos, caps, k)
    decreases a, 1
  {
    hide Try, Pick, Branches;
    var it, bc' := PlainGroup(GroupOf(a, bc), zero), if a.cap then bc + 1 else bc;
    var inner := PatternWays(a.alts, bc', s, pos, caps);
    InsideLower(inner, s, pos, 0);
    LeaveIs(it, next, inner, pos, s, k);
    PatternIs(a.alts, bc', s, pos, caps, Ret(it, next, pos, k));
  }

  /** All the ways of a pattern are tried by its code, in order. */
  lemma {:induction false} PatternIs(p: Pattern, bc: nat, s: Subject, pos: nat, caps: Caps, k: Cont)
    requires pos <= |s|
    ensures var all := PatternWays(p, bc, s, pos, caps);
            Inside(all, s, 0) && Pick(all, Nil, s, k) == Branches(PatternCode(p, bc), s, pos, caps, k)
    decreases p, 0
  {
    hide Try, Pick;
    BranchIs(p.b, bc, s, pos, caps, k);
    if p.OrElse? {
      PatternIs(p.others, bc + BranchCaptures(p.b), s, pos, caps, k);
      PickAppend(BranchWays(p.b, bc, s, pos, caps), PatternWays(p.others, bc + BranchCaptures(p.b), s, pos, caps), Nil, s, k);
    }
  }

  lemma {:induction false} BranchIs(b: Branch, bc: nat, s: Subject, pos: nat, caps: Caps, k: Cont)
    requires pos <= |s|
    ensures var all := BranchWays(b, bc, s, pos, caps);
            Inside(all, s, 0) && Pick(all, Nil, s, k) == Try(BranchCode(b, bc), s, pos, caps, k)
    decreases b, 0, 0
  {
    hide Pick;
    match b
    case Empty => PickOne(pos, caps, Nil, s, k);
    case Item(atom, q, rest) =>
      hide Try;
      var all, bc', c := QuantWays(atom, q, bc, s, pos, caps), bc + AtomCaptures(atom), BranchCode(rest, bc + AtomCaptures(atom));
      QuantIs(atom, q, bc, c, s, pos, caps, k);
      AllBranch(all, rest, bc', s, pos, k);
      InsideLower(BranchAll(all, rest, bc', s, pos), s, pos, 0);
    case AnchorItem(a, rest) =>
      PickNone(Nil, s, k);
      if Holds(a, s, pos) {
        BranchIs(rest, bc, s, pos, caps, k);
      }
  }

  lemma {:induction false} AllBranch(all: Ways, rest: Branch, bc: nat, s: Subject, lo: nat, k: Cont)
    requires Inside(all, s, lo)
    ensures var r := BranchAll(all, rest, bc, s, lo);
            Inside(r, s, 0) && Inside(all, s, 0) && Pick(r, Nil, s, k) == Pick(all, BranchCode(rest, bc), s, k)
    decreases rest, 1, all
  {
    hide Try;
    InsideLower(all, s, lo, 0);
    if all.Way? {
      BranchIs(rest, bc, s, all.pos, all.caps, k);
      AllBranch(all.more, rest, bc, s, lo, k);
      PickAppend(BranchWays(rest, bc, s, all.pos, all.caps), BranchAll(all.more, rest, bc, s, lo), Nil, s, k);
    }
  }

  lemma {:induction false} QuantIs(a: Atom, q: Quantifier, bc: nat, next: Code, s: Subject, pos: nat, caps: Caps, k: Cont)
    requires pos <= |s|
    ensures var all := QuantWays(a, q, bc, s, pos, caps);
            Inside(all, s, 0) && Pick(all, next, s, k) == Try(Cat(AtomCode(a, q, bc), next), s, pos, caps, k)
    decreases a, 9
  {
    if a.Chars? {
      CharsAre(a.sel, q, bc, next, s, pos, caps, k);
    } else {
      QuantGroup(a, q, bc, next, s, pos, caps, k);
    }
  }

  // ----- repeated groups -----

  /** A group at least lo times: the copies, and what stands for the rest. */
  function RestCode(g: Piece, lo: nat, hi: int, mode: Mode): Code
    requires if hi < 0 then lo >= 1 else lo <= hi
  {
    if hi < 0 then Copies(g, lo - 1, Single(LoopGroup(g, NoZero, mode)))
    else Copies(g, lo, Optional(g, ZeroFor(mode), hi - lo))
  }

  lemma {:induction false} RestIs(a: Atom, bc: nat, lo: nat, hi: int, mode: Mode, next: Code, s: Subject, pos: nat, caps: Caps, k: Cont)
    requires a.Parens? && pos <= |s| && (if hi < 0 then hi == -1 && lo >= 1 && mode != Possessive else lo <= hi)
    ensures var all := RepeatWays(a, bc, lo, hi, mode != Lazy, s, pos, caps);
            Inside(all, s, 0) && Pick(all, next, s, k) == Try(Cat(RestCode(GroupOf(a, bc), lo, hi, mode), next), s, pos, caps, k)
    decreases a, 3, lo + (if hi < 0 then 0 else hi), 1, None
  {
    hide Pick, Branches, Exit;
    var g, ways := GroupOf(a, bc), AtomWays(a, bc, s, pos, caps);
    InsideLower(RepeatWays(a, bc, lo, hi, mode != Lazy, s, pos, caps), s, pos, 0);
    if hi < 0 && lo == 1 {
      var it := LoopGroup(g, NoZero, mode);
      CatSingle(it, next);
      LoopIs(a, bc, NoZero, mode, next, s, pos, caps, k);
    } else if lo > 0 {
      var c := Cat(RestCode(g, lo - 1, Least(hi), mode), next);
      assert Cat(RestCode(g, lo, hi, mode), next) == Cons(PlainGroup(g, NoZero), c);
      OnceIs(a, bc, NoZero, c, s, pos, caps, k);
      NextAll(ways, a, bc, lo - 1, Least(hi), mode, next, s, pos, k);
    } else {
      OptionalIs(a, bc, hi, mode, next, s, pos, caps, k);
    }
  }

  lemma {:induction false} NextAll(all: Ways, a: Atom, bc: nat, lo: nat, hi: int, mode: Mode, next: Code, s: Subject, start: nat, k: Cont)
    requires a.Parens? && Inside(all, s, start) && start <= |s| && (if hi < 0 then hi == -1 && lo >= 1 && mode != Possessive else lo <= hi)
    ensures var r, c := RepeatAll(all, a, bc, lo, hi, mode != Lazy, s, start), Cat(RestCode(GroupOf(a, bc), lo, hi, mode), next);
            Inside(r, s, 0) && Inside(all, s, 0) && Pick(r, next, s, k) == Pick(all, c, s, k)
    decreases a, 3, lo + (if hi < 0 then 0 else hi), 2, all
  {
    hide Try;
    InsideLower(all, s, start, 0);
    if all.Way? {
      RestIs(a, bc, lo, hi, mode, next, s, all.pos, all.caps, k);
      NextAll(all.more, a, bc, lo, hi, mode, next, s, start, k);
      PickAppend(RepeatWays(a, bc, lo, hi, mode != Lazy, s, all.pos, all.caps),
                 RepeatAll(all.more, a, bc, lo, hi, mode != Lazy, s, start), next, s, k);
    }
  }

  /** A pass or none, in the order of the opcode in front of the group. */
  lemma MayIs(it: Bytecode.Item, more: Ways, greedy: bool, next: Code, s: Subject, pos: nat, caps: Caps, k: Cont)
    requires it.Group? && it.zero == (if greedy then BraZero else BraMinZero) && pos <= |s|
    requires Inside(more, s, 0) && Pick(more, next, s, k) == Pass(it, next, s, pos, caps, k)
    ensures var all := if greedy then Append(more, Here(pos, caps)) else Way(pos, caps, more);
            Inside(all, s, 0) && Pick(all, next, s, k) == Try(Cons(it, next), s, pos, caps, k)
  {
    PickOne(pos, caps, next, s, k);
    PickAppend(more, Here(pos, caps), next, s, k);
  }

  /** Up to n copies, nested. */
  lemma {:induction false} OptionalIs(a: Atom, bc: nat, n: nat, mode: Mode, next: Code, s: Subject, pos: nat, caps: Caps, k: Cont)
    requires a.Parens? && pos <= |s|
    ensures var all := RepeatWays(a, bc, 0, n, mode != Lazy, s, pos, caps);
            && Inside(all, s, 0)
            && Pick(all, next, s, k) == Try(Cat(Optional(GroupOf(a, bc), ZeroFor(mode), n), next), s, pos, caps, k)
    decreases a, 3, n, 0, None
  {
    hide Pick, Try, Exit;
    var g, zero, ways := GroupOf(a, bc), ZeroFor(mode), AtomWays(a, bc, s, pos, caps);
    if n == 0 {
      PickOne(pos, caps, next, s, k);
    } else {
      var more := RepeatAll(ways, a, bc, 0, n - 1, mode != Lazy, s, pos);
      InsideLower(more, s, pos, 0);
      var it := Optional(g, zero, n).item;
      CatSingle(it, next);
      if n == 1 {
        OnceIs(a, bc, zero, next, s, pos, caps, k);
        NextAll(ways, a, bc, 0, 0, mode, next, s, pos, k);
      } else {
        NestedIs(a, bc, n, mode, next, s, pos, caps, k);
      }
      MayIs(it, more, mode != Lazy, next, s, pos, caps, k);
    }
  }

  /** A copy with the others inside the same bracket. */
  lemma {:induction false} NestedIs(a: Atom, bc: nat, n: nat, mode: Mode, next: Code, s: Subject, pos: nat, caps: Caps, k: Cont)
    requires a.Parens? && pos <= |s| && n > 1
    ensures var more := RepeatAll(AtomWays(a, bc, s, pos, caps), a, bc, 0, n - 1, mode != Lazy, s, pos);
            && Inside(more, s, 0)
            && Pick(more, next, s, k) == Pass(Optional(GroupOf(a, bc), ZeroFor(mode), n).item, next, s, pos, caps, k)
    decreases a, 3, n - 1, 3, None
  {
    hide Pick, Exit;
    var g, zero, ways := GroupOf(a, bc), ZeroFor(mode), AtomWays(a, bc, s, pos, caps);
    var more := RepeatAll(ways, a, bc, 0, n - 1, mode != Lazy, s, pos);
    InsideLower(more, s, pos, 0);
    var it, c := Optional(g, zero, n).item, Optional(g, zero, n - 1);
    var inner, back := Cons(PlainGroup(g, NoZero), c), Ret(it, next, pos, k);
    OnceIs(a, bc, NoZero, c, s, pos, caps, back);
    CatNil(c);
    assert RestCode(g, 0, n - 1, mode) == c;
    NextAll(ways, a, bc, 0, n - 1, mode, Nil, s, pos, back);
    LeaveIs(it, next, more, pos, s, k);
    assert Branches(Last(inner), s, pos, caps, back) == Try(inner, s, pos, caps, back);
  }

  // ----- loops -----

  /** The first pass through a loop and what may follow it. */
  lemma {:induction false} LoopIs(a: Atom, bc: nat, zero: Zero, mode: Mode, next: Code, s: Subject, pos: nat, caps: Caps, k: Cont)
    requires a.Parens? && pos <= |s| && mode != Possessive
    ensures var more := RepeatAll(AtomWays(a, bc, s, pos, caps), a, bc, 0, -1, mode != Lazy, s, pos);
            && Inside(more, s, 0)
            && Pick(more, next, s, k) == Pass(LoopGroup(GroupOf(a, bc), zero, mode), next, s, pos, caps, k)
    decreases a, 2, |s| - pos, 2, None
  {
    hide Pick, Branches;
    var it, bc' := LoopGroup(GroupOf(a, bc), zero, mode), if a.cap then bc + 1 else bc;
    var inner := PatternWays(a.alts, bc', s, pos, caps);
    InsideLower(inner, s, pos, 0);
    PatternIs(a.alts, bc', s, pos, caps, Ret(it, next, pos, k));
    LoopAll(inner, a, bc, zero, mode, next, s, pos, k);
  }

  lemma {:induction false} LoopAll(all: Ways, a: Atom, bc: nat, zero: Zero, mode: Mode, next: Code, s: Subject, start: nat, k: Cont)
    requires a.Parens? && Inside(all, s, start) && start <= |s| && mode != Possessive
    ensures Inside(Closed(all, a.cap, Number(bc), start), s, start) && Inside(all, s, 0)
    ensures var r := RepeatAll(Closed(all, a.cap, Number(bc), start), a, bc, 0, -1, mode != Lazy, s, start);
            && Inside(r, s, 0)
            && Pick(r, next, s, k) == Pick(all, Nil, s, Ret(LoopGroup(GroupOf(a, bc), zero, mode), next, start, k))
    decreases a, 2, |s| - start, 1, all
  {
    var it, closed := LoopGroup(GroupOf(a, bc), zero, mode), Closed(all, a.cap, Number(bc), start);
    InsideClosed(all, a.cap, Number(bc), start, s, start);
    InsideLower(all, s, start, 0);
    if all.Way? {
      LoopExit(a, bc, zero, mode, next, s, all.pos, all.caps, start, k);
      LoopAll(all.more, a, bc, zero, mode, next, s, start, k);
      var on := Onward(a, bc, mode, s, all.pos, Close(it, start, all.pos, all.caps), start);
      PickAppend(on, RepeatAll(Closed(all.more, a.cap, Number(bc), start), a, bc, 0, -1, mode != Lazy, s, start), next, s, k);
    }
  }

  /** After a pass of a loop from start to pos. */
  function Onward(a: Atom, bc: nat, mode: Mode, s: Subject, pos: nat, caps: Caps, start: nat): (r: Ways)
    requires pos <= |s|
    ensures r.Way?
  {
    if pos <= start then Here(pos, caps) else RepeatWays(a, bc, 0, -1, mode != Lazy, s, pos, caps)
  }

  lemma {:induction false} LoopExit(a: Atom, bc: nat, zero: Zero, mode: Mode, next: Code, s: Subject, pos: nat, caps: Caps, start: nat, k: Cont)
    requires a.Parens? && start <= pos <= |s| && mode != Possessive
    ensures var it := LoopGroup(GroupOf(a, bc), zero, mode);
            var on := Onward(a, bc, mode, s, pos, Close(it, start, pos, caps), start);
            Inside(on, s, 0) && Pick(on, next, s, k) == Exit(s, pos, caps, Ret(it, next, start, k))
    decreases a, 2, |s| - start, 0, None
  {
    hide Pick, Try, Branches;
    var it := LoopGroup(GroupOf(a, bc), zero, mode);
    var caps' := Close(it, start, pos, caps);
    PickOne(pos, caps', next, s, k);
    if pos > start {
      LoopIs(a, bc, zero, mode, next, s, pos, caps', k);
      var more := RepeatAll(AtomWays(a, bc, s, pos, caps'), a, bc, 0, -1, mode != Lazy, s, pos);
      PickAppend(more, Here(pos, caps'), next, s, k);
      PickWay(pos, caps', more, next, s, k);
    }
  }

  lemma PickWay(pos: nat, caps: Caps, more: Ways, c: Code, s: Subject, k: Cont)
    requires pos <= |s| && Inside(more, s, 0)
    ensures Inside(Way(pos, caps, more), s, 0)
    ensures Pick(Way(pos, caps, more), c, s, k) == First(Try(c, s, pos, caps, k), Pick(more, c, s, k))
  {
  }

  // ----- loops that keep what they have -----

  /** A possessive loop takes the most preferred way of the greedy one. */
  lemma {:induction false} KeepIs(a: Atom, bc: nat, zero: Zero, next: Code, s: Subject, pos: nat, caps: Caps, k: Cont)
    requires a.Parens? && pos <= |s|
    ensures var more, it := RepeatAll(AtomWays(a, bc, s, pos, caps), a, bc, 0, -1, true, s, pos), LoopGroup(GroupOf(a, bc), zero, Possessive);
            && Inside(Only(more), s, 0)
            && Pick(Only(more), next, s, k) == Pass(it, next, s, pos, caps, k)
            && (more.Way? <==> Branches(it.body, s, pos, caps, Done).Match?)
    decreases a, 2, |s| - pos, 2
  {
    hide Pick, Branches, Exit;
    var it, bc' := LoopGroup(GroupOf(a, bc), zero, Possessive), if a.cap then bc + 1 else bc;
    var inner := PatternWays(a.alts, bc', s, pos, caps);
    InsideLower(inner, s, pos, 0);
    PatternIs(a.alts, bc', s, pos, caps, Done);
    PickFirst(inner, s);
    PickNone(next, s, k);
    if inner.Way? {
      KeepExit(a, bc, zero, next, s, inner.pos, inner.caps, pos, k);
    }
  }

  lemma {:induction false} KeepExit(a: Atom, bc: nat, zero: Zero, next: Code, s: Subject, pos: nat, caps: Caps, start: nat, k: Cont)
    requires a.Parens? && start <= pos <= |s|
    ensures var it := LoopGroup(GroupOf(a, bc), zero, Possessive);
            var on := Only(Onward(a, bc, Possessive, s, pos, Close(it, start, pos, caps), start));
            Inside(on, s, 0) && Pick(on, next, s, k) == Exit(s, pos, caps, Ret(it, next, start, k))
    decreases a, 2, |s| - start, 0
  {
    hide Pick, Try, Branches;
    var it := LoopGroup(GroupOf(a, bc), zero, Possessive);
    var caps' := Close(it, start, pos, caps);
    PickOne(pos, caps', next, s, k);
    if pos > start {
      KeepIs(a, bc, zero, next, s, pos, caps', k);
    }
  }

  /** Copies in front of a possessive loop, on their own. */
  lemma {:induction false} KeepCopies(a: Atom, bc: nat, n: nat, s: Subject, pos: nat, caps: Caps)
    requires a.Parens? && pos <= |s|
    ensures var all, g := RepeatWays(a, bc, n + 1, -1, true, s, pos, caps), GroupOf(a, bc);
            && Inside(all, s, 0)
            && Pick(all, Nil, s, Done) == Try(Copies(g, n, Single(LoopGroup(g, NoZero, Possessive))), s, pos, caps, Done)
    decreases a, 3, n, 0, None
  {
    hide Pick, Branches, Exit;
    var g, all := GroupOf(a, bc), RepeatWays(a, bc, n + 1, -1, true, s, pos, caps);
    InsideLower(all, s, pos, 0);
    if n == 0 {
      KeepIs(a, bc, NoZero, Nil, s, pos, caps, Done);
      PickFirst(all, s);
      PickFirst(Only(all), s);
    } else {
      OnceIs(a, bc, NoZero, Copies(g, n - 1, Single(LoopGroup(g, NoZero, Possessive))), s, pos, caps, Done);
      KeepAll(AtomWays(a, bc, s, pos, caps), a, bc, n - 1, s, pos);
    }
  }

  lemma {:induction false} KeepAll(all: Ways, a: Atom, bc: nat, n: nat, s: Subject, start: nat)
    requires a.Parens? && Inside(all, s, start) && start <= |s|
    ensures var r, g := RepeatAll(all, a, bc, n + 1, -1, true, s, start), GroupOf(a, bc);
            && Inside(r, s, 0) && Inside(all, s, 0)
            && Pick(r, Nil, s, Done) == Pick(all, Copies(g, n, Single(LoopGroup(g, NoZero, Possessive))), s, Done)
    decreases a, 3, n, 1, all
  {
    hide Try;
    InsideLower(all, s, start, 0);
    if all.Way? {
      KeepCopies(a, bc, n, s, all.pos, all.caps);
      KeepAll(all.more, a, bc, n, s, start);
      PickAppend(RepeatWays(a, bc, n + 1, -1, true, s, all.pos, all.caps), RepeatAll(all.more, a, bc, n + 1, -1, true, s, start), Nil, s, Done);
    }
  }

  // ----- a group with its quantifier -----

  lemma {:induction false} QuantGroup(a: Atom, q: Quantifier, bc: nat, next: Code, s: Subject, pos: nat, caps: Caps, k: Cont)
    requires pos <= |s| && a.Parens?
    ensures var all := QuantWays(a, q, bc, s, pos, caps);
            Inside(all, s, 0) && Pick(all, next, s, k) == Try(Cat(AtomCode(a, q, bc), next), s, pos, caps, k)
    decreases a, 8
  {
    hide Pick, Branches, Exit;
    var g, all := GroupOf(a, bc), QuantWays(a, q, bc, s, pos, caps);
    InsideLower(all, s, pos, 0);
    if q == NoQuant {
      CatSingle(PlainGroup(g, NoZero), next);
      OnceIs(a, bc, NoZero, next, s, pos, caps, k);
    } else if q.hi == 0 {
      CatSingle(PlainGroup(g, SkipZero), next);
      PickOne(pos, caps, next, s, k);
    } else if q.mode == Possessive {
      KeptGroup(a, q, bc, next, s, pos, caps, k);
    } else if q.lo == 0 && q.hi == -1 {
      var it := LoopGroup(g, ZeroFor(q.mode), q.mode);
      CatSingle(it, next);
      LoopIs(a, bc, it.zero, q.mode, next, s, pos, caps, k);
      MayIs(it, RepeatAll(AtomWays(a, bc, s, pos, caps), a, bc, 0, -1, q.mode != Lazy, s, pos), q.mode != Lazy, next, s, pos, caps, k);
    } else {
      RestIs(a, bc, q.lo, q.hi, q.mode, next, s, pos, caps, k);
    }
  }

  lemma {:induction false} KeptGroup(a: Atom, q: Quantifier, bc: nat, next: Code, s: Subject, pos: nat, caps: Caps, k: Cont)
    requires pos <= |s| && a.Parens? && q.Quant? && q.mode == Possessive && q.hi != 0
    ensures var all := QuantWays(a, q, bc, s, pos, caps);
            Inside(all, s, 0) && Pick(all, next, s, k) == Try(Cat(AtomCode(a, q, bc), next), s, pos, caps, k)
    decreases a, 7
  {
    hide Pick, Branches, Exit;
    var g, ways := GroupOf(a, bc), RepeatWays(a, bc, q.lo, q.hi, true, s, pos, caps);
    InsideLower(ways, s, pos, 0);
    if q.hi == -1 && q.lo < 2 {
      var it := LoopGroup(g, if q.lo == 0 then BraPosZero else NoZero, Possessive);
      CatSingle(it, next);
      KeepIs(a, bc, it.zero, next, s, pos, caps, k);
      PickOne(pos, caps, next, s, k);
    } else {
      var c := RepeatedGroup(g, q.lo, q.hi, q.mode);
      if q.hi == -1 {
        KeepCopies(a, bc, q.lo - 1, s, pos, caps);
      } else {
        RestIs(a, bc, q.lo, q.hi, q.mode, Nil, s, pos, caps, Done);
        CatNil(c);
      }
      AtomicIs(c, ways, next, s, pos, caps, k);
    }
  }

  // ----- whole patterns -----

  /** What a pattern matches first at a position, with its captures. */
  function PatternFirst(p: Pattern, s: Subject, pos: nat): Outcome
    requires pos <= |s|
  {
    var all := PatternWays(p, 0, s, pos, map[]);
    if all == None then NoMatch else Match(all.pos, all.caps)
  }

  /** The compiled code finds just that, for every pattern. */
  lemma CodePrefers(p: Pattern, s: Subject, pos: nat)
    requires pos <= |s|
    ensures FirstMatch(PatternCode(p, 0), s, pos) == PatternFirst(p, s, pos)
  {
    var alts, all := PatternCode(p, 0), PatternWays(p, 0, s, pos, map[]);
    var back := Ret(Machine.Top(alts), Nil, pos, Done);
    PatternIs(p, 0, s, pos, map[], back);
    LeaveIs(back.it, Nil, all, pos, s, Done);
    assert Closed(all, false, 0, pos) == all;
    PickFirst(all, s);
    assert FirstMatch(alts, s, pos) == Pass(back.it, Nil, s, pos, map[], Done);
  }
}
