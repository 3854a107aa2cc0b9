/** Two families of patterns that the compiler's tests misjudge, so that a match is missed. */
module Misjudged {
  import opened Opcodes
  import opened Bytecode
  import opened Matching
  import opened Machine
  import opened Pattern
  import opened Translation
  import opened Ordered
  import opened CharSets
  import opened AutoPossess
  import opened OrderedSpan
  import opened Anchoring
  import opened AnchoredFirst
  import opened Preferred
  import opened Preference
  import opened Exec
  import opened Emptiness

  // ----- a repeat in front of an atomic group that it need not leave anything for -----

  /** One or more of a, an atomic group, and b. */
  function Probe(a: Sel, body: Alts, b: Sel): Alts { Last(Cons(Many(a, Plus(Greedy)), After(body, b))) }

  function After(body: Alts, b: Sel): Code { Cons(Group(NoZero, Once, 0, body, Ket), Single(One(b))) }

  function Outer(a: Sel, body: Alts, b: Sel): Ctx { In(Top(Probe(a, body, b)), Nil, AtEnd) }

  function Within(a: Sel, body: Alts, b: Sel): Ctx { In(After(body, b).item, Single(One(b)), Outer(a, body, b)) }

  /** The test of what follows the repeat succeeds. */
  predicate Passes(a: Sel, body: Alts, b: Sel)
  {
    Compare(After(body, b), Outer(a, body, b), Base(a, true), false)
  }

  lemma ProbeThrough(a: Sel, body: Alts, b: Sel)
    requires FreeBranches(body) && Passes(a, body, b)
    ensures ThroughBranches(body, Within(a, body, b), a) && !Opens(After(body, b), Outer(a, body, b))
    ensures Through(After(body, b), Outer(a, body, b), a) <==> (SomeOpens(body, Within(a, body, b)) ==> Disjoint(a, b))
  {
    FreeThroughBranches(body, Within(a, body, b), Base(a, true));
  }

  /** When the group can be skipped and b accepts an a, two of a are matched by giving one
      back, which the optimised code cannot. */
  lemma ProbeLoses(a: Sel, body: Alts, b: Sel, x: byte)
    requires FreeBranches(body) && Passes(a, body, b) && SomeOpens(body, Within(a, body, b)) && Accepts(a, x) && Accepts(b, x)
    ensures var alts, s := Probe(a, body, b), [x, x];
            && FirstMatch(alts, s, 0).Match? && FirstMatch(alts, s, 0).end == 2
            && FirstMatch(AutoProgram(alts), s, 0) == NoMatch
  {
    hide Passes;
    var alts, s, c := Probe(a, body, b), [x, x], After(body, b);
    var back := Ret(Top(alts), Nil, 0, Done);
    BothTaken(a, x);
    TopFirst(alts.code, s, 0);
    TryMany(a, Plus(Greedy), c, s, 0, map[], back);
    CountsStep(c, s, 0, 1, 2, true, map[], back);
    CountsStep(c, s, 0, 1, 1, true, map[], back);
    AfterEnd(body, b, s, 2, map[], back);
    AfterSkips(a, body, b, s, 1, map[], back);
    var body' := AutoBranches(body, Within(a, body, b));
    var auto := Last(Cons(Many(a, Plus(Possessive)), After(body', b)));
    ProbeAuto(a, body, b);
    TopFirst(auto.code, s, 0);
    var back' := Ret(Top(auto), Nil, 0, Done);
    TryMany(a, Plus(Possessive), auto.code.next, s, 0, map[], back');
    AfterEnd(body', b, s, 2, map[], back');
  }

  lemma ProbeAuto(a: Sel, body: Alts, b: Sel)
    requires Passes(a, body, b)
    ensures AutoProgram(Probe(a, body, b)) == Last(Cons(Many(a, Plus(Possessive)), After(AutoBranches(body, Within(a, body, b)), b)))
  {
    hide Compare;
    var ctx, c := Outer(a, body, b), After(body, b);
    assert AutoRepeat(a, Plus(Greedy), c, ctx) == Plus(Possessive);
    assert AutoCode(Nil, ctx) == Nil && AutoCode(Single(One(b)), ctx) == Single(One(b));
    assert AutoCode(c, ctx) == After(AutoBranches(body, Within(a, body, b)), b);
    assert AutoCode(Probe(a, body, b).code, ctx) == Cons(Many(a, Plus(Possessive)), AutoCode(c, ctx));
  }

  /** At the end of the subject there is no b. */
  lemma AfterEnd(body: Alts, b: Sel, s: Subject, pos: nat, caps: Ordered.Captures, k: Cont)
    requires pos == |s|
    ensures Try(After(body, b), s, pos, caps, k) == NoMatch
  {
    var c := After(body, b);
    var way := Branches(body, s, pos, caps, Done);
    TryGroup(c.item, c.next, s, pos, caps, k);
    if way.Match? {
      assert Exit(s, pos, way.caps, Ret(c.item, c.next, pos, k)) == Try(c.next, s, pos, way.caps, k);
    }
  }

  /** In front of an a the group is skipped, and b accepts it. */
  lemma AfterSkips(a: Sel, body: Alts, b: Sel, s: Subject, pos: nat, caps: Ordered.Captures, k: Cont)
    requires FreeBranches(body) && Passes(a, body, b) && SomeOpens(body, Within(a, body, b))
    requires pos + 1 == |s| && Accepts(a, s[pos]) && Accepts(b, s[pos])
    requires k.Ret? && k.it == Top(Probe(a, body, b)) && k.next == Nil && k.k == Done
    ensures var r := Try(After(body, b), s, pos, caps, k); r.Match? && r.end == pos + 1
  {
    var c := After(body, b);
    ProbeThrough(a, body, b);
    ThroughSome(body, s, pos, caps, Within(a, body, b), Done, a);
    var way := Branches(body, s, pos, caps, Done);
    TryGroup(c.item, c.next, s, pos, caps, k);
    assert Exit(s, pos, way.caps, Ret(c.item, c.next, pos, k)) == Try(c.next, s, pos, way.caps, k);
    var caps' := Close(k.it, k.start, pos + 1, way.caps);
    assert Try(Nil, s, pos + 1, caps', Done) == Match(pos + 1, caps');
    assert Exit(s, pos + 1, way.caps, k) == Match(pos + 1, caps');
    assert Try(c.next, s, pos, way.caps, k) == Try(Nil, s, pos + 1, way.caps, k);
  }

  lemma BothTaken(a: Sel, x: byte)
    requires Accepts(a, x)
    ensures Longest(a, [x, x], 0, -1) == 2
  {
    assert Longest(a, [x, x], 1, -2) == 1;
  }

  lemma TopFirst(c: Code, s: Subject, pos: nat)
    requires pos <= |s|
    ensures FirstMatch(Last(c), s, pos) == Try(c, s, pos, map[], Ret(Top(Last(c)), Nil, pos, Done))
  {
    assert Pass(Top(Last(c)), Nil, s, pos, map[], Done) == Branches(Last(c), s, pos, map[], Ret(Top(Last(c)), Nil, pos, Done));
  }

  /** For a repeated item, an atomic group and a further item, when the test lets the repeat
      be possessive, and that item is either found disjoint or accepts some character of the
      repeat: auto-possessification is invisible if and only if the program is fair. */
  lemma ProbeIsExact(a: Sel, body: Alts, b: Sel, x: byte)
    requires FreeBranches(body) && Passes(a, body, b) && (Disjoint(a, b) || (Accepts(a, x) && Accepts(b, x)))
    ensures var alts := Probe(a, body, b);
            (forall s: Subject, pos: nat :: pos <= |s| ==> FirstMatch(AutoProgram(alts), s, pos) == FirstMatch(alts, s, pos))
            <==> FairProgram(alts)
  {
    hide Passes, FirstMatch, AutoProgram, FairProgram;
    var alts := Probe(a, body, b);
    ProbeFair(a, body, b);
    if FairProgram(alts) {
      forall s: Subject, pos: nat | pos <= |s| ensures FirstMatch(AutoProgram(alts), s, pos) == FirstMatch(alts, s, pos) {
        AutoPossessionIsInvisible(alts, s, pos);
      }
    } else {
      ProbeLoses(a, body, b, x);
    }
  }

  lemma ProbeFair(a: Sel, body: Alts, b: Sel)
    requires FreeBranches(body) && Passes(a, body, b)
    ensures FairProgram(Probe(a, body, b)) <==> (SomeOpens(body, Within(a, body, b)) ==> Disjoint(a, b))
  {
    hide Compare, Through, Opens;
    var c, ctx := After(body, b), Outer(a, body, b);
    ProbeThrough(a, body, b);
    FreeFairBranches(body, Within(a, body, b));
    assert AutoRepeat(a, Plus(Greedy), c, ctx) != Plus(Greedy);
    assert Fair(Nil, ctx) && Fair(c.next, ctx);
    assert In(Bare(c.item), c.next, ctx) == Within(a, body, b);
    assert FairItem(c.item, c.next, ctx);
    assert Fair(c, ctx);
    assert Fair(Probe(a, body, b).code, ctx) <==> Through(c, ctx, a);
  }

  // ----- a pattern with such code -----

  function Optionally(b: Sel): Atom { Parens(false, LastBranch(Branch.Item(Chars(b), NoQuant, Empty))) }

  /** One or more of a, then possessively an optional b, then a once more. */
  function Skipped(a: Sel, b: Sel): Pattern
  {
    LastBranch(Branch.Item(Chars(a), Quant(1, -1, Greedy),
      Branch.Item(Optionally(b), Quant(0, 1, Possessive), Branch.Item(Chars(a), NoQuant, Empty))))
  }

  function Inner(b: Sel): Code
  {
    Single(Group(BraZero, Paren(false, false, false), 0, Last(Single(One(b))), Ket))
  }

  lemma OneBranch(sel: Sel, bc: nat)
    ensures BranchCode(Branch.Item(Chars(sel), NoQuant, Empty), bc) == Single(One(sel))
    ensures BranchCaptures(Branch.Item(Chars(sel), NoQuant, Empty)) == 0
  {
    assert BranchCaptures(Empty) == 0;
    assert BranchCode(Empty, bc) == Nil;
    CatSingle(One(sel), Nil);
  }

  lemma SkippedCode(a: Sel, b: Sel)
    ensures PatternCode(Skipped(a, b), 0) == Probe(a, Last(Inner(b)), a)
  {
    OneBranch(a, 0);
    OneBranch(b, 0);
    var last := Branch.Item(Chars(a), NoQuant, Empty);
    assert PatternCode(Optionally(b).alts, 0) == Last(Single(One(b)));
    assert AtomCode(Optionally(b), Quant(0, 1, Possessive), 0) == Atomic(Inner(b));
    CatSingle(Group(NoZero, Once, 0, Last(Inner(b)), Ket), Single(One(a)));
    CatSingle(Many(a, Plus(Greedy)), After(Last(Inner(b)), a));
    assert AtomCaptures(Optionally(b)) == 0;
    assert BranchCode(Branch.Item(Optionally(b), Quant(0, 1, Possessive), last), 0) == After(Last(Inner(b)), a);
    assert AtomCode(Chars(a), Quant(1, -1, Greedy), 0) == Single(Many(a, Plus(Greedy)));
  }

  /** The test of the code behind the repeat succeeds: it asks about the end of the atomic
      group without remembering that it has entered it. */
  lemma SkippedPasses(a: Sel, b: Sel)
    requires Disjoint(a, b)
    ensures Passes(a, Last(Inner(b)), a) && SomeOpens(Last(Inner(b)), Within(a, Last(Inner(b)), a))
  {
    var inner := Within(a, Last(Inner(b)), a);
    var item := Inner(b).item;
    assert Compare(Single(One(b)), In(Bare(item), Nil, inner), Base(a, true), true);
    assert Compare(Nil, inner, Base(a, true), false) && Opens(Nil, inner);
    assert Compare(Inner(b), inner, Base(a, true), true) && Opens(Inner(b), inner);
  }

  /** When no character is both an a and a b, the pattern matches two of a; after
      auto-possessification nothing is found there. */
  lemma EnteredGroup(a: Sel, b: Sel, x: byte)
    requires Disjoint(a, b) && Accepts(a, x)
    ensures var p, s := Skipped(a, b), [x, x];
            && PatternFirst(p, s, 0).Match? && PatternFirst(p, s, 0).end == 2
            && FirstMatch(AutoProgram(PatternCode(p, 0)), s, 0) == NoMatch
  {
    var body := Last(Inner(b));
    assert Free(Nil) && Free(Single(One(b))) && FreeBranches(Last(Single(One(b)))) && Free(Inner(b));
    CodePrefers(Skipped(a, b), [x, x], 0);
    SkippedCode(a, b);
    SkippedPasses(a, b);
    ProbeLoses(a, body, a, x);
  }

  // ----- a .* in a group that is repeated possessively -----

  /** Possessively, one or more times: anything, as little as possible, and two of a; then c. */
  function Late(a: Sel, c: Sel): Pattern
  {
    LastBranch(Branch.Item(Parens(false, LastBranch(TwoLater(a))), Quant(1, -1, Possessive), Branch.Item(Chars(c), NoQuant, Empty)))
  }

  function TwoLater(a: Sel): Branch
  {
    Branch.Item(Chars(Type(OP_ALLANY)), Quant(0, -1, Lazy),
      Branch.Item(Chars(a), NoQuant, Branch.Item(Chars(a), NoQuant, Empty)))
  }

  function Two(a: Sel): Code { Cons(One(a), Single(One(a))) }

  function Nearest(a: Sel): Code { Cons(Many(Type(OP_ALLANY), Star(Lazy)), Two(a)) }

  function Loop(a: Sel, s: bool): Bytecode.Item { Group(NoZero, Paren(s, false, true), 0, Last(Nearest(a)), KetRPos) }

  lemma LateCode(a: Sel, c: Sel) returns (e: bool)
    ensures PatternCode(Late(a, c), 0) == Last(Cons(Loop(a, e), Single(One(c))))
  {
    OneBranch(a, 0);
    OneBranch(c, 0);
    CatSingle(One(a), Single(One(a)));
    CatSingle(Many(Type(OP_ALLANY), Star(Lazy)), Two(a));
    var two := Branch.Item(Chars(a), NoQuant, Branch.Item(Chars(a), NoQuant, Empty));
    assert BranchCode(two, 0) == Two(a);
    assert BranchCode(TwoLater(a), 0) == Nearest(a);
    var inner := LastBranch(TwoLater(a));
    assert PatternCode(inner, 0) == Last(Nearest(a));
    var g := PieceOf(false, inner, 0);
    assert g == Piece(false, 0, Last(Nearest(a)));
    e := AltsCouldBeEmpty(g.body);
    assert GroupCode(g, Quant(1, -1, Possessive)) == Single(Loop(a, e));
    assert BranchCaptures(two) == 0 && BranchCaptures(TwoLater(a)) == 0 && AtomCaptures(Parens(false, inner)) == 0;
    CatSingle(Loop(a, e), Single(One(c)));
    assert AtomCode(Parens(false, inner), Quant(1, -1, Possessive), 0) == Single(Loop(a, e));
    assert BranchCode(Late(a, c).b, 0) == Cons(Loop(a, e), Single(One(c)));
  }

  lemma TwoAt(a: Sel, s: Subject, pos: nat, caps: Captures)
    requires pos <= |s|
    ensures Try(Two(a), s, pos, caps, Done) ==
            if pos + 2 <= |s| && Accepts(a, s[pos]) && Accepts(a, s[pos + 1]) then Match(pos + 2, caps) else NoMatch
  {
    if pos + 2 <= |s| {
      assert Try(Nil, s, pos + 2, caps, Done) == Match(pos + 2, caps);
    }
    if pos < |s| {
      assert Try(Single(One(a)), s, pos + 1, caps, Done) ==
             if pos + 2 <= |s| && Accepts(a, s[pos + 1]) then Match(pos + 2, caps) else NoMatch;
    }
  }

  lemma AllAny(s: Subject, pos: nat)
    requires pos <= |s|
    ensures Longest(Type(OP_ALLANY), s, pos, -1) == |s| - pos
  {
  }

  /** One pass through the loop: to the nearest two of a. */
  lemma PassAt(a: Sel, s: Subject, pos: nat, caps: Captures, at: nat)
    requires pos <= at <= |s| && forall i :: pos <= i < at ==> i + 2 > |s| || !Accepts(a, s[i]) || !Accepts(a, s[i + 1])
    requires at == |s| || (at + 2 <= |s| && Accepts(a, s[at]) && Accepts(a, s[at + 1]))
    ensures Branches(Last(Nearest(a)), s, pos, caps, Done) == if at == |s| then NoMatch else Match(at + 2, caps)
  {
    AllAny(s, pos);
    TryMany(Type(OP_ALLANY), Star(Lazy), Two(a), s, pos, caps, Done);
    LazyAt(a, s, pos, 0, caps, at);
  }

  lemma {:induction false} LazyAt(a: Sel, s: Subject, pos: nat, lo: nat, caps: Captures, at: nat)
    requires pos + lo <= at <= |s| && forall i :: pos <= i < at ==> i + 2 > |s| || !Accepts(a, s[i]) || !Accepts(a, s[i + 1])
    requires at == |s| || (at + 2 <= |s| && Accepts(a, s[at]) && Accepts(a, s[at + 1]))
    ensures Counts(Two(a), s, pos, lo, |s| - pos, false, caps, Done) == if at == |s| then NoMatch else Match(at + 2, caps)
    decreases |s| - pos - lo
  {
    CountsStep(Two(a), s, pos, lo, |s| - pos, false, caps, Done);
    TwoAt(a, s, pos + lo, caps);
    if pos + lo < at {
      LazyAt(a, s, pos, lo + 1, caps, at);
    }
  }

  /** No repeat in the code is made possessive, and the test for anchored patterns succeeds. */
  lemma LateTests(a: Sel, c: Sel, e: bool, x: byte)
    requires Accepts(a, x)
    ensures var alts := Last(Cons(Loop(a, e), Single(One(c)))); AutoProgram(alts) == alts && Tied(AtStart, alts, false) && !Begins(AtStart, alts, false)
  {
    var code, any := Cons(Loop(a, e), Single(One(c))), Type(OP_ALLANY);
    var ctx := In(Top(Last(code)), Nil, AtEnd);
    var inner := In(Loop(a, e), Single(One(c)), ctx);
    if Disjoint(any, a) {
      DisjointSound(any, a, x);
    }
    assert AutoRepeat(any, Star(Lazy), Two(a), inner) == Star(Lazy);
    assert AutoCode(Nil, inner) == Nil && AutoCode(Single(One(a)), inner) == Single(One(a)) && AutoCode(Two(a), inner) == Two(a);
    assert AutoCode(Nearest(a), inner) == Nearest(a);
    assert AutoItem(Loop(a, e), Single(One(c)), ctx) == Loop(a, e);
    assert AutoCode(Nil, ctx) == Nil && AutoCode(Single(One(c)), ctx) == Single(One(c));
    assert AutoCode(code, ctx) == code;
    assert Tied(AtStart, Last(Nearest(a)), false);
    assert BranchTied(AtStart, code, false);
    assert !Begins(AtStart, Last(Nearest(a)), true);
    assert !BranchBegins(AtStart, code, false);
  }

  /** The code passes the test for anchored patterns, although the group's first pass decides
      where the later ones begin. The pattern matches at 1, and only 0 is tried. */
  lemma LateStart(a: Sel, c: Sel, x: byte, y: byte)
    requires Accepts(a, x) && !Accepts(a, y) && Accepts(c, y) && !Accepts(c, x)
    ensures var p, s := Late(a, c), [x, x, x, y];
            && Tied(AtStart, PatternCode(p, 0), false) && !Begins(AtStart, PatternCode(p, 0), false)
            && FirstMatch(AutoProgram(PatternCode(p, 0)), s, 0) == NoMatch
            && Meant(p, s, 0) == FoundAt(1, 4, map[])
  {
    hide FirstMatch, Tied, AutoProgram, PatternFirst;
    var s := [x, x, x, y];
    var e := LateCode(a, c);
    LateTests(a, c, e, x);
    LoopFirst(a, c, e, s, 0, 2);
    LoopFirst(a, c, e, s, 1, 3);
    CodePrefers(Late(a, c), s, 0);
    CodePrefers(Late(a, c), s, 1);
  }

  lemma LoopFirst(a: Sel, c: Sel, e: bool, s: Subject, pos: nat, mid: nat)
    requires |s| == 4 && Accepts(a, s[0]) && Accepts(a, s[1]) && Accepts(a, s[2]) && !Accepts(a, s[3])
    requires pos <= 1 && mid == pos + 2
    ensures FirstMatch(Last(Cons(Loop(a, e), Single(One(c)))), s, pos) ==
            if Accepts(c, s[mid]) then Match(mid + 1, map[]) else NoMatch
  {
    var code := Cons(Loop(a, e), Single(One(c)));
    TopFirst(code, s, pos);
    var back := Ret(Top(Last(code)), Nil, pos, Done);
    PassAt(a, s, pos, map[], pos);
    PassAt(a, s, mid, map[], 4);
    var again := Ret(code.item, code.next, pos, back);
    assert Pass(code.item, code.next, s, mid, map[], back) == NoMatch;
    assert Exit(s, mid, map[], again) == Try(code.next, s, mid, map[], back);
    assert Try(Nil, s, mid + 1, map[], Done) == Match(mid + 1, map[]);
    assert Exit(s, mid + 1, map[], back) == Match(mid + 1, map[]);
    assert Try(Nil, s, mid + 1, map[], back) == Match(mid + 1, map[]);
  }
}
