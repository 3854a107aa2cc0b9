/** What compiled code matches. Span is the relation a code tree denotes; Step and
    Reach are a machine that runs the bytes themselves. Both say which stretches of
    the subject are matched, not which is preferred. For atomic and possessive
    groups, whose matches depend on preference, both give an upper bound. */
module Matching {
  import opened Opcodes
  import opened Bytecode

  type Subject = seq<byte>

  // ----- characters (the built-in tables) -----

  const NEWLINE: byte := 10

  predicate IsDigit(c: byte) { 48 <= c <= 57 }

  predicate IsSpace(c: byte) { 9 <= c <= 13 || c == 32 }

  predicate IsWord(c: byte) { IsDigit(c) || 65 <= c <= 90 || c == 95 || 97 <= c <= 122 }

  /** The case-flipping table. */
  function OtherCase(c: byte): byte
  {
    if 65 <= c <= 90 then c + 32 else if 97 <= c <= 122 then c - 32 else c
  }

  function Power2(k: nat): nat
    requires k < 8
  {
    if k == 0 then 1 else if k == 1 then 2 else if k == 2 then 4 else if k == 3 then 8
    else if k == 4 then 16 else if k == 5 then 32 else if k == 6 then 64 else 128
  }

  predicate Bit(b: byte, k: nat)
    requires k < 8
  {
    (b / Power2(k)) % 2 == 1
  }

  predicate InBitmap(bits: Bitmap, c: byte)
  {
    Bit(bits[c / 8], c % 8)
  }

  predicate IsType(t: TypeOp, c: byte)
  {
    if t == OP_NOT_DIGIT then !IsDigit(c)
    else if t == OP_DIGIT then IsDigit(c)
    else if t == OP_NOT_WHITESPACE then !IsSpace(c)
    else if t == OP_WHITESPACE then IsSpace(c)
    else if t == OP_NOT_WORDCHAR then !IsWord(c)
    else if t == OP_WORDCHAR then IsWord(c)
    else if t == OP_ANY then c != NEWLINE
    else true
  }

  predicate Accepts(sel: Sel, c: byte)
  {
    match sel
    case Lit(x, caseless, negated) => (c == x || (caseless && c == OtherCase(x))) != negated
    case Type(t) => IsType(t, c)
    case Set(_, bits) => InBitmap(bits, c)
  }

  // ----- the relation denoted by a tree -----

  function RepMin(rep: Rep): nat
  {
    match rep
    case Star(_) => 0
    case Plus(_) => 1
    case Query(_) => 0
    case Upto(_, _) => 0
    case Exact(n) => n
    case Range(_, lo, _) => lo
  }

  /** The maximum count, or -1 when there is none. */
  function RepMax(rep: Rep): int
  {
    match rep
    case Star(_) => -1
    case Plus(_) => -1
    case Query(_) => 1
    case Upto(_, n) => n
    case Exact(n) => n
    case Range(_, _, hi) => if hi == 0 then -1 else hi
  }

  function RepMode(rep: Rep): Mode
  {
    if rep.Exact? then Greedy else rep.mode
  }

  /** The characters from i to j are all accepted. */
  ghost predicate Run(sel: Sel, s: Subject, i: nat, j: nat)
  {
    i <= j <= |s| && forall x {:trigger s[x]} :: i <= x < j ==> Accepts(sel, s[x])
  }

  ghost predicate CountOk(rep: Rep, n: nat)
  {
    RepMin(rep) <= n && (RepMax(rep) < 0 || n <= RepMax(rep))
  }

  /** A repeat may take the subject from i to j; a possessive one only when it
      could not take more. */
  ghost predicate Takes(sel: Sel, rep: Rep, s: Subject, i: nat, j: nat)
  {
    && Run(sel, s, i, j)
    && CountOk(rep, j - i)
    && (RepMode(rep) == Possessive ==> j - i == RepMax(rep) || j == |s| || !Accepts(sel, s[j]))
  }

  predicate Holds(a: Anchor, s: Subject, i: nat)
  {
    match a
    case Circ => i == 0
    case Sod => i == 0
    case Eod => i == |s|
    case Doll => i == |s| || (i + 1 == |s| && s[i] == NEWLINE)
  }

  ghost predicate ItemSpan(it: Item, s: Subject, i: nat, j: nat)
    decreases it, 1
  {
    match it
    case One(sel) => Takes(sel, Exact(1), s, i, j)
    case Many(sel, rep) => Takes(sel, rep, s, i, j)
    case Assert(a) => i == j <= |s| && Holds(a, s, i)
    case Group(zero, _, _, body, ket) =>
      || (zero != NoZero && i == j <= |s|)
      || (zero != SkipZero && GroupSpan(body, ket, s, i, j))
  }

  ghost predicate GroupSpan(body: Alts, ket: Ket, s: Subject, i: nat, j: nat)
    decreases body, 2
  {
    if ket == Ket then AltsSpan(body, s, i, j)
    else exists n: nat :: n >= 1 && Iterate(body, n, s, i, j)
  }

  /** n passes through the group, one after the other. */
  ghost predicate Iterate(body: Alts, n: nat, s: Subject, i: nat, j: nat)
    decreases body, 1, n
  {
    if n == 0 then i == j <= |s|
    else exists m: nat :: AltsSpan(body, s, i, m) && Iterate(body, n - 1, s, m, j)
  }

  ghost predicate AltsSpan(alts: Alts, s: Subject, i: nat, j: nat)
    decreases alts, 0
  {
    Span(alts.code, s, i, j) || (alts.More? && AltsSpan(alts.rest, s, i, j))
  }

  /** The branch c matches the subject from i to j. */
  ghost predicate Span(c: Code, s: Subject, i: nat, j: nat)
    decreases c, 0
  {
    match c
    case Nil => i == j <= |s|
    case Cons(it, next) => exists m: nat :: ItemSpan(it, s, i, m) && Span(next, s, m, j)
  }

  lemma SpanSplit(c: Code, s: Subject, i: nat, j: nat) returns (m: nat)
    requires c.Cons? && Span(c, s, i, j)
    ensures ItemSpan(c.item, s, i, m) && Span(c.next, s, m, j)
  {
    m :| ItemSpan(c.item, s, i, m) && Span(c.next, s, m, j);
  }

  lemma SpanJoin(it: Item, next: Code, s: Subject, i: nat, m: nat, j: nat)
    requires ItemSpan(it, s, i, m) && Span(next, s, m, j)
    ensures Span(Cons(it, next), s, i, j)
  {
  }

  lemma IterateSplit(body: Alts, n: nat, s: Subject, i: nat, j: nat) returns (m: nat)
    requires n >= 1 && Iterate(body, n, s, i, j)
    ensures AltsSpan(body, s, i, m) && Iterate(body, n - 1, s, m, j)
  {
    m :| AltsSpan(body, s, i, m) && Iterate(body, n - 1, s, m, j);
  }

  lemma IterateJoin(body: Alts, n: nat, s: Subject, i: nat, m: nat, j: nat)
    requires AltsSpan(body, s, i, m) && Iterate(body, n, s, m, j)
    ensures Iterate(body, n + 1, s, i, j)
  {
  }

  /** A group's first pass, whatever its closing bracket. */
  lemma FirstPass(body: Alts, ket: Ket, s: Subject, i: nat, j: nat) returns (m: nat, n: nat)
    requires GroupSpan(body, ket, s, i, j)
    ensures AltsSpan(body, s, i, m)
    ensures if ket == Ket then m == j else Iterate(body, n, s, m, j)
  {
    if ket == Ket {
      m, n := j, 0;
    } else {
      var k: nat :| k >= 1 && Iterate(body, k, s, i, j);
      m := IterateSplit(body, k, s, i, j);
      n := k - 1;
    }
  }

  lemma {:induction false} SpanCatSplit(a: Code, b: Code, s: Subject, i: nat, j: nat) returns (m: nat)
    requires Span(Cat(a, b), s, i, j)
    ensures Span(a, s, i, m) && Span(b, s, m, j)
    decreases a
  {
    if a == Nil {
      SpanBounds(b, s, i, j);
      m := i;
    } else {
      var x := SpanSplit(Cat(a, b), s, i, j);
      m := SpanCatSplit(a.next, b, s, x, j);
      SpanJoin(a.item, a.next, s, i, x, m);
    }
  }

  lemma {:induction false} SpanCatJoin(a: Code, b: Code, s: Subject, i: nat, m: nat, j: nat)
    requires Span(a, s, i, m) && Span(b, s, m, j)
    ensures Span(Cat(a, b), s, i, j)
    decreases a
  {
    if a.Cons? {
      var x := SpanSplit(a, s, i, m);
      SpanCatJoin(a.next, b, s, x, m, j);
      SpanJoin(a.item, Cat(a.next, b), s, i, x, j);
    }
  }

  // A match moves forward and stays inside the subject.

  lemma {:induction false} SpanBounds(c: Code, s: Subject, i: nat, j: nat)
    requires Span(c, s, i, j)
    ensures i <= j <= |s|
    decreases c, 0
  {
    if c.Cons? {
      var m: nat :| ItemSpan(c.item, s, i, m) && Span(c.next, s, m, j);
      ItemBounds(c.item, s, i, m);
      SpanBounds(c.next, s, m, j);
    }
  }

  lemma {:induction false} ItemBounds(it: Item, s: Subject, i: nat, j: nat)
    requires ItemSpan(it, s, i, j)
    ensures i <= j <= |s|
    decreases it, 1
  {
    if it.Group? && !(it.zero != NoZero && i == j <= |s|) {
      GroupBounds(it.body, it.ket, s, i, j);
    }
  }

  lemma {:induction false} GroupBounds(body: Alts, ket: Ket, s: Subject, i: nat, j: nat)
    requires GroupSpan(body, ket, s, i, j)
    ensures i <= j <= |s|
    decreases body, 2
  {
    if ket == Ket {
      AltsBounds(body, s, i, j);
    } else {
      var n: nat :| n >= 1 && Iterate(body, n, s, i, j);
      IterateBounds(body, n, s, i, j);
    }
  }

  lemma {:induction false} IterateBounds(body: Alts, n: nat, s: Subject, i: nat, j: nat)
    requires Iterate(body, n, s, i, j)
    ensures i <= j <= |s|
    decreases body, 1, n
  {
    if n > 0 {
      var m: nat :| AltsSpan(body, s, i, m) && Iterate(body, n - 1, s, m, j);
      AltsBounds(body, s, i, m);
      IterateBounds(body, n - 1, s, m, j);
    }
  }

  lemma {:induction false} AltsBounds(alts: Alts, s: Subject, i: nat, j: nat)
    requires AltsSpan(alts, s, i, j)
    ensures i <= j <= |s|
    decreases alts, 0
  {
    if Span(alts.code, s, i, j) {
      SpanBounds(alts.code, s, i, j);
    } else {
      AltsBounds(alts.rest, s, i, j);
    }
  }
}
