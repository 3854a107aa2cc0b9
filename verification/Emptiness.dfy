/** The test for branches that can match nothing, and why a FALSE answer can be
    trusted. */
module Emptiness {
  import opened Bytecode
  import opened Matching

  /** What the scan of a completed branch decides about its tree. */
  function CouldBeEmpty(c: Code): bool
    decreases c
  {
    match c
    case Nil => true
    case Cons(it, next) => ItemCouldBeEmpty(it) && CouldBeEmpty(next)
  }

  function ItemCouldBeEmpty(it: Item): bool
    decreases it
  {
    match it
    case One(_) => false
    case Many(_, rep) => RepMin(rep) == 0
    case Assert(_) => true
    case Group(zero, bra, _, body, _) =>
      zero != NoZero || (bra.Paren? && bra.s) || AltsCouldBeEmpty(body)
  }

  function AltsCouldBeEmpty(alts: Alts): bool
    decreases alts
  {
    CouldBeEmpty(alts.code) || (alts.More? && AltsCouldBeEmpty(alts.rest))
  }

  /** c matches the empty subject, where every anchor holds and nothing can be consumed. */
  ghost predicate MatchesEmpty(c: Code) { Span(c, [], 0, 0) }

  ghost predicate AltsMatchEmpty(alts: Alts) { AltsSpan(alts, [], 0, 0) }

  /** Only groups that repeat without limit are marked as able to match nothing, and of those
      just the ones that can. */
  ghost predicate Marked(c: Code)
    decreases c
  {
    c.Cons? ==>
      && Marked(c.next)
      && (c.item.Group? ==>
            && MarkedAlts(c.item.body)
            && (c.item.bra.Paren? ==>
                  if c.item.ket == Ket then !c.item.bra.s
                  else c.item.bra.s <==> AltsMatchEmpty(c.item.body)))
  }

  ghost predicate MarkedAlts(alts: Alts)
    decreases alts
  {
    Marked(alts.code) && (alts.More? ==> MarkedAlts(alts.rest))
  }

  /** A branch found unable to match nothing consumes at least one character in
      every match. */
  lemma {:induction false} EmptinessIsConservative(c: Code, s: Subject, i: nat, j: nat)
    requires !CouldBeEmpty(c) && Span(c, s, i, j)
    ensures i < j
    decreases c, 0
  {
    var m := SpanSplit(c, s, i, j);
    ItemBounds(c.item, s, i, m);
    SpanBounds(c.next, s, m, j);
    if ItemCouldBeEmpty(c.item) {
      EmptinessIsConservative(c.next, s, m, j);
    } else if c.item.Group? {
      GroupConsumes(c.item.body, c.item.ket, s, i, m);
    }
  }

  lemma {:induction false} GroupConsumes(body: Alts, ket: Ket, s: Subject, i: nat, j: nat)
    requires !AltsCouldBeEmpty(body) && GroupSpan(body, ket, s, i, j)
    ensures i < j
    decreases body, 1
  {
    if ket == Ket {
      PassConsumes(body, s, i, j);
    } else {
      var n: nat :| n >= 1 && Iterate(body, n, s, i, j);
      var m := IterateSplit(body, n, s, i, j);
      PassConsumes(body, s, i, m);
      IterateBounds(body, n - 1, s, m, j);
    }
  }

  /** One pass through a group none of whose branches can be empty consumes
      something, so an unlimited group without the S mark always makes progress. */
  lemma {:induction false} PassConsumes(body: Alts, s: Subject, i: nat, j: nat)
    requires !AltsCouldBeEmpty(body) && AltsSpan(body, s, i, j)
    ensures i < j
    decreases body, 0
  {
    if Span(body.code, s, i, j) {
      EmptinessIsConservative(body.code, s, i, j);
    } else {
      PassConsumes(body.rest, s, i, j);
    }
  }

  // ----- the scan finds just the branches that match the empty string -----

  lemma {:induction false} EmptyExactly(c: Code)
    requires Marked(c)
    ensures CouldBeEmpty(c) <==> MatchesEmpty(c)
    decreases c, 1
  {
    if c.Cons? {
      EmptyExactly(c.next);
      ItemEmptyExactly(c.item);
      if MatchesEmpty(c) {
        var m := SpanSplit(c, [], 0, 0);
        ItemBounds(c.item, [], 0, m);
      } else if CouldBeEmpty(c) {
        SpanJoin(c.item, c.next, [], 0, 0, 0);
      }
    }
  }

  lemma {:induction false} ItemEmptyExactly(it: Item)
    requires Marked(Cons(it, Nil))
    ensures ItemCouldBeEmpty(it) <==> ItemSpan(it, [], 0, 0)
    decreases it, 0
  {
    if it.Group? {
      AltsEmptyExactly(it.body);
      EmptyPass(it.body, it.ket, []);
    }
  }

  /** A loop matches the empty string when one pass does. */
  lemma EmptyPass(body: Alts, ket: Ket, s: Subject)
    requires s == []
    ensures GroupSpan(body, ket, s, 0, 0) <==> AltsSpan(body, s, 0, 0)
  {
    if GroupSpan(body, ket, s, 0, 0) {
      var m, _ := FirstPass(body, ket, s, 0, 0);
      AltsBounds(body, s, 0, m);
    } else if ket != Ket && AltsSpan(body, s, 0, 0) {
      IterateJoin(body, 0, s, 0, 0, 0);
    }
  }

  lemma {:induction false} AltsEmptyExactly(alts: Alts)
    requires MarkedAlts(alts)
    ensures AltsCouldBeEmpty(alts) <==> AltsMatchEmpty(alts)
    decreases alts, 0
  {
    EmptyExactly(alts.code);
    if alts.More? {
      AltsEmptyExactly(alts.rest);
    }
  }
}
