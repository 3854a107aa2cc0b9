/** Which first and required characters are recorded, read off the pattern: the first one from
    the front, the required one from the back. */
module Recorded {
  import opened Opcodes
  import opened Bytecode
  import opened Matching
  import opened Pattern
  import opened FirstChar

  // ----- the first character -----

  /** The item must be there at least once. */
  predicate Sure(q: Quantifier) { q.Quant? ==> q.lo > 0 }

  /** Every branch begins, behind any anchors, with the character k, or with a group that does. */
  predicate StartsWith(p: Pattern, k: Known)
    decreases p, 0
  {
    BranchStarts(p.b, k) && (p.OrElse? ==> StartsWith(p.others, k))
  }

  predicate BranchStarts(b: Branch, k: Known)
    decreases b, 0
  {
    match b
    case Empty => false
    case AnchorItem(_, rest) => BranchStarts(rest, k)
    case Item(Chars(sel), q, _) => Sure(q) && k.Fixed? && sel == Lit(k.c, k.caseless, false) && !k.varies
    case Item(Parens(_, alts), q, _) => Sure(q) && StartsWith(alts, k)
  }

  /** The character that a branch starts with, if there is one. */
  function BranchHead(b: Branch): Known
    decreases b, 0
  {
    match b
    case Empty => NoChar
    case AnchorItem(_, rest) => BranchHead(rest)
    case Item(Chars(sel), q, _) => if Sure(q) && IsLiteral(sel) then Fixed(sel.c, sel.caseless, false) else NoChar
    case Item(Parens(_, alts), q, _) => if Sure(q) then PatternHead(alts) else NoChar
  }

  function PatternHead(p: Pattern): Known
    decreases p, 0
  {
    var k := BranchHead(p.b);
    if p.LastBranch? || k == PatternHead(p.others) then k else NoChar
  }

  lemma {:induction false} BranchHeadIs(b: Branch, k: Known)
    requires k.Fixed?
    ensures BranchHead(b) == k <==> BranchStarts(b, k)
    decreases b, 0
  {
    match b
    case Empty =>
    case AnchorItem(_, rest) => BranchHeadIs(rest, k);
    case Item(Chars(_), _, _) =>
    case Item(Parens(_, alts), _, _) => HeadIs(alts, k);
  }

  lemma {:induction false} HeadIs(p: Pattern, k: Known)
    requires k.Fixed?
    ensures PatternHead(p) == k <==> StartsWith(p, k)
    decreases p, 0
  {
    BranchHeadIs(p.b, k);
    if p.OrElse? {
      HeadIs(p.others, k);
    }
  }

  // ----- the required character -----

  /** Something before the end of the item may take more or fewer characters. */
  predicate Unsteady(p: Pattern)
    decreases p, 0
  {
    UnsteadyBranch(p.b) || (p.OrElse? && Unsteady(p.others))
  }

  predicate UnsteadyBranch(b: Branch)
    decreases b, 0
  {
    match b
    case Empty => false
    case AnchorItem(_, rest) => UnsteadyBranch(rest)
    case Item(atom, q, rest) => UnsteadyItem(atom, q) || UnsteadyBranch(rest)
  }

  predicate UnsteadyItem(atom: Atom, q: Quantifier)
    decreases atom, 1
  {
    (q.Quant? && q.lo != q.hi) || (atom.Parens? && Unsteady(atom.alts))
  }

  function Or(a: Known, b: Known): Known
  {
    if a.Fixed? then a else b
  }

  /** What both require; it varies where one of them does. */
  function Both(a: Known, b: Known): Known
  {
    if a.Fixed? && b.Fixed? && a.c == b.c && a.caseless == b.caseless then a.(varies := a.varies || b.varies) else NoChar
  }

  lemma BothAssoc(a: Known, b: Known, c: Known)
    ensures Both(a, Both(b, c)) == Both(Both(a, b), c)
  {
  }

  /** The character that the last item requires that requires one. The first item of all can
      do so only by being repeated, or by something inside it. */
  function BranchNeed(b: Branch, v: bool, begun: bool): Known
    decreases b, 0
  {
    match b
    case Empty => NoChar
    case AnchorItem(_, rest) => BranchNeed(rest, v, begun)
    case Item(atom, q, rest) =>
      Or(BranchNeed(rest, v || UnsteadyItem(atom, q), true),
         if Sure(q) then AtomNeed(atom, q.Quant? && q.lo > 1, v, begun) else NoChar)
  }

  function AtomNeed(atom: Atom, again: bool, v: bool, begun: bool): Known
    decreases atom, 1
  {
    match atom
    case Chars(sel) => if IsLiteral(sel) && (begun || again) then Fixed(sel.c, sel.caseless, v) else NoChar
    case Parens(_, alts) =>
      var head := PatternHead(alts);
      Or(PatternNeed(alts, v),
         if begun && head.Fixed? then head.(varies := v) else if again then head else NoChar)
  }

  /** What all branches require; while they also start alike, only behind that. */
  function Needs(p: Pattern, v: bool): Known
    decreases p, 0
  {
    var k := BranchNeed(p.b, v, false);
    if p.LastBranch? then k else Both(k, Needs(p.others, v || UnsteadyBranch(p.b)))
  }

  /** The required character of a branch, or else the one that it starts with. */
  function Offer(b: Branch, v: bool): Known
    decreases b, 1
  {
    Or(BranchNeed(b, v, false), BranchHead(b))
  }

  function Offers(p: Pattern, v: bool): Known
    decreases p, 0
  {
    var k := Offer(p.b, v);
    if p.LastBranch? then k else Both(k, Offers(p.others, v || UnsteadyBranch(p.b)))
  }

  /** The branches up to the first that does not start with d require in common ... */
  function RunNeeds(p: Pattern, v: bool, d: Known): Known
    decreases p, 0
  {
    var k := BranchNeed(p.b, v, false);
    if p.LastBranch? || BranchHead(p.others.b) != d then k else Both(k, RunNeeds(p.others, v || UnsteadyBranch(p.b), d))
  }

  /** ... and this is what those from there on offer. */
  function RestOffers(p: Pattern, v: bool, d: Known): Known
    decreases p, 0
  {
    var v' := v || UnsteadyBranch(p.b);
    if p.LastBranch? then NoChar
    else if BranchHead(p.others.b) != d then Offers(p.others, v')
    else RestOffers(p.others, v', d)
  }

  /** Where the branches start with one character, what they require behind it; otherwise what
      they require or start with, the leading ones that start alike taken together. */
  function PatternNeed(p: Pattern, v: bool): Known
    decreases p, 1
  {
    var d := BranchHead(p.b);
    if PatternHead(p).Fixed? then Needs(p, v)
    else if d.Fixed? then Both(Or(RunNeeds(p, v, d), d), RestOffers(p, v, d))
    else Offers(p, v)
  }

  // ----- that is what the compiler records -----

  /** The same character, or none. */
  predicate Same(a: Known, b: Known) { a == b || (!a.Fixed? && !b.Fixed?) }

  lemma {:induction false} BranchVaries(b: Branch, v: bool, t: Track)
    ensures BranchSummary(b, v, t).varies == (v || UnsteadyBranch(b))
    decreases b, 0
  {
    match b
    case Empty =>
    case AnchorItem(_, rest) => BranchVaries(rest, v, t);
    case Item(Chars(sel), q, rest) =>
      BranchVaries(rest, VariesAfter(q, v), AfterQuant(Chars(sel), q, v, AfterChars(sel, v, t)));
    case Item(Parens(_, alts), q, rest) =>
      var sub := PatternSummary(alts, v);
      PatternVaries(alts, v);
      BranchVaries(rest, VariesAfter(q, sub.varies), AfterQuant(b.atom, q, sub.varies, AfterGroup(sub, v, t)));
  }

  lemma {:induction false} OthersVary(p: Pattern, so: Summary)
    ensures OthersSummary(p, so).varies == (so.varies || Unsteady(p))
    decreases p, 1
  {
    BranchVaries(p.b, so.varies, START);
    if p.OrElse? {
      OthersVary(p.others, Merge(so.first, so.req, BranchSummary(p.b, so.varies, START)));
    }
  }

  lemma {:induction false} PatternVaries(p: Pattern, v: bool)
    ensures PatternSummary(p, v).varies == (v || Unsteady(p))
    decreases p, 1
  {
    BranchVaries(p.b, v, START);
    if p.OrElse? {
      OthersVary(p.others, BranchSummary(p.b, v, START));
    }
  }

  /** A first character stays what it is once something has been seen. */
  lemma {:induction false} FirstStays(b: Branch, v: bool, t: Track)
    requires t.first != Unset
    ensures BranchSummary(b, v, t).first == t.first
    decreases b, 0
  {
    match b
    case Empty =>
    case AnchorItem(_, rest) => FirstStays(rest, v, t);
    case Item(Chars(sel), q, rest) =>
      FirstStays(rest, VariesAfter(q, v), AfterQuant(Chars(sel), q, v, AfterChars(sel, v, t)));
    case Item(Parens(_, alts), q, rest) =>
      var sub := PatternSummary(alts, v);
      FirstStays(rest, VariesAfter(q, sub.varies), AfterQuant(b.atom, q, sub.varies, AfterGroup(sub, v, t)));
  }

  lemma {:induction false} BranchFirst(b: Branch, v: bool, t: Track)
    requires t.first == Unset
    ensures Same(BranchSummary(b, v, t).first, BranchHead(b))
    decreases b, 0
  {
    match b
    case Empty =>
    case AnchorItem(_, rest) => BranchFirst(rest, v, t);
    case Item(Chars(sel), q, rest) =>
      FirstStays(rest, VariesAfter(q, v), AfterQuant(Chars(sel), q, v, AfterChars(sel, v, t)));
    case Item(Parens(_, alts), q, rest) =>
      var sub := PatternSummary(alts, v);
      PatternFirstIs(alts, v);
      FirstStays(rest, VariesAfter(q, sub.varies), AfterQuant(b.atom, q, sub.varies, AfterGroup(sub, v, t)));
  }

  lemma {:induction false} OthersFirst(p: Pattern, so: Summary)
    ensures Same(OthersSummary(p, so).first, if so.first == PatternHead(p) then so.first else NoChar)
    decreases p, 1
  {
    BranchFirst(p.b, so.varies, START);
    if p.OrElse? {
      OthersFirst(p.others, Merge(so.first, so.req, BranchSummary(p.b, so.varies, START)));
    }
  }

  lemma {:induction false} PatternFirstIs(p: Pattern, v: bool)
    ensures Same(PatternSummary(p, v).first, PatternHead(p))
    decreases p, 1
  {
    BranchFirst(p.b, v, START);
    if p.OrElse? {
      OthersFirst(p.others, BranchSummary(p.b, v, START));
    }
  }

  lemma CharsReq(sel: Sel, q: Quantifier, v: bool, t: Track)
    requires t.first == Unset ==> !t.req.Fixed?
    ensures var t' := AfterQuant(Chars(sel), q, v, AfterChars(sel, v, t));
            && t'.first != Unset
            && Same(t'.req, Or(if Sure(q) then AtomNeed(Chars(sel), q.Quant? && q.lo > 1, v, t.first != Unset) else NoChar, t.req))
  {
  }

  lemma GroupReq(cap: bool, alts: Pattern, q: Quantifier, v: bool, t: Track)
    requires t.first == Unset ==> !t.req.Fixed?
    requires var sub := PatternSummary(alts, v); Same(sub.first, PatternHead(alts)) && Same(sub.req, PatternNeed(alts, v))
    ensures var a, sub := Parens(cap, alts), PatternSummary(alts, v);
            var t' := AfterQuant(a, q, sub.varies, AfterGroup(sub, v, t));
            && t'.first != Unset
            && Same(t'.req, Or(if Sure(q) then AtomNeed(a, q.Quant? && q.lo > 1, v, t.first != Unset) else NoChar, t.req))
  {
    hide PatternSummary, PatternHead, PatternNeed;
    HeadSteady(alts);
  }

  lemma {:induction false} BranchReq(b: Branch, v: bool, t: Track)
    requires t.first == Unset ==> !t.req.Fixed?
    ensures Same(BranchSummary(b, v, t).req, Or(BranchNeed(b, v, t.first != Unset), t.req))
    decreases b, 0
  {
    hide AfterQuant, AfterChars, AfterGroup, AtomNeed;
    match b
    case Empty =>
    case AnchorItem(_, rest) => BranchReq(rest, v, t);
    case Item(Chars(sel), q, rest) =>
      CharsReq(sel, q, v, t);
      BranchReq(rest, VariesAfter(q, v), AfterQuant(Chars(sel), q, v, AfterChars(sel, v, t)));
    case Item(Parens(cap, alts), q, rest) =>
      var sub := PatternSummary(alts, v);
      PatternFirstIs(alts, v);
      PatternReq(alts, v);
      PatternVaries(alts, v);
      GroupReq(cap, alts, q, v, t);
      BranchReq(rest, VariesAfter(q, sub.varies), AfterQuant(b.atom, q, sub.varies, AfterGroup(sub, v, t)));
  }

  /** Nothing varies in front of a first character. */
  lemma {:induction false} HeadSteady(p: Pattern)
    ensures PatternHead(p).Fixed? ==> !PatternHead(p).varies
  {
    if PatternHead(p).Fixed? {
      HeadIs(p, PatternHead(p));
      StartSteady(p, PatternHead(p));
    }
  }

  lemma {:induction false} StartSteady(p: Pattern, k: Known)
    requires StartsWith(p, k)
    ensures k.Fixed? && !k.varies
    decreases p, 0
  {
    BranchSteady(p.b, k);
  }

  lemma {:induction false} BranchSteady(b: Branch, k: Known)
    requires BranchStarts(b, k)
    ensures k.Fixed? && !k.varies
    decreases b, 0
  {
    match b
    case AnchorItem(_, rest) => BranchSteady(rest, k);
    case Item(Chars(_), _, _) =>
    case Item(Parens(_, alts), _, _) => StartSteady(alts, k);
  }

  /** Once the branches do not start alike. */
  lemma {:induction false} OthersOffer(p: Pattern, so: Summary)
    requires !so.first.Fixed?
    ensures Same(OthersSummary(p, so).req, Both(so.req, Offers(p, so.varies)))
    decreases p, 2
  {
    var m := Merge(so.first, so.req, BranchSummary(p.b, so.varies, START));
    BranchReq(p.b, so.varies, START);
    BranchFirst(p.b, so.varies, START);
    BranchVaries(p.b, so.varies, START);
    if p.OrElse? {
      OthersOffer(p.others, m);
    }
  }

  /** As long as they do. */
  lemma {:induction false} OthersNeed(p: Pattern, so: Summary)
    requires so.first.Fixed?
    ensures PatternHead(p) == so.first ==> Same(OthersSummary(p, so).req, Both(so.req, Needs(p, so.varies)))
    ensures PatternHead(p) != so.first && BranchHead(p.b) != so.first ==>
              Same(OthersSummary(p, so).req, Both(Or(so.req, so.first), Offers(p, so.varies)))
    ensures PatternHead(p) != so.first && BranchHead(p.b) == so.first ==>
              Same(OthersSummary(p, so).req,
                   Both(Or(Both(so.req, RunNeeds(p, so.varies, so.first)), so.first), RestOffers(p, so.varies, so.first)))
    decreases p, 2
  {
    var m := Merge(so.first, so.req, BranchSummary(p.b, so.varies, START));
    BranchReq(p.b, so.varies, START);
    BranchFirst(p.b, so.varies, START);
    BranchVaries(p.b, so.varies, START);
    if p.OrElse? {
      if BranchHead(p.b) == so.first {
        var k, v := BranchNeed(p.b, so.varies, false), m.varies;
        assert m.first == so.first && Same(m.req, Both(so.req, k));
        OthersNeed(p.others, m);
        BothAssoc(so.req, k, Needs(p.others, v));
        BothAssoc(so.req, k, RunNeeds(p.others, v, so.first));
      } else {
        OthersOffer(p.others, m);
        BothAssoc(Or(so.req, so.first), Offer(p.b, so.varies), Offers(p.others, m.varies));
      }
    }
  }

  lemma {:induction false} PatternReq(p: Pattern, v: bool)
    ensures Same(PatternSummary(p, v).req, PatternNeed(p, v))
    decreases p, 3
  {
    var so := BranchSummary(p.b, v, START);
    BranchReq(p.b, v, START);
    BranchFirst(p.b, v, START);
    BranchVaries(p.b, v, START);
    var d, k := BranchHead(p.b), BranchNeed(p.b, v, false);
    if p.LastBranch? {
      assert PatternHead(p) == d && Needs(p, v) == k && Offers(p, v) == Or(k, d);
    } else {
      var rest := so.varies;
      assert Needs(p, v) == Both(k, Needs(p.others, rest)) && Offers(p, v) == Both(Or(k, d), Offers(p.others, rest));
      if so.first.Fixed? {
        OthersNeed(p.others, so);
      } else {
        OthersOffer(p.others, so);
      }
    }
  }

  /** A first character is recorded exactly when the pattern starts with it, and the required
      one is the one that the pattern needs. */
  lemma RecordedExactly(p: Pattern, v: bool, k: Known)
    requires k.Fixed?
    ensures PatternSummary(p, v).first == k <==> StartsWith(p, k)
    ensures PatternSummary(p, v).req == k <==> PatternNeed(p, v) == k
    ensures PatternSummary(p, v).varies == (v || Unsteady(p))
  {
    PatternFirstIs(p, v);
    HeadIs(p, k);
    PatternReq(p, v);
    PatternVaries(p, v);
  }

  /** A recorded character stands for what a literal accepts. */
  lemma RecordedMatches(c: byte, caseless: bool, varies: bool, x: byte)
    ensures Matches(Fixed(c, caseless, varies), x) <==> Accepts(Lit(c, caseless, false), x)
  {
  }
}
