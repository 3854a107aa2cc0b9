/** The first and required characters that the compiler records for a pattern, and
    why a matcher may rely on them. */
module FirstChar {
  import opened Opcodes
  import opened Bytecode
  import opened Matching
  import opened Pattern

  /** A recorded character: nothing seen yet (REQ_UNSET), given up (REQ_NONE), or a
      character with its caseless flag and the flag saying that something of variable
      length precedes it (REQ_VARY). */
  datatype Known = Unset | NoChar | Fixed(c: byte, caseless: bool, varies: bool)

  /** What is known at some point of a branch, and what to go back to if the item just
      compiled turns out to be optional. */
  datatype Track = Track(first: Known, req: Known, zeroFirst: Known, zeroReq: Known, groupSet: bool)

  const START := Track(Unset, Unset, Unset, Unset, false)

  /** Both characters of a pattern, and whether anything so far varies in length. */
  datatype Summary = Summary(first: Known, req: Known, varies: bool)

  predicate IsLiteral(sel: Sel) { sel.Lit? && !sel.negated }

  // ----- one branch -----

  function AfterChars(sel: Sel, varies: bool, t: Track): Track
  {
    if IsLiteral(sel) then
      if t.first == Unset then
        t.(zeroFirst := NoChar, zeroReq := t.req, first := Fixed(sel.c, sel.caseless, false))
      else
        t.(zeroFirst := t.first, zeroReq := t.req, req := Fixed(sel.c, sel.caseless, varies))
    else
      var first := if t.first == Unset then NoChar else t.first;
      t.(first := first, zeroFirst := first, zeroReq := t.req)
  }

  /** The group's own characters are sub; varies is the state before the group. */
  function AfterGroup(sub: Summary, varies: bool, t: Track): Track
  {
    var t1 := t.(zeroReq := t.req, zeroFirst := if t.first == Unset then NoChar else t.first, groupSet := false);
    if t.first == Unset then
      var t2 := if sub.first.Fixed? then t1.(first := sub.first, groupSet := true) else t1.(first := NoChar);
      if sub.req.Fixed? then t2.(req := sub.req) else t2
    else if sub.req.Fixed? then t1.(req := sub.req)
    else if sub.first.Fixed? then t1.(req := Fixed(sub.first.c, sub.first.caseless, sub.first.varies || varies))
    else t1
  }

  function AfterQuant(atom: Atom, q: Quantifier, varies: bool, t: Track): Track
  {
    if q == NoQuant then t
    else if q.lo == 0 then t.(first := t.zeroFirst, req := t.zeroReq)
    else if q.lo > 1 && atom.Chars? && IsLiteral(atom.sel) then t.(req := Fixed(atom.sel.c, atom.sel.caseless, varies))
    else if q.lo > 1 && atom.Parens? && t.groupSet && !t.req.Fixed? then t.(req := t.first)
    else t
  }

  function VariesAfter(q: Quantifier, varies: bool): bool
  {
    varies || (q.Quant? && q.lo != q.hi)
  }

  function BranchSummary(b: Branch, varies: bool, t: Track): Summary
    decreases b, 0
  {
    match b
    case Empty => Summary(t.first, t.req, varies)
    case AnchorItem(_, rest) => BranchSummary(rest, varies, t)
    case Item(Chars(sel), q, rest) =>
      BranchSummary(rest, VariesAfter(q, varies), AfterQuant(Chars(sel), q, varies, AfterChars(sel, varies, t)))
    case Item(Parens(cap, alts), q, rest) =>
      var sub := PatternSummary(alts, varies);
      BranchSummary(rest, VariesAfter(q, sub.varies),
                    AfterQuant(Parens(cap, alts), q, sub.varies, AfterGroup(sub, varies, t)))
  }

  // ----- alternatives -----

  function Agree(a: Known, b: Known): Known
  {
    if a.Fixed? && b.Fixed? && a.c == b.c && a.caseless == b.caseless then
      Fixed(a.c, a.caseless, a.varies || b.varies)
    else NoChar
  }

  /** Merges a further branch into what the branches before it agreed on. */
  function Merge(first: Known, req: Known, branch: Summary): Summary
  {
    var lost := first.Fixed? && first != branch.first;
    var first' := if lost then NoChar else first;
    var req' := if lost && !req.Fixed? then first else req;
    var branchReq := if !first'.Fixed? && branch.first.Fixed? && !branch.req.Fixed? then branch.first else branch.req;
    Summary(first', Agree(req', branchReq), branch.varies)
  }

  function OthersSummary(p: Pattern, so: Summary): Summary
    decreases p, 1
  {
    var m := Merge(so.first, so.req, BranchSummary(p.b, so.varies, START));
    if p.LastBranch? then m else OthersSummary(p.others, m)
  }

  function PatternSummary(p: Pattern, varies: bool): Summary
    decreases p, 1
  {
    var b := BranchSummary(p.b, varies, START);
    if p.LastBranch? then b else OthersSummary(p.others, b)
  }

  // ----- soundness -----

  predicate Matches(k: Known, c: byte)
  {
    k.Fixed? ==> c == k.c || (k.caseless && c == OtherCase(k.c))
  }

  /** Every character claimed for the stretch from i to j is there. */
  ghost predicate FirstOk(k: Known, s: Subject, i: nat, j: nat)
  {
    k.Fixed? ==> i < j <= |s| && Matches(k, s[i])
  }

  /** Behind the first character, when there is one. */
  ghost predicate ReqOk(k: Known, first: Known, s: Subject, i: nat, j: nat)
  {
    k.Fixed? ==> exists x {:trigger s[x]} :: i <= x < j <= |s| && (first.Fixed? ==> i < x) && Matches(k, s[x])
  }

  ghost predicate SummaryOk(m: Summary, s: Subject, i: nat, j: nat)
  {
    FirstOk(m.first, s, i, j) && ReqOk(m.req, m.first, s, i, j)
  }

  /** The track is right for a branch that has matched from i to j so far, and nothing
      can have been consumed while no character has been seen. */
  ghost predicate TrackOk(t: Track, s: Subject, i: nat, j: nat)
  {
    && i <= j <= |s|
    && (t.first == Unset ==> i == j && !t.req.Fixed?)
    && FirstOk(t.first, s, i, j)
    && ReqOk(t.req, t.first, s, i, j)
  }

  /** Going back: the zero values are right for where the last item began. */
  ghost predicate BackOk(t: Track, s: Subject, i: nat, j: nat)
  {
    && i <= j <= |s|
    && t.zeroFirst != Unset
    && FirstOk(t.zeroFirst, s, i, j)
    && ReqOk(t.zeroReq, t.zeroFirst, s, i, j)
  }

  lemma ReqGrows(k: Known, first: Known, s: Subject, i: nat, j: nat, j': nat)
    requires ReqOk(k, first, s, i, j) && j <= j' <= |s|
    ensures ReqOk(k, first, s, i, j')
  {
  }

  lemma TrackGrows(t: Track, s: Subject, i: nat, j: nat, j': nat)
    requires TrackOk(t, s, i, j) && j <= j' <= |s| && t.first != Unset
    ensures TrackOk(t, s, i, j')
  {
    ReqGrows(t.req, t.first, s, i, j, j');
  }

  lemma CharsTrack(sel: Sel, varies: bool, t: Track, s: Subject, i: nat, j: nat)
    requires TrackOk(t, s, i, j) && j < |s| && Accepts(sel, s[j])
    ensures var t' := AfterChars(sel, varies, t); TrackOk(t', s, i, j + 1) && t'.first != Unset
  {
    ReqGrows(t.req, t.first, s, i, j, j + 1);
  }

  lemma CharsBack(sel: Sel, varies: bool, t: Track, s: Subject, i: nat, j: nat)
    requires TrackOk(t, s, i, j)
    ensures BackOk(AfterChars(sel, varies, t), s, i, j)
  {
  }

  lemma GroupTrack(sub: Summary, varies: bool, t: Track, s: Subject, i: nat, j: nat, m: nat)
    requires TrackOk(t, s, i, j) && j <= m <= |s| && SummaryOk(sub, s, j, m)
    ensures var t' := AfterGroup(sub, varies, t); TrackOk(t', s, i, m) && t'.first != Unset
  {
    ReqGrows(t.req, t.first, s, i, j, m);
    if sub.first.Fixed? {
      assert Matches(sub.first, s[j]);
    }
  }

  lemma GroupBack(sub: Summary, varies: bool, t: Track, s: Subject, i: nat, j: nat)
    requires TrackOk(t, s, i, j)
    ensures BackOk(AfterGroup(sub, varies, t), s, i, j)
  {
  }

  /** After the quantifier. The item has matched n times from j to k; its first match,
      if any, ended at m. */
  lemma QuantTrack(atom: Atom, q: Quantifier, varies: bool, t: Track, n: nat, s: Subject, i: nat, j: nat, m: nat, k: nat)
    requires Allows(q, n) && j <= k <= |s| && BackOk(t, s, i, j)
    requires n == 0 ==> j == k
    requires n >= 1 ==> TrackOk(t, s, i, m) && t.first != Unset && j <= m <= k && (n == 1 ==> m == k)
    requires n >= 2 && atom.Chars? ==> i < m < k && Accepts(atom.sel, s[m])
    requires n >= 2 && atom.Parens? && t.groupSet && t.first.Fixed? ==> i < m < k && Matches(t.first, s[m])
    ensures TrackOk(AfterQuant(atom, q, varies, t), s, i, k)
  {
    if q.Quant? && q.lo == 0 {
      ReqGrows(t.zeroReq, t.zeroFirst, s, i, j, k);
    } else {
      TrackGrows(t, s, i, m, k);
    }
  }

  lemma {:induction false} BranchSound(b: Branch, varies: bool, t: Track, s: Subject, i: nat, j: nat, k: nat)
    requires TrackOk(t, s, i, j) && BranchSpan(b, s, j, k)
    ensures SummaryOk(BranchSummary(b, varies, t), s, i, k)
    decreases b, 0
  {
    match b
    case Empty =>
    case AnchorItem(_, rest) => BranchSound(rest, varies, t, s, i, j, k);
    case Item(Chars(sel), q, rest) =>
      var x: nat :| QuantSpan(b.atom, q, s, j, x) && BranchSpan(rest, s, x, k);
      var n: nat :| Allows(q, n) && Times(b.atom, n, s, j, x);
      var t1 := AfterChars(sel, varies, t);
      TimesIsRun(sel, n, s, j, x);
      CharsBack(sel, varies, t, s, i, j);
      if n >= 1 {
        CharsTrack(sel, varies, t, s, i, j);
      }
      QuantTrack(b.atom, q, varies, t1, n, s, i, j, j + 1, x);
      BranchSound(rest, VariesAfter(q, varies), AfterQuant(b.atom, q, varies, t1), s, i, x, k);
    case Item(Parens(cap, alts), q, rest) =>
      var x: nat :| QuantSpan(b.atom, q, s, j, x) && BranchSpan(rest, s, x, k);
      var n: nat :| Allows(q, n) && Times(b.atom, n, s, j, x);
      var sub := PatternSummary(alts, varies);
      var t1 := AfterGroup(sub, varies, t);
      GroupBack(sub, varies, t, s, i, j);
      var m := j;
      TimesBounds(b.atom, n, s, j, x);
      if n >= 1 {
        m := TimesSplit(b.atom, n, s, j, x);
        PatternSound(alts, varies, s, j, m);
        TimesBounds(b.atom, n - 1, s, m, x);
        PatternBounds(alts, s, j, m);
        GroupTrack(sub, varies, t, s, i, j, m);
        if n >= 2 {
          var m2 := TimesSplit(b.atom, n - 1, s, m, x);
          PatternSound(alts, varies, s, m, m2);
          TimesBounds(b.atom, n - 2, s, m2, x);
        }
      }
      QuantTrack(b.atom, q, sub.varies, t1, n, s, i, j, m, x);
      BranchSound(rest, VariesAfter(q, sub.varies), AfterQuant(b.atom, q, sub.varies, t1), s, i, x, k);
  }

  lemma MergeOk(first: Known, req: Known, branch: Summary, s: Subject, i: nat, k: nat)
    requires i <= k <= |s|
    requires (FirstOk(first, s, i, k) && ReqOk(req, first, s, i, k)) || SummaryOk(branch, s, i, k)
    ensures SummaryOk(Merge(first, req, branch), s, i, k)
  {
  }

  lemma {:induction false} OthersSound(p: Pattern, so: Summary, s: Subject, i: nat, k: nat)
    requires i <= k <= |s|
    requires SummaryOk(so, s, i, k) || PatternSpan(p, s, i, k)
    ensures SummaryOk(OthersSummary(p, so), s, i, k)
    decreases p, 1
  {
    if BranchSpan(p.b, s, i, k) {
      BranchSound(p.b, so.varies, START, s, i, i, k);
    }
    if SummaryOk(so, s, i, k) || BranchSpan(p.b, s, i, k) {
      MergeOk(so.first, so.req, BranchSummary(p.b, so.varies, START), s, i, k);
    }
    if p.OrElse? {
      OthersSound(p.others, Merge(so.first, so.req, BranchSummary(p.b, so.varies, START)), s, i, k);
    }
  }

  /** Whatever a pattern matches starts with its first character and contains its
      required character, up to case where they are flagged caseless. */
  lemma {:induction false} PatternSound(p: Pattern, varies: bool, s: Subject, i: nat, k: nat)
    requires PatternSpan(p, s, i, k)
    ensures SummaryOk(PatternSummary(p, varies), s, i, k)
    decreases p, 1
  {
    PatternBounds(p, s, i, k);
    if BranchSpan(p.b, s, i, k) {
      BranchSound(p.b, varies, START, s, i, i, k);
    }
    if p.OrElse? {
      OthersSound(p.others, BranchSummary(p.b, varies, START), s, i, k);
    }
  }
}
