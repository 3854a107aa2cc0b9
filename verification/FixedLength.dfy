/** The fixed length of a branch, as needed for lookbehind: the scan over the bytes, and
    the proof that an answer is exact. */
module FixedLength {
  import opened Opcodes
  import opened Bytecode
  import opened Matching
  import opened Machine
  import opened EmptinessScan

  // ----- the answer for a tree; -1 means that the length is not fixed -----

  function ItemLength(it: Item): int
    decreases it, 0
  {
    match it
    case One(_) => 1
    case Many(_, rep) => if rep.Exact? || (rep.Range? && rep.lo == rep.hi) then RepMin(rep) else -1
    case Assert(_) => 0
    case Group(zero, bra, _, body, ket) =>
      if zero == NoZero && (bra.Paren? ==> !bra.s && !bra.pos) then BranchesLength(CodeLength(body.code), body, -1, ket == Ket) else -1
  }

  function CodeLength(c: Code): int
    decreases c, 0
  {
    match c
    case Nil => 0
    case Cons(it, next) =>
      var d := ItemLength(it);
      var e := CodeLength(next);
      if d < 0 || e < 0 then -1 else d + e
  }

  /** The current branch, of length d, and the branches after it, when those before it all
      had length so (-1 for the first). A group that repeats without limit has no fixed
      length. */
  function BranchesLength(d: int, alts: Alts, so: int, once: bool): int
    decreases alts, 0
  {
    if d < 0 || (so >= 0 && so != d) then -1
    else if alts.Last? then (if once then d else -1)
    else BranchesLength(CodeLength(alts.rest.code), alts.rest, d, once)
  }

  function Plus(n: nat, d: int): int
  {
    if d < 0 then -1 else n + d
  }

  // ----- soundness -----

  /** No class repeat has the bounds 0 and 0, which would mean "any number": the compiler
      drops an item that may not occur at all. */
  predicate NoZeroRange(c: Code)
    decreases c
  {
    c.Cons? ==>
      && NoZeroRange(c.next)
      && (c.item.Many? && c.item.rep.Range? ==> !(c.item.rep.lo == 0 && c.item.rep.hi == 0))
      && (c.item.Group? ==> NoZeroRangeAlts(c.item.body))
  }

  predicate NoZeroRangeAlts(alts: Alts)
    decreases alts
  {
    NoZeroRange(alts.code) && (alts.More? ==> NoZeroRangeAlts(alts.rest))
  }

  /** A branch found to have fixed length n matches nothing but stretches of length n. */
  lemma {:induction false} FixedLengthIsExact(c: Code, s: Subject, i: nat, j: nat)
    requires NoZeroRange(c) && CodeLength(c) >= 0 && Span(c, s, i, j)
    ensures j - i == CodeLength(c)
    decreases c, 0
  {
    if c.Cons? {
      var m := SpanSplit(c, s, i, j);
      ItemIsExact(c.item, s, i, m);
      FixedLengthIsExact(c.next, s, m, j);
    }
  }

  lemma {:induction false} ItemIsExact(it: Item, s: Subject, i: nat, j: nat)
    requires NoZeroRange(Cons(it, Nil)) && ItemLength(it) >= 0 && ItemSpan(it, s, i, j)
    ensures j - i == ItemLength(it)
    decreases it, 1
  {
    if it.Group? {
      BranchesAreExact(it.body, -1, it.ket == Ket, s, i, j);
    }
  }

  lemma {:induction false} BranchesAreExact(alts: Alts, so: int, once: bool, s: Subject, i: nat, j: nat)
    requires NoZeroRangeAlts(alts) && BranchesLength(CodeLength(alts.code), alts, so, once) >= 0
    ensures once && (so >= 0 ==> so == BranchesLength(CodeLength(alts.code), alts, so, once))
    ensures AltsSpan(alts, s, i, j) ==> j - i == BranchesLength(CodeLength(alts.code), alts, so, once)
    decreases alts, 0
  {
    if Span(alts.code, s, i, j) {
      FixedLengthIsExact(alts.code, s, i, j);
    }
    if alts.More? {
      BranchesAreExact(alts.rest, CodeLength(alts.code), once, s, i, j);
    }
  }

  // ----- the scan -----

  /** The branches of a group from pc on, without the link fields, and what ends the last
      of them at e: a closing bracket, or OP_END put there for the scan. */
  ghost predicate BranchesAt(code: seq<byte>, pc: nat, rest: Code, alts: Alts, once: bool)
    decreases alts
  {
    var e := pc + Size(rest);
    && At(code, pc, rest) && e < |code|
    && if alts.Last? then
         && (if once then code[e] == OP_KET || code[e] == OP_END else OP_KETRMAX <= code[e] <= OP_KETRPOS)
       else
         code[e] == OP_ALT && BranchesAt(code, e + 3, alts.rest.code, alts.rest, once)
  }

  lemma {:induction false} GroupBranches(code: seq<byte>, p: nat, h: nat, alts: Alts, once: bool)
    requires h >= 3 && AltsAt(code, p, h, alts)
    requires var e := p + h + AltsSize(alts); e < |code| && (if once then code[e] == OP_KET || code[e] == OP_END else OP_KETRMAX <= code[e] <= OP_KETRPOS)
    ensures BranchesAt(code, p + h, alts.code, alts, once)
    decreases alts
  {
    if alts.More? {
      GroupBranches(code, p + h + Size(alts.code), 3, alts.rest, once);
    }
  }

  /** Opcodes that stand for an item of variable length, by themselves. */
  predicate IsVariable(op: byte)
  {
    || IsZero(op) || IsMarkedGroup(op) || op == OP_BRAPOS || op == OP_CBRAPOS
    || OP_KETRMAX <= op <= OP_KETRPOS
    || (IsCharRepeat(op) && op - RepeatBase(op) != EXACT_OFFSET)
  }

  method ClassLength(code: seq<byte>, pc: nat, ghost it: Item) returns (d: int, pc': nat)
    requires ItemAt(code, pc, it) && ItemEnd(code, pc + ItemSize(it))
    requires (it.One? || it.Many?) && it.sel.Set?
    ensures d == ItemLength(it) && (d >= 0 ==> pc' == pc + ItemSize(it))
  {
    if it.Many? {
      ManyOpcode(code, pc, it);
    }
    pc' := pc + OpLength(OP_CLASS);
    var op := code[pc'];
    if op == OP_CRRANGE || op == OP_CRMINRANGE || op == OP_CRPOSRANGE {
      if Get(code, pc' + 1) != Get(code, pc' + 3) {
        return -1, pc';
      }
      d, pc' := Get(code, pc' + 1), pc' + 5;
    } else if IsClassRepeat(op) {
      d := -1;
    } else {
      d := 1;
    }
  }

  lemma ManyExact(code: seq<byte>, pc: nat, it: Item)
    requires it.Many? && !it.sel.Set? && ItemAt(code, pc, it)
    ensures IsCharRepeat(code[pc])
    ensures code[pc] - RepeatBase(code[pc]) == EXACT_OFFSET <==> it.rep.Exact?
    ensures it.rep.Exact? ==> pc + 4 <= |code| && Get(code, pc + 1) == it.rep.count
  {
    var off := CharRepOp(it.sel, it.rep) - OP_STAR - 13 * Block(it.sel);
    assert RepeatBase(code[pc]) == OP_STAR + 13 * Block(it.sel) && code[pc] - RepeatBase(code[pc]) == off;
  }

  lemma GroupVariable(code: seq<byte>, pc: nat, it: Item)
    requires it.Group? && ItemAt(code, pc, it)
    ensures IsVariable(code[pc]) <==> it.zero != NoZero || (it.bra.Paren? && (it.bra.s || it.bra.pos))
    ensures !IsVariable(code[pc]) ==>
              && (code[pc] == OP_BRA || code[pc] == OP_CBRA || code[pc] == OP_ONCE)
              && (code[pc] == OP_CBRA <==> BraSize(it.bra) == 5)
  {
  }

  method ItemFixedLength(code: seq<byte>, pc: nat, ghost it: Item) returns (d: int, pc': nat)
    requires ItemAt(code, pc, it) && ItemEnd(code, pc + ItemSize(it))
    ensures d == ItemLength(it) && (d >= 0 ==> pc' == pc + ItemSize(it))
    decreases it, 1
  {
    var op := code[pc];
    pc' := pc;
    if it.One? {
      OneOpcode(code, pc, it);
    } else if it.Many? && !it.sel.Set? {
      ManyExact(code, pc, it);
    } else if it.Group? {
      GroupVariable(code, pc, it);
    }
    if IsVariable(op) {
      d := -1;
    } else if op == OP_BRA || op == OP_CBRA || op == OP_ONCE {
      d, pc' := GroupFixedLength(code, pc, it);
    } else if op == OP_CLASS || op == OP_NCLASS {
      d, pc' := ClassLength(code, pc, it);
    } else if OP_CHAR <= op <= OP_NOTI {
      d, pc' := 1, pc + 2;
    } else if OP_NOT_DIGIT <= op <= OP_ALLANY {
      d, pc' := 1, pc + 1;
    } else if IsCharRepeat(op) {
      d, pc' := Get(code, pc + 1), pc + 4;
    } else {
      d, pc' := 0, pc + OpLength(op);
    }
  }

  lemma BracketBranches(code: seq<byte>, p: nat, it: Item)
    requires BracketAt(code, p, it)
    ensures BranchesAt(code, p + BraSize(it.bra), it.body.code, it.body, it.ket == Ket)
    ensures Linked(code, p, BraSize(it.bra), it.body) && CloseAt(code, p + BraSize(it.bra) + AltsSize(it.body))
  {
    hide At, BranchesAt;
    GroupBranches(code, p, BraSize(it.bra), it.body, it.ket == Ket);
    AltsLinked(code, p, BraSize(it.bra), it.body);
  }

  method GroupFixedLength(code: seq<byte>, pc: nat, ghost it: Item) returns (d: int, pc': nat)
    requires it.Group? && ItemAt(code, pc, it) && !IsVariable(code[pc])
    ensures d == ItemLength(it) && (d >= 0 ==> pc' == pc + ItemSize(it))
    decreases it, 0
  {
    hide ItemAt, AltsAt, BracketAt, Linked, BranchesAt;
    GroupVariable(code, pc, it);
    BracketOf(code, pc, it);
    BracketBranches(code, pc, it);
    d := FindFixedLength(code, pc + (if code[pc] == OP_CBRA then 2 else 0), it.body, it.ket == Ket);
    pc' := FindKet(code, pc, BraSize(it.bra), it.body);
    pc' := pc' + 3;
  }

  /** The scan stands at cc with n characters of the current branch counted; the answer
      for what is left, rest and the branches of alts after it, is the final one. */
  ghost predicate Scanning(code: seq<byte>, cc: nat, rest: Code, alts: Alts, once: bool, n: nat, so: int, answer: int)
  {
    BranchesAt(code, cc, rest, alts, once) && answer == BranchesLength(Plus(n, CodeLength(rest)), alts, so, once)
  }

  /** One item: give up, or count its length. */
  method ScanItem(code: seq<byte>, cc: nat, n: nat, ghost rest: Code, ghost alts: Alts, ghost once: bool, ghost so: int, ghost answer: int)
    returns (d: int, cc': nat)
    requires rest.Cons? && Scanning(code, cc, rest, alts, once, n, so, answer)
    ensures d < 0 ==> answer == -1
    ensures d >= 0 ==> Scanning(code, cc', rest.next, alts, once, n + d, so, answer)
    decreases rest, 2
  {
    hide ItemAt, AltsAt;
    CodeStart(code, cc + ItemSize(rest.item), rest.next);
    d, cc' := ItemFixedLength(code, cc, rest.item);
  }

  lemma {:induction false} ScanEnd(code: seq<byte>, cc: nat, rest: Code, alts: Alts, once: bool, n: nat, so: int, answer: int)
    requires Scanning(code, cc, rest, alts, once, n, so, answer)
    ensures cc < |code|
    ensures code[cc] == OP_ALT ==>
              rest == Nil && alts.More?
              && (so >= 0 && so != n ==> answer == -1)
              && (so < 0 || so == n ==> Scanning(code, cc + 3, alts.rest.code, alts.rest, once, 0, n, answer))
    ensures code[cc] == OP_KET || code[cc] == OP_END ==> answer == if so >= 0 && so != n then -1 else n
    ensures OP_KETRMAX <= code[cc] <= OP_KETRPOS ==> answer == -1
    ensures code[cc] != OP_ALT && !IsKet(code[cc]) && code[cc] != OP_END ==> rest.Cons?
  {
    if rest.Cons? {
      ItemOpcode(code, cc, rest.item);
    }
  }

  /** The scan of the branches behind the three bytes at start. It gives up at the first
      item of variable length and at the first branch whose length differs. */
  method FindFixedLength(code: seq<byte>, start: nat, ghost alts: Alts, ghost once: bool) returns (length: int)
    requires BranchesAt(code, start + 3, alts.code, alts, once)
    ensures length == BranchesLength(CodeLength(alts.code), alts, -1, once)
    decreases alts, 2
  {
    length := -1;
    var branchlength: nat, cc: nat := 0, start + 3;
    ghost var rest, more, answer := alts.code, alts, BranchesLength(CodeLength(alts.code), alts, -1, once);
    while true
      invariant Scanning(code, cc, rest, more, once, branchlength, length, answer)
      invariant rest < alts && (more == alts || more < alts)
      decreases more, rest
    {
      ScanEnd(code, cc, rest, more, once, branchlength, length, answer);
      var op := code[cc];
      if op == OP_ALT || op == OP_KET || op == OP_END {
        if length < 0 {
          length := branchlength;
        } else if length != branchlength {
          return -1;
        }
        if op != OP_ALT {
          return;
        }
        cc, branchlength := cc + 3, 0;
        more := more.rest;
        rest := more.code;
      } else if OP_KETRMAX <= op <= OP_KETRPOS {
        return -1;
      } else {
        var d;
        d, cc := ScanItem(code, cc, branchlength, rest, more, once, length, answer);
        if d < 0 {
          return -1;
        }
        branchlength, rest := branchlength + d, rest.next;
      }
    }
  }
}
