/** The scan for emptiness as it runs over the bytes. */
module EmptinessScan {
  import opened Opcodes
  import opened Bytecode
  import opened Matching
  import opened Machine
  import opened Emptiness

  /** A bracket or ALT at p, h bytes long, followed by the branch c, whose end is an
      ALT or a closing bracket no later than limit. */
  ghost predicate BranchAt(code: seq<byte>, p: nat, h: nat, c: Code, limit: nat)
  {
    && p < |code| && h == OpLength(code[p])
    && At(code, p + h, c)
    && EndsAt(code, p + h + Size(c), limit)
  }

  /** A branch ends at e. */
  ghost predicate EndsAt(code: seq<byte>, e: nat, limit: nat)
  {
    e <= limit <= |code| && e + 3 <= |code| && (code[e] == OP_ALT || IsKet(code[e]))
  }

  /** Moves over the links of a group from its bracket to the closing one. */
  method FindKet(code: seq<byte>, p: nat, ghost h: nat, ghost alts: Alts) returns (q: nat)
    requires Linked(code, p, h, alts) && CloseAt(code, p + h + AltsSize(alts))
    ensures q == p + h + AltsSize(alts)
  {
    ghost var end, rest := p + h + AltsSize(alts), alts;
    q := p + Get(code, p + 1);
    while code[q] == OP_ALT
      invariant q <= end
      invariant if rest.More? then code[q] == OP_ALT && Linked(code, q, 3, rest.rest) && q + 3 + AltsSize(rest.rest) == end
                else q == end
      decreases end - q
    {
      q := q + Get(code, q + 1);
      rest := rest.rest;
    }
  }

  // ----- what an opcode says about the item it starts -----

  predicate IsPlainGroup(op: byte)
  {
    op == OP_BRA || op == OP_BRAPOS || op == OP_CBRA || op == OP_CBRAPOS || op == OP_ONCE
  }

  predicate IsMarkedGroup(op: byte)
  {
    OP_SBRA <= op <= OP_SCBRAPOS
  }

  predicate IsSingle(op: byte)
  {
    OP_NOT_DIGIT <= op <= OP_ALLANY || OP_CHAR <= op <= OP_NOTI
  }

  predicate IsCharRepeat(op: byte)
  {
    OP_STAR <= op <= OP_TYPEPOSUPTO
  }

  /** The repeats of a block that insist on a character: PLUS, MINPLUS, EXACT, POSPLUS. */
  predicate Insists(op: byte)
    requires IsCharRepeat(op)
  {
    var off := op - RepeatBase(op);
    off == 2 || off == 3 || off == EXACT_OFFSET || off == 10
  }

  lemma OneOpcode(code: seq<byte>, pc: nat, it: Item)
    requires it.One? && ItemAt(code, pc, it)
    ensures if it.sel.Set? then code[pc] == OP_CLASS || code[pc] == OP_NCLASS else IsSingle(code[pc])
  {
  }

  lemma ManyOpcode(code: seq<byte>, pc: nat, it: Item)
    requires it.Many? && ItemAt(code, pc, it)
    ensures !it.sel.Set? ==>
              IsCharRepeat(code[pc]) && OpLength(code[pc]) == ItemSize(it) && (Insists(code[pc]) <==> RepMin(it.rep) > 0)
    ensures it.sel.Set? ==>
              && (code[pc] == OP_CLASS || code[pc] == OP_NCLASS)
              && IsClassRepeat(code[pc + 33]) && 33 + OpLength(code[pc + 33]) == ItemSize(it)
  {
    if !it.sel.Set? {
      var off := CharRepOp(it.sel, it.rep) - OP_STAR - 13 * Block(it.sel);
      assert RepeatBase(code[pc]) == OP_STAR + 13 * Block(it.sel) && code[pc] - RepeatBase(code[pc]) == off;
    }
  }

  lemma GroupOpcode(code: seq<byte>, pc: nat, it: Item)
    requires it.Group? && ItemAt(code, pc, it)
    ensures it.zero != NoZero ==> IsZero(code[pc])
    ensures it.zero == NoZero ==>
              if it.bra.Paren? && it.bra.s then IsMarkedGroup(code[pc]) else IsPlainGroup(code[pc])
  {
  }

  /** The kind of an item can be told from its opcode, and so can the length of one that
      is neither a group nor a class. */
  lemma OpcodeTells(code: seq<byte>, pc: nat, it: Item)
    requires ItemAt(code, pc, it)
    ensures var op := code[pc];
            && (IsZero(op) <==> it.Group? && it.zero != NoZero)
            && (IsMarkedGroup(op) <==> it.Group? && it.zero == NoZero && it.bra.Paren? && it.bra.s)
            && (IsPlainGroup(op) <==> it.Group? && it.zero == NoZero && !(it.bra.Paren? && it.bra.s))
            && (op == OP_CLASS || op == OP_NCLASS <==> (it.One? || it.Many?) && it.sel.Set?)
            && ((it.One? || it.Many?) && !it.sel.Set? ==>
                  (IsSingle(op) || (IsCharRepeat(op) && Insists(op)) <==> it.One? || RepMin(it.rep) > 0))
            && (it.Assert? ==> !IsSingle(op) && !IsCharRepeat(op))
            && (it.Assert? || (it.Many? && !it.sel.Set?) ==> OpLength(op) == ItemSize(it))
  {
    hide GroupAt, AltsAt, At, OneAt, ManyAt;
    if it.One? {
      OneOpcode(code, pc, it);
    } else if it.Many? {
      ManyOpcode(code, pc, it);
    } else if it.Group? {
      GroupOpcode(code, pc, it);
    }
  }

  lemma GroupParts(code: seq<byte>, pc: nat, it: Item)
    requires it.Group? && ItemAt(code, pc, it)
    ensures BracketAt(code, pc + ZeroSize(it.zero), it)
    ensures Linked(code, pc + ZeroSize(it.zero), BraSize(it.bra), it.body)
    ensures CloseAt(code, pc + ItemSize(it) - 3)
  {
    hide ItemAt, AltsAt, Linked;
    BracketOf(code, pc, it);
    AltsLinked(code, pc + ZeroSize(it.zero), BraSize(it.bra), it.body);
  }

  /** A class is judged by the repeat that follows it. */
  method ClassCouldBeEmpty(code: seq<byte>, pc: nat, ghost it: Item) returns (empty: bool, pc': nat)
    requires ItemAt(code, pc, it) && ItemEnd(code, pc + ItemSize(it))
    requires (it.One? || it.Many?) && it.sel.Set?
    ensures empty == ItemCouldBeEmpty(it) && pc' == pc + ItemSize(it)
  {
    if it.Many? {
      ManyOpcode(code, pc, it);
    }
    var rep := code[pc + 33];
    pc' := pc + 33;
    if !IsClassRepeat(rep) {
      return false, pc';
    }
    pc' := pc' + OpLength(rep);
    var off := rep - OP_CRSTAR;
    if off == 2 || off == 3 || off == 9 {
      empty := false;
    } else if off == 6 || off == 7 || off == 11 {
      empty := Get(code, pc + 34) == 0;
    } else {
      empty := true;
    }
  }

  // ----- the scan -----

  method SkipItem(code: seq<byte>, pc: nat, endcode: nat, ghost it: Item) returns (empty: bool, pc': nat)
    requires ItemAt(code, pc, it) && ItemEnd(code, pc + ItemSize(it)) && pc + ItemSize(it) <= endcode <= |code|
    ensures empty == ItemCouldBeEmpty(it)
    ensures empty ==> pc' == pc + ItemSize(it)
    decreases it, 1
  {
    hide OneAt, ManyAt, GroupAt, AltsAt, At, ItemAt, Linked, IsZero, IsMarkedGroup, IsPlainGroup, IsSingle, IsCharRepeat, Insists;
    var op := code[pc];
    OpcodeTells(code, pc, it);
    if it.Group? {
      GroupParts(code, pc, it);
    }
    if IsZero(op) {
      var q := FindKet(code, pc + 1, BraSize(it.bra), it.body);
      empty, pc' := true, q + 3;
    } else if IsMarkedGroup(op) {
      var q := FindKet(code, pc, BraSize(it.bra), it.body);
      empty, pc' := true, q + 3;
    } else if IsPlainGroup(op) {
      empty, pc' := ScanGroup(code, pc, endcode, it);
    } else if op == OP_CLASS || op == OP_NCLASS {
      empty, pc' := ClassCouldBeEmpty(code, pc, it);
    } else if IsSingle(op) || (IsCharRepeat(op) && Insists(op)) {
      empty, pc' := false, pc;
    } else {
      empty, pc' := true, pc + OpLength(op);
    }
  }

  /** A group can be empty when one of its branches can; the rest are stepped over. */
  method ScanGroup(code: seq<byte>, pc: nat, endcode: nat, ghost it: Item) returns (empty: bool, pc': nat)
    requires BracketAt(code, pc, it) && CloseAt(code, pc + BraSize(it.bra) + AltsSize(it.body))
    requires pc + BraSize(it.bra) + AltsSize(it.body) + 3 <= endcode <= |code|
    requires OpLength(code[pc]) == BraSize(it.bra)
    ensures empty == AltsCouldBeEmpty(it.body)
    ensures empty ==> pc' == pc + BraSize(it.bra) + AltsSize(it.body) + 3
    decreases it, 0
  {
    hide At;
    ghost var end := pc + BraSize(it.bra) + AltsSize(it.body);
    empty := false;
    pc' := pc;
    ghost var alts := it.body;
    while true
      invariant pc' < |code| && OpLength(code[pc']) >= 3 && AltsAt(code, pc', OpLength(code[pc']), alts)
      invariant pc' + OpLength(code[pc']) + AltsSize(alts) == end
      invariant AltsCouldBeEmpty(it.body) == (empty || AltsCouldBeEmpty(alts))
      invariant alts == it.body || alts < it.body
      decreases alts
    {
      if !empty {
        empty := CouldBeEmptyBranch(code, pc', endcode, OpLength(code[pc']), alts.code);
      }
      pc' := pc' + Get(code, pc' + 1);
      if code[pc'] != OP_ALT {
        pc' := pc' + 3;
        return;
      }
      alts := alts.rest;
    }
  }

  /** Whether any branch of a completed group could be empty; the scan stops at the first
      that could. */
  method GroupCouldBeEmpty(code: seq<byte>, bracode: nat, ketcode: nat, ghost it: Item) returns (empty: bool)
    requires BracketAt(code, bracode, it) && ketcode == bracode + BraSize(it.bra) + AltsSize(it.body)
    requires CloseAt(code, ketcode) && OpLength(code[bracode]) == BraSize(it.bra)
    ensures empty == AltsCouldBeEmpty(it.body)
    ensures MarkedAlts(it.body) ==> (empty <==> AltsMatchEmpty(it.body))
  {
    hide AltsMatchEmpty, MatchesEmpty;
    if MarkedAlts(it.body) {
      AltsEmptyExactly(it.body);
    }
    var scode: nat := bracode;
    ghost var alts := it.body;
    while true
      invariant scode < |code| && OpLength(code[scode]) >= 3 && AltsAt(code, scode, OpLength(code[scode]), alts)
      invariant scode + OpLength(code[scode]) + AltsSize(alts) == ketcode
      invariant AltsCouldBeEmpty(it.body) == AltsCouldBeEmpty(alts)
      decreases alts
    {
      empty := CouldBeEmptyBranch(code, scode, ketcode, OpLength(code[scode]), alts.code);
      if empty {
        return;
      }
      scode := scode + Get(code, scode + 1);
      if code[scode] != OP_ALT {
        return;
      }
      alts := alts.rest;
    }
  }

  /** The scan of one branch. Control passes over each item in turn; the first item
      that must consume a character settles the question. */
  method CouldBeEmptyBranch(code: seq<byte>, start: nat, endcode: nat, ghost h: nat, ghost c: Code) returns (r: bool)
    requires BranchAt(code, start, h, c, endcode)
    ensures r == CouldBeEmpty(c)
    ensures Marked(c) ==> (r <==> MatchesEmpty(c))
    decreases c, 2
  {
    hide ItemAt, Linked, IsZero, MatchesEmpty, Marked, OpLength, ItemCouldBeEmpty;
    if Marked(c) {
      EmptyExactly(c);
    }
    var pc: nat := start + OpLength(code[start]);
    ghost var rest := c;
    while pc < endcode
      invariant At(code, pc, rest) && EndsAt(code, pc + Size(rest), endcode)
      invariant CouldBeEmpty(c) == CouldBeEmpty(rest)
      invariant rest == c || rest < c
      decreases rest
    {
      var op := code[pc];
      if op == OP_ALT || IsKet(op) {
        if rest.Cons? {
          ItemOpcode(code, pc, rest.item);
        }
        return true;
      }
      CodeStart(code, pc + ItemSize(rest.item), rest.next);
      var empty;
      empty, pc := SkipItem(code, pc, endcode, rest.item);
      if !empty {
        return false;
      }
      rest := rest.next;
    }
    return true;
  }

  lemma ItemOpcode(code: seq<byte>, pc: nat, it: Item)
    requires ItemAt(code, pc, it)
    ensures code[pc] != OP_ALT && !IsKet(code[pc]) && code[pc] != OP_END
  {
    if it.One? {
      OneOpcode(code, pc, it);
    } else if it.Many? {
      ManyOpcode(code, pc, it);
    } else if it.Group? {
      GroupOpcode(code, pc, it);
    }
  }
}
