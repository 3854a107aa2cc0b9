/** The auto-possessification test as it runs over the bytes: the properties of one item,
    and the walk through what follows the repeat. */
module CompareScan {
  import opened Opcodes
  import opened Bytecode
  import opened Matching
  import opened Machine
  import opened Links
  import opened EmptinessScan
  import opened CharSets
  import opened AutoPossess
  import Ordered

  /** The properties of one item: a normalised opcode, a flag (can be empty, or for the
      repeat under test: is greedy), its listed characters, and for a class how far its
      bitmap starts before the end of the item. */
  datatype PropList = PropList(op: byte, flag: bool, chars: seq<byte>, back: nat)

  /** list describes the characters of sel; the item ends at end. */
  ghost predicate Lists(list: PropList, code: seq<byte>, end: nat, sel: Sel)
  {
    match sel
    case Lit(_, _, negated) => list.op == (if negated then OP_NOT else OP_CHAR) && list.chars == Chars(sel)
    case Type(t) => list.op == t
    case Set(_, bits) =>
      && (list.op == OP_CLASS || list.op == OP_NCLASS)
      && list.back <= end && end - list.back + 32 <= |code|
      && code[end - list.back..end - list.back + 32] == bits
  }

  // ----- the properties of an item -----

  /** Of a literal, with the other case added when there is one. */
  method LiteralList(op: byte, c: byte, flag: bool, ghost sel: Sel) returns (list: PropList)
    requires OP_CHAR <= op <= OP_NOTI && sel == Lit(c, op == OP_CHARI || op == OP_NOTI, op >= OP_NOT)
    ensures Lists(list, [], 0, sel) && list.flag == flag
  {
    if op == OP_CHAR || op == OP_NOT {
      list := PropList(op, flag, [c], 0);
    } else {
      var other := OtherCase(c);
      list := PropList(if op == OP_CHARI then OP_CHAR else OP_NOT, flag, if c == other then [c] else [c, other], 0);
    }
  }

  /** Of a class, whose repeat, if any, follows the bitmap. */
  method ClassList(code: seq<byte>, pc: nat, ghost it: Item) returns (list: PropList, end: nat)
    requires ItemAt(code, pc, it) && ItemEnd(code, pc + ItemSize(it))
    requires (it.One? || it.Many?) && it.sel.Set?
    ensures end == pc + ItemSize(it) && Lists(list, code, end, it.sel)
    ensures list.flag == (it.Many? && RepMin(it.rep) == 0)
  {
    if it.Many? {
      ManyOpcode(code, pc, it);
    }
    var flag := false;
    end := pc + 33;
    var op := code[end];
    if op == OP_CRSTAR || op == OP_CRSTAR + 1 || op == OP_CRSTAR + 4 || op == OP_CRSTAR + 5 || op == OP_CRPOSSTAR || op == OP_CRPOSSTAR + 2 {
      flag := true;
      end := end + 1;
    } else if op == OP_CRSTAR + 2 || op == OP_CRSTAR + 3 || op == OP_CRPOSSTAR + 1 {
      end := end + 1;
    } else if op == OP_CRRANGE || op == OP_CRMINRANGE || op == OP_CRPOSRANGE {
      flag := Get(code, end + 1) == 0;
      end := end + 5;
    }
    list := PropList(code[pc], flag, [], end - (pc + 1));
  }

  /** What the opcode of a repeated literal or type says. */
  lemma RepeatOpcode(code: seq<byte>, pc: nat, it: Item)
    requires it.Many? && !it.sel.Set? && ItemAt(code, pc, it)
    ensures IsCharRepeat(code[pc])
    ensures RepeatBase(code[pc]) == OP_STAR + 13 * Block(it.sel)
    ensures var off := code[pc] - RepeatBase(code[pc]);
            && (off == UPTO_OFFSET || off == MINUPTO_OFFSET || off == EXACT_OFFSET || off == POSUPTO_OFFSET <==> ItemSize(it) == 4)
            && (off == 2 || off == 3 || off == EXACT_OFFSET || off == 10 <==> RepMin(it.rep) != 0)
    ensures code[pc + ItemSize(it) - 1] == Arg(it.sel)
  {
    var off := CharRepOp(it.sel, it.rep) - OP_STAR - 13 * Block(it.sel);
    assert RepeatBase(code[pc]) == OP_STAR + 13 * Block(it.sel) && code[pc] - RepeatBase(code[pc]) == off;
  }

  method RepeatList(code: seq<byte>, pc: nat, ghost it: Item) returns (list: PropList, end: nat)
    requires it.Many? && !it.sel.Set? && ItemAt(code, pc, it)
    ensures end == pc + ItemSize(it) && Lists(list, code, end, it.sel) && list.flag == (RepMin(it.rep) == 0)
  {
    RepeatOpcode(code, pc, it);
    var base := RepeatBase(code[pc]);
    var off := code[pc] - base;
    end := pc + 1;
    if off == UPTO_OFFSET || off == MINUPTO_OFFSET || off == EXACT_OFFSET || off == POSUPTO_OFFSET {
      end := end + 2;
    }
    var flag := off != 2 && off != 3 && off != EXACT_OFFSET && off != 10;
    if base == OP_TYPESTAR {
      list := PropList(code[end], flag, [], 0);
    } else {
      var op := if base == OP_STAR then OP_CHAR else if base == OP_STARI then OP_CHARI else if base == OP_NOTSTAR then OP_NOT else OP_NOTI;
      list := LiteralList(op, code[end], flag, it.sel);
    }
    end := end + 1;
  }

  /** The item at pc, or refusal of one that is neither a character item nor an end
      anchor. */
  method GetChrPropertyList(code: seq<byte>, pc: nat, ghost it: Item) returns (ok: bool, list: PropList, end: nat)
    requires ItemAt(code, pc, it) && ItemEnd(code, pc + ItemSize(it))
    ensures ok <==> it.One? || it.Many? || (it.Assert? && (it.anchor == Eod || it.anchor == Doll))
    ensures ok ==> end == pc + ItemSize(it) && list.flag == (it.Many? && RepMin(it.rep) == 0)
    ensures ok && it.Assert? ==> list.op == AnchorOp(it.anchor)
    ensures ok && !it.Assert? ==> Lists(list, code, end, it.sel)
  {
    if it.One? {
      OneOpcode(code, pc, it);
    } else if it.Many? {
      ManyOpcode(code, pc, it);
    } else if it.Group? {
      GroupOpcode(code, pc, it);
    }
    var c := code[pc];
    ok, end, list := true, pc, PropList(c, false, [], 0);
    if OP_STAR <= c <= OP_TYPEPOSUPTO {
      list, end := RepeatList(code, pc, it);
    } else if OP_NOT_DIGIT <= c <= OP_ALLANY || c == OP_EOD || c == OP_DOLL {
      end := pc + 1;
    } else if OP_CHAR <= c <= OP_NOTI {
      list := LiteralList(c, code[pc + 1], false, it.sel);
      end := pc + 2;
    } else if c == OP_CLASS || c == OP_NCLASS {
      list, end := ClassList(code, pc, it);
    } else {
      ok := false;
    }
  }

  // ----- comparing two items -----

  /** A listed character against an item or end anchor. */
  predicate Meets(t: Item, x: byte)
    requires t.One? || t.Many? || t.Assert?
  {
    if t.Assert? then t.anchor != Eod && IsNewlineLike(x) else Clash(t.sel, x)
  }

  /** list was made for t, which ends at end. */
  ghost predicate Describes(list: PropList, code: seq<byte>, end: nat, t: Item)
  {
    if t.Assert? then list.op == AnchorOp(t.anchor) && (t.anchor == Eod || t.anchor == Doll)
    else (t.One? || t.Many?) && Lists(list, code, end, t.sel)
  }

  method Member(chars: seq<byte>, x: byte) returns (r: bool)
    ensures r <==> x in chars
  {
    var i := 0;
    while i < |chars|
      invariant 0 <= i <= |chars| && x !in chars[..i]
    {
      if x == chars[i] {
        return true;
      }
      i := i + 1;
    }
    return false;
  }

  method CharMeets(code: seq<byte>, x: byte, list: PropList, end: nat, ghost t: Item) returns (r: bool)
    requires Describes(list, code, end, t)
    ensures r == Meets(t, x)
  {
    var op := list.op;
    if op == OP_CHAR {
      r := Member(list.chars, x);
    } else if op == OP_NOT {
      var found := Member(list.chars, x);
      r := !found;
    } else if op == OP_DIGIT || op == OP_NOT_DIGIT {
      r := IsDigit(x) == (op == OP_DIGIT);
    } else if op == OP_WHITESPACE || op == OP_NOT_WHITESPACE {
      r := IsSpace(x) == (op == OP_WHITESPACE);
    } else if op == OP_WORDCHAR {
      r := x < 255 && IsWord(x);
    } else if op == OP_NOT_WORDCHAR {
      r := !IsWord(x);
    } else if op == OP_DOLL {
      r := IsNewlineLike(x);
    } else if op == OP_EOD {
      r := false;
    } else if op == OP_CLASS || op == OP_NCLASS {
      var bitset := code[end - list.back..end - list.back + 32];
      r := Bit(bitset[x / 8], x % 8);
    } else {
      r := true;
    }
  }

  /** All characters of a short list against the other side. */
  method CharsMeet(code: seq<byte>, chars: seq<byte>, list: PropList, end: nat, ghost t: Item) returns (r: bool)
    requires Describes(list, code, end, t)
    ensures r <==> exists x :: x in chars && Meets(t, x)
  {
    var i := 0;
    while i < |chars|
      invariant 0 <= i <= |chars|
      invariant forall x :: x in chars[..i] ==> !Meets(t, x)
    {
      var hit := CharMeets(code, chars[i], list, end, t);
      if hit {
        return true;
      }
      i := i + 1;
    }
    return false;
  }

  /** Two bitmaps byte by byte, the second one inverted on demand. */
  method MapsDisjoint(set1: Bitmap, set2: Bitmap, invert: bool) returns (r: bool)
    ensures r <==> forall k :: 0 <= k < 32 ==> And(set1[k], if invert then Not(set2[k]) else set2[k]) == 0
  {
    var k := 0;
    while k < 32
      invariant 0 <= k <= 32
      invariant forall n :: 0 <= n < k ==> And(set1[n], if invert then Not(set2[n]) else set2[n]) == 0
    {
      if And(set1[k], if invert then Not(set2[k]) else set2[k]) != 0 {
        return false;
      }
      k := k + 1;
    }
    return true;
  }

  /** A class against an item that is not a list of characters. */
  method ClassDisjoint(code: seq<byte>, set1: Bitmap, list: PropList, end: nat, ghost t: Item) returns (r: bool)
    requires Describes(list, code, end, t)
    ensures r == (!t.Assert? && !IsList(t.sel) && Disjoint(Set(false, set1), t.sel))
  {
    var op := list.op;
    if op == OP_CLASS || op == OP_NCLASS {
      r := MapsDisjoint(set1, code[end - list.back..end - list.back + 32], false);
    } else if OP_NOT_DIGIT <= op <= OP_WORDCHAR {
      var table: Bitmap := seq(32, k requires 0 <= k < 32 => TypeByte(op, k));
      r := MapsDisjoint(set1, table, IsNegated(op));
      TypeMaps(set1, op);
    } else {
      r := false;
    }
  }

  lemma TypeMaps(set1: Bitmap, t: TypeOp)
    requires HasBitmap(t)
    ensures BitmapsDisjoint(set1, TypeBits(t)) <==>
            forall k :: 0 <= k < 32 ==> And(set1[k], if IsNegated(t) then Not(TypeByte(t, k)) else TypeByte(t, k)) == 0
  {
    assert forall k :: 0 <= k < 32 ==> TypeBits(t)[k] == if IsNegated(t) then Not(TypeByte(t, k)) else TypeByte(t, k);
  }

  /** Whether the base excludes an item or end anchor. */
  function Excludes(base: Sel, t: Item): bool
    requires t.One? || t.Many? || t.Assert?
  {
    if t.Assert? then AnchorExcludes(base, t.anchor) else Disjoint(base, t.sel)
  }

  lemma DisjointSwaps(a: Bitmap, b: Sel)
    requires !IsList(b)
    ensures Disjoint(Set(true, a), b) == Disjoint(Set(false, a), b)
    ensures b.Type? || b.Lit? ==> Disjoint(b, Set(true, a)) == Disjoint(Set(false, a), b)
    ensures b.Type? || b.Lit? ==> Disjoint(b, Set(false, a)) == Disjoint(Set(false, a), b)
  {
  }

  method ItemsDisjoint(code: seq<byte>, base: PropList, baseEnd: nat, list: PropList, end: nat, ghost b: Sel, ghost t: Item) returns (r: bool)
    requires Lists(base, code, baseEnd, b) && Describes(list, code, end, t)
    ensures r == Excludes(b, t)
  {
    if base.op == OP_CHAR {
      var meet := CharsMeet(code, base.chars, list, end, t);
      r := !meet;
    } else if list.op == OP_CHAR {
      var meet := CharsMeet(code, list.chars, base, baseEnd, One(b));
      r := !meet;
    } else if base.op == OP_CLASS || base.op == OP_NCLASS {
      DisjointSwaps(b.bits, if t.Assert? then b else t.sel);
      r := ClassDisjoint(code, code[baseEnd - base.back..baseEnd - base.back + 32], list, end, t);
    } else if list.op == OP_CLASS || list.op == OP_NCLASS {
      DisjointSwaps(t.sel.bits, b);
      r := ClassDisjoint(code, code[end - list.back..end - list.back + 32], base, baseEnd, One(b));
    } else {
      var left, right := base.op, list.op;
      r := OP_NOT_DIGIT <= left <= OP_ALLANY &&
           if right == OP_EOD then true
           else if right == OP_DOLL then left == OP_DIGIT || left == OP_NOT_WHITESPACE || left == OP_WORDCHAR
           else OP_NOT_DIGIT <= right <= OP_ALLANY && TypesDisjoint(left, right);
    }
  }

  // ----- where a branch leads -----

  /** The closing bracket of the group whose branch ends at e. */
  function KetOf(code: seq<byte>, e: nat): int
  {
    if e < |code| && code[e] == OP_ALT then SkipAlts(code, e) else e
  }

  /** The branch c is at pc and is followed by what ctx says. */
  ghost predicate CodeIn(code: seq<byte>, pc: nat, c: Code, ctx: Ctx)
    decreases ctx, 1
  {
    At(code, pc, c) && ExitAt(code, pc + Size(c), ctx)
  }

  ghost predicate ExitAt(code: seq<byte>, e: nat, ctx: Ctx)
    decreases ctx, 0
  {
    e < |code| &&
    match ctx
    case AtEnd => code[e] == OP_END
    case In(it, next, up) =>
      var q := KetOf(code, e);
      && it.Group? && 0 <= q && CloseAt(code, q) && KetHere(code, q, it)
      && CodeIn(code, q + 3, next, up)
  }

  /** The closing bracket at q belongs to the group it. */
  predicate KetHere(code: seq<byte>, q: nat, it: Item)
    requires it.Group? && CloseAt(code, q)
  {
    var p := q - Get(code, q + 1);
    code[q] == KetOp(it.ket) && 0 <= p && code[p] == BraOp(it.bra)
  }

  lemma ExitOpcode(code: seq<byte>, e: nat, ctx: Ctx)
    requires ExitAt(code, e, ctx)
    ensures code[e] == OP_ALT ==> var q := SkipAlts(code, e); 0 <= q < |code| && IsKet(code[q]) && ExitAt(code, q, ctx)
    ensures code[e] == OP_ALT || IsKet(code[e]) || code[e] == OP_END
    ensures code[e] == OP_END ==> ctx.AtEnd?
    ensures IsKet(code[e]) ==> ctx.In? && ctx.it.Group? && CloseAt(code, e) && KetHere(code, e, ctx.it) && CodeIn(code, e + 3, ctx.next, ctx.up)
  {
    if code[e] == OP_ALT {
      var q := SkipAlts(code, e);
      assert KetOf(code, q) == q;
    }
  }

  /** The header of one of the branches of a group, with the rest of the group. */
  ghost predicate HeaderIn(code: seq<byte>, p: nat, h: nat, alts: Alts, ctx: Ctx)
  {
    && h >= 3 && AltsAt(code, p, h, alts)
    && CloseAt(code, p + h + AltsSize(alts)) && ExitAt(code, p + h + AltsSize(alts), ctx)
  }

  lemma {:induction false} HeaderStep(code: seq<byte>, p: nat, h: nat, alts: Alts, ctx: Ctx)
    requires ctx.In? && HeaderIn(code, p, h, alts, ctx)
    ensures CodeIn(code, p + h, alts.code, ctx)
    ensures var q := p + Get(code, p + 1);
            && q < |code| && (code[q] == OP_ALT <==> alts.More?)
            && (alts.More? ==> HeaderIn(code, q, 3, alts.rest, ctx))
  {
    hide ItemAt, Linked, ExitAt;
    var q, ket := p + h + Size(alts.code), p + h + AltsSize(alts);
    if alts.More? {
      AltsSkip(code, q, 3, alts.rest);
    }
    assert KetOf(code, q) == ket == KetOf(code, ket);
    ExitSame(code, q, ket, ctx);
  }

  lemma ExitSame(code: seq<byte>, e: nat, q: nat, ctx: Ctx)
    requires ctx.In? && ExitAt(code, q, ctx) && e < |code| && KetOf(code, e) == KetOf(code, q)
    ensures ExitAt(code, e, ctx)
  {
    hide At, CodeIn, KetHere, KetOf;
  }

  /** A branch at pc whose header links to next. */
  ghost predicate BranchIn(code: seq<byte>, pc: nat, next: nat, alts: Alts, ctx: Ctx)
  {
    && next < |code| && CodeIn(code, pc, alts.code, ctx)
    && (code[next] == OP_ALT <==> alts.More?)
    && (alts.More? ==> HeaderIn(code, next, 3, alts.rest, ctx))
  }

  lemma {:induction false} FirstBranch(code: seq<byte>, p: nat, h: nat, alts: Alts, ctx: Ctx)
    requires ctx.In? && HeaderIn(code, p, h, alts, ctx)
    ensures BranchIn(code, p + h, p + Get(code, p + 1), alts, ctx)
  {
    HeaderStep(code, p, h, alts, ctx);
  }

  lemma {:induction false} NextBranch(code: seq<byte>, pc: nat, next: nat, alts: Alts, ctx: Ctx)
    requires ctx.In? && BranchIn(code, pc, next, alts, ctx) && alts.More?
    ensures next + 2 < |code| && BranchIn(code, next + 3, next + Get(code, next + 1), alts.rest, ctx)
  {
    FirstBranch(code, next, 3, alts.rest, ctx);
  }

  lemma {:induction false} GroupHeader(code: seq<byte>, pc: nat, it: Item, next: Code, ctx: Ctx)
    requires it.Group? && CodeIn(code, pc, Cons(it, next), ctx)
    ensures var p := pc + ZeroSize(it.zero);
            && HeaderIn(code, p, BraSize(it.bra), it.body, In(Bare(it), next, ctx))
            && code[p] == BraOp(it.bra)
  {
    hide ItemAt, AltsAt;
    var p := pc + ZeroSize(it.zero);
    GroupElim(code, pc, it);
    KetCloses(code, p, BraSize(it.bra) + AltsSize(it.body), it.ket);
    var q := p + BraSize(it.bra) + AltsSize(it.body);
    assert KetHere(code, q, Bare(it)) && KetOf(code, q) == q;
    assert CodeIn(code, q + 3, next, ctx);
  }

  lemma {:induction false} BareItem(code: seq<byte>, pc: nat, it: Item)
    requires it.Group? && it.zero != NoZero && ItemAt(code, pc, it)
    ensures ItemAt(code, pc + 1, Bare(it))
    ensures ItemSize(Bare(it)) + 1 == ItemSize(it) == BraSize(it.bra) + AltsSize(it.body) + 4
  {
    hide AltsAt, ItemAt;
    GroupElim(code, pc, it);
    assert HeadAt(code, pc + 1, NoZero, it.bra, it.num);
    GroupIntro(code, pc + 1, Group(NoZero, it.bra, it.num, it.body, it.ket));
  }

  lemma {:induction false} BareLinks(code: seq<byte>, p: nat, it: Item)
    requires it.Group? && it.zero == NoZero && ItemAt(code, p, it)
    ensures Linked(code, p, BraSize(it.bra), it.body) && CloseAt(code, p + BraSize(it.bra) + AltsSize(it.body))
  {
    GroupElim(code, p, it);
    AltsLinked(code, p, BraSize(it.bra), it.body);
    KetCloses(code, p, BraSize(it.bra) + AltsSize(it.body), it.ket);
  }

  lemma {:induction false} BareAt(code: seq<byte>, pc: nat, it: Item, next: Code, ctx: Ctx)
    requires it.Group? && it.zero != NoZero && CodeIn(code, pc, Cons(it, next), ctx)
    ensures CodeIn(code, pc + 1, Cons(Bare(it), next), ctx)
    ensures Linked(code, pc + 1, BraSize(it.bra), it.body) && CloseAt(code, pc + 1 + BraSize(it.bra) + AltsSize(it.body))
    ensures CodeIn(code, pc + ItemSize(it), next, ctx) && ItemSize(it) == BraSize(it.bra) + AltsSize(it.body) + 4
    ensures Size(Cons(Bare(it), next)) + 1 == Size(Cons(it, next)) > Size(next)
  {
    hide ItemAt, ExitAt, AltsAt, Linked, CloseAt;
    BareItem(code, pc, it);
    BareLinks(code, pc + 1, Bare(it));
  }

  lemma CompareZero(it: Item, next: Code, ctx: Ctx, b: Base, entered: bool)
    requires it.Group? && it.zero != NoZero
    ensures Compare(Cons(it, next), ctx, b, entered) <==>
            && (it.zero == BraZero || it.zero == BraMinZero) && (it.bra.Once? || (!it.bra.s && !it.bra.pos))
            && Compare(next, ctx, b, false) && Compare(Cons(Bare(it), next), ctx, b, entered)
  {
  }

  /** An opcode the test walks into. */
  predicate IsOpenable(op: byte) { op == OP_BRA || op == OP_CBRA || op == OP_ONCE }

  /** The walk is at pc in front of c, and the answer for that is the final one. */
  ghost predicate Looking(code: seq<byte>, pc: nat, c: Code, ctx: Ctx, b: Base, entered: bool, answer: bool)
  {
    CodeIn(code, pc, c, ctx) && answer == Compare(c, ctx, b, entered)
  }

  method SkipToKet(code: seq<byte>, p: nat) returns (q: nat)
    requires SkipAlts(code, p) >= 0
    ensures q == SkipAlts(code, p) && q < |code|
  {
    q := p + Get(code, p + 1);
    while code[q] == OP_ALT
      invariant q + 3 <= |code| && SkipAlts(code, p) >= 0
      invariant if code[q] == OP_ALT then SkipAlts(code, q) == SkipAlts(code, p) else q == SkipAlts(code, p)
      decreases |code| - q
    {
      q := q + Get(code, q + 1);
    }
  }

  /** The end of a branch: the answer, or on behind the group. */
  method CompareExit(code: seq<byte>, start: nat, greedy: bool, entered: bool, ghost ctx: Ctx, ghost b: Base, ghost answer: bool)
    returns (done: bool, r: bool, pc: nat)
    requires Looking(code, start, Nil, ctx, b, entered, answer) && greedy == b.greedy
    ensures done ==> r == answer
    ensures !done ==> ctx.In? && Looking(code, pc, ctx.next, ctx.up, b, entered, answer)
  {
    pc := start;
    ExitOpcode(code, pc, ctx);
    if code[pc] == OP_ALT {
      pc := SkipToKet(code, pc);
      ExitOpcode(code, pc, ctx);
    }
    var op := code[pc];
    if op == OP_END || op == OP_KETRPOS {
      return true, greedy, pc;
    }
    if op != OP_KET || !greedy {
      return true, false, pc;
    }
    if code[pc - Get(code, pc + 1)] == OP_ONCE {
      return true, !entered, pc;
    }
    return false, false, pc + 3;
  }

  method CompareItem(code: seq<byte>, start: nat, base: PropList, baseEnd: nat, entered: bool,
                     ghost c: Code, ghost ctx: Ctx, ghost b: Base, ghost answer: bool) returns (done: bool, r: bool, pc: nat)
    requires c.Cons? && !c.item.Group? && Looking(code, start, c, ctx, b, entered, answer)
    requires Lists(base, code, baseEnd, b.sel)
    ensures done ==> r == answer
    ensures !done ==> Looking(code, pc, c.next, ctx, b, entered, answer)
  {
    InnerEnd(code, start, c, ctx);
    var ok, list;
    ok, list, pc := GetChrPropertyList(code, start, c.item);
    if !ok {
      return true, false, pc;
    }
    var disjoint := ItemsDisjoint(code, base, baseEnd, list, pc, b.sel, c.item);
    if !disjoint {
      return true, false, pc;
    }
    return !list.flag, true, pc;
  }

  /** An item that starts no group ends where something else starts. */
  lemma InnerEnd(code: seq<byte>, pc: nat, c: Code, ctx: Ctx)
    requires c.Cons? && CodeIn(code, pc, c, ctx)
    ensures ItemEnd(code, pc + ItemSize(c.item))
    ensures CodeIn(code, pc + ItemSize(c.item), c.next, ctx)
  {
    ExitOpcode(code, pc + Size(c), ctx);
    CodeStart(code, pc + ItemSize(c.item), c.next);
  }

  /** What the opcode says about the item it starts, as far as the walk cares. */
  lemma WalkOpcode(code: seq<byte>, pc: nat, c: Code, ctx: Ctx)
    requires CodeIn(code, pc, c, ctx)
    ensures pc < |code|
    ensures c == Nil <==> code[pc] == OP_ALT || IsKet(code[pc]) || code[pc] == OP_END
    ensures IsOpenable(code[pc]) <==> c.Cons? && c.item.Group? && c.item.zero == NoZero && (c.item.bra.Once? || (!c.item.bra.s && !c.item.bra.pos))
    ensures IsOpenable(code[pc]) ==> OpLength(code[pc]) == BraSize(c.item.bra)
    ensures code[pc] == OP_BRAZERO || code[pc] == OP_BRAMINZERO <==> c.Cons? && c.item.Group? && (c.item.zero == BraZero || c.item.zero == BraMinZero)
    ensures IsZero(code[pc]) || IsMarkedGroup(code[pc]) || IsPlainGroup(code[pc]) <==> c.Cons? && c.item.Group?
  {
    hide ItemAt, CloseAt, KetHere;
    ExitOpcode(code, pc + Size(c), ctx);
    if c.Cons? {
      ItemOpcode(code, pc, c.item);
      ItemWalk(code, pc, c.item);
    }
  }

  lemma ItemWalk(code: seq<byte>, pc: nat, it: Item)
    requires ItemAt(code, pc, it)
    ensures pc < |code|
    ensures IsOpenable(code[pc]) <==> it.Group? && it.zero == NoZero && (it.bra.Once? || (!it.bra.s && !it.bra.pos))
    ensures IsOpenable(code[pc]) ==> OpLength(code[pc]) == BraSize(it.bra)
    ensures code[pc] == OP_BRAZERO || code[pc] == OP_BRAMINZERO <==> it.Group? && (it.zero == BraZero || it.zero == BraMinZero)
    ensures IsZero(code[pc]) || IsMarkedGroup(code[pc]) || IsPlainGroup(code[pc]) <==> it.Group?
  {
    hide AltsAt, KetAt;
    if it.One? {
      OneOpcode(code, pc, it);
    } else if it.Many? {
      ManyOpcode(code, pc, it);
    } else if it.Group? {
      GroupOpcode(code, pc, it);
    }
  }

  lemma GroupShrinks(c: Code, ctx: Ctx)
    requires c.Cons? && c.item.Group?
    ensures AltsSize(c.item.body) + CtxSize(In(c.item, c.next, ctx)) < Size(c) + CtxSize(ctx)
  {
  }

  /** The walk through a group: all branches but the last are tested by calls of their
      own; the caller goes on with the last one. */
  method CompareEarlier(code: seq<byte>, start: nat, next0: nat, base: PropList, baseEnd: nat,
                        ghost b: Base, ghost alts: Alts, ghost ctx: Ctx) returns (ok: bool, pc: nat, ghost last: Code)
    requires BranchIn(code, start, next0, alts, ctx) && ctx.In?
    requires Lists(base, code, baseEnd, b.sel) && base.flag == b.greedy
    ensures !ok ==> !CompareBranches(alts, ctx, b)
    ensures ok ==> CodeIn(code, pc, last, ctx) && Size(last) <= AltsSize(alts)
    ensures ok ==> CompareBranches(alts, ctx, b) == Compare(last, ctx, b, true)
    decreases AltsSize(alts) + CtxSize(ctx), 1
  {
    hide Lists, CodeIn, HeaderIn, At;
    ghost var rest := alts;
    var next: nat := next0;
    pc := start;
    while code[next] == OP_ALT
      invariant BranchIn(code, pc, next, rest, ctx)
      invariant CompareBranches(alts, ctx, b) == CompareBranches(rest, ctx, b)
      invariant AltsSize(rest) <= AltsSize(alts)
      decreases AltsSize(rest)
    {
      var r := CompareOpcodes(code, pc, base, baseEnd, b, rest.code, ctx);
      if !r {
        return false, pc, Nil;
      }
      NextBranch(code, pc, next, rest, ctx);
      rest := rest.rest;
      pc := next + 3;
      next := next + Get(code, next + 1);
    }
    ok, last := true, rest.code;
  }

  /** In front of a group: the answer is false, or the walk goes on inside its last
      branch. */
  method CompareGroup(code: seq<byte>, start: nat, base: PropList, baseEnd: nat, entered: bool,
                      ghost c: Code, ghost ctx: Ctx, ghost b: Base, ghost answer: bool) returns (ok: bool, pc: nat, ghost last: Code)
    requires Looking(code, start, c, ctx, b, entered, answer)
    requires start < |code| && IsOpenable(code[start])
    requires Lists(base, code, baseEnd, b.sel) && base.flag == b.greedy
    ensures !ok ==> !answer
    ensures ok ==> c.Cons? && Looking(code, pc, last, In(c.item, c.next, ctx), b, true, answer)
    ensures ok ==> Size(last) + CtxSize(In(c.item, c.next, ctx)) < Size(c) + CtxSize(ctx)
    decreases Size(c) + CtxSize(ctx), 2
  {
    hide CodeIn, Lists, CtxSize, Size;
    WalkOpcode(code, start, c, ctx);
    GroupShrinks(c, ctx);
    GroupHeader(code, start, c.item, c.next, ctx);
    FirstBranch(code, start, BraSize(c.item.bra), c.item.body, In(c.item, c.next, ctx));
    ok, pc, last := CompareEarlier(code, start + OpLength(code[start]), start + Get(code, start + 1), base, baseEnd,
                                   b, c.item.body, In(c.item, c.next, ctx));
  }

  lemma SkipOpcode(code: seq<byte>, pc: nat, it: Item)
    requires it.Group? && it.zero != NoZero && ItemAt(code, pc, it)
    ensures pc + 1 < |code|
    ensures IsOpenable(code[pc + 1]) <==> it.bra.Once? || (!it.bra.s && !it.bra.pos)
  {
    GroupElim(code, pc, it);
  }

  lemma SkipParts(code: seq<byte>, pc: nat, it: Item, next: Code, ctx: Ctx)
    requires it.Group? && it.zero != NoZero && CodeIn(code, pc, Cons(it, next), ctx)
    ensures SkipAlts(code, pc + 1) >= 0 && CodeIn(code, SkipAlts(code, pc + 1) + 3, next, ctx)
    ensures CodeIn(code, pc + 1, Cons(Bare(it), next), ctx)
    ensures Size(Cons(Bare(it), next)) + 1 == Size(Cons(it, next)) > Size(next)
  {
    hide CodeIn, Linked, CloseAt;
    BareAt(code, pc, it, next, ctx);
    LinkedSkip(code, pc + 1, BraSize(it.bra), it.body);
  }

  /** In front of a group that may be skipped: what follows it is tested first, then the
      group itself. */
  method CompareSkip(code: seq<byte>, start: nat, base: PropList, baseEnd: nat, entered: bool,
                     ghost c: Code, ghost ctx: Ctx, ghost b: Base, ghost answer: bool) returns (ok: bool)
    requires Looking(code, start, c, ctx, b, entered, answer)
    requires start < |code| && (code[start] == OP_BRAZERO || code[start] == OP_BRAMINZERO)
    requires Lists(base, code, baseEnd, b.sel) && base.flag == b.greedy
    ensures !ok ==> !answer
    ensures ok ==> c.Cons? && Looking(code, start + 1, Cons(Bare(c.item), c.next), ctx, b, entered, answer)
    ensures ok ==> Size(Cons(Bare(c.item), c.next)) < Size(c)
    decreases Size(c) + CtxSize(ctx), 2
  {
    hide Compare, ItemAt, ExitAt;
    WalkOpcode(code, start, c, ctx);
    SkipOpcode(code, start, c.item);
    SkipParts(code, start, c.item, c.next, ctx);
    CompareZero(c.item, c.next, ctx, b, entered);
    if !IsOpenable(code[start + 1]) {
      return false;
    }
    var ket := SkipToKet(code, start + 1);
    ok := CompareOpcodes(code, ket + 3, base, baseEnd, b, c.next, ctx);
  }

  /** The walk itself. Every move goes forward in the code. */
  method CompareOpcodes(code: seq<byte>, start: nat, base: PropList, baseEnd: nat,
                        ghost b: Base, ghost c0: Code, ghost ctx0: Ctx) returns (r: bool)
    requires CodeIn(code, start, c0, ctx0)
    requires Lists(base, code, baseEnd, b.sel) && base.flag == b.greedy
    ensures r == Compare(c0, ctx0, b, false)
    decreases Size(c0) + CtxSize(ctx0), 3
  {
    var pc: nat := start;
    var entered, done := false, false;
    ghost var c, ctx, answer := c0, ctx0, Compare(c0, ctx0, b, false);
    while true
      invariant Looking(code, pc, c, ctx, b, entered, answer)
      invariant Size(c) + CtxSize(ctx) <= Size(c0) + CtxSize(ctx0)
      decreases Size(c) + CtxSize(ctx)
    {
      WalkOpcode(code, pc, c, ctx);
      Ordered.HeadSize(c);
      var op := code[pc];
      if op == OP_ALT || op == OP_END || IsKet(op) {
        done, r, pc := CompareExit(code, pc, base.flag, entered, ctx, b, answer);
        if done {
          return;
        }
        c, ctx := ctx.next, ctx.up;
      } else if IsOpenable(op) {
        ghost var last;
        r, pc, last := CompareGroup(code, pc, base, baseEnd, entered, c, ctx, b, answer);
        if !r {
          return;
        }
        entered := true;
        c, ctx := last, In(c.item, c.next, ctx);
      } else if op == OP_BRAZERO || op == OP_BRAMINZERO {
        r := CompareSkip(code, pc, base, baseEnd, entered, c, ctx, b, answer);
        if !r {
          return;
        }
        pc := pc + 1;
        c := Cons(Bare(c.item), c.next);
      } else if IsZero(op) || IsMarkedGroup(op) || IsPlainGroup(op) {
        return false;
      } else {
        done, r, pc := CompareItem(code, pc, base, baseEnd, entered, c, ctx, b, answer);
        if done {
          return;
        }
        c := c.next;
      }
    }
  }
}
