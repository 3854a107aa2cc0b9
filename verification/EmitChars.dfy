/** The second pass for single-character items: an item is written, and a quantifier
    then overwrites it in place. */
module EmitChars {
  import opened Opcodes
  import opened Bytecode
  import opened Pattern
  import opened Translation
  import opened TwoPass

  /** Nothing before n has changed. */
  ghost predicate Kept(was: seq<byte>, now: seq<byte>, n: nat)
  {
    |was| == |now| && Same(was, 0, n, now, 0)
  }

  method EmitOne(a: array<byte>, code: nat, sel: Sel) returns (code': nat)
    requires code + OneSize(sel) <= a.Length
    modifies a
    ensures code' == code + OneSize(sel) && OneAt(a[..], code, sel)
    ensures Kept(old(a[..]), a[..], code)
  {
    a[code] := OneOp(sel);
    code' := code + 1;
    match sel
    case Lit(c, _, _) =>
      a[code'] := c;
      code' := code' + 1;
    case Type(_) =>
    case Set(_, bits) =>
      for k := 0 to 32
        invariant forall i :: 0 <= i < a.Length && !(code <= i < code' + k) ==> a[i] == old(a[i])
        invariant a[code] == OneOp(sel)
        invariant a[code + 1..code + 1 + k] == bits[..k]
      {
        a[code' + k] := bits[k];
      }
      code' := code' + 32;
  }

  /** Opcode, count if any, and the character: the three parts of a repeat. */
  method EmitMany(a: array<byte>, code: nat, sel: Sel, rep: Rep) returns (code': nat)
    requires !sel.Set? && !rep.Range?
    requires code + ManySize(sel, rep) <= a.Length
    modifies a
    ensures code' == code + ManySize(sel, rep) && ManyAt(a[..], code, sel, rep)
    ensures Kept(old(a[..]), a[..], code)
  {
    a[code] := CharRepOp(sel, rep);
    code' := code + 1;
    if rep.Upto? || rep.Exact? {
      Put(a, code', if rep.Upto? then rep.n else rep.count);
      code' := code' + 2;
    }
    a[code'] := Arg(sel);
    code' := code' + 1;
  }

  // ----- possessive quantifiers -----

  function WithMode(rep: Rep, mode: Mode): Rep
    requires !rep.Exact?
  {
    match rep
    case Star(_) => Star(mode)
    case Plus(_) => Plus(mode)
    case Query(_) => Query(mode)
    case Upto(_, n) => Upto(mode, n)
    case Range(_, lo, hi) => Range(mode, lo, hi)
  }

  /** The table of possessive forms; zero where there is none. */
  function PossessifyOp(op: byte): byte
  {
    if OP_STAR <= op <= OP_TYPEPOSUPTO then
      var off := op - RepeatBase(op);
      if off == 0 then op + 9
      else if off == 2 then op + 8
      else if off == 4 then op + 7
      else if off == UPTO_OFFSET then op + 6
      else 0
    else if op == OP_CRSTAR then OP_CRPOSSTAR
    else if op == OP_CRSTAR + 2 then OP_CRPOSSTAR + 1
    else if op == OP_CRSTAR + 4 then OP_CRPOSSTAR + 2
    else if op == OP_CRRANGE then OP_CRPOSRANGE
    else 0
  }

  /** A quantifier as it is first compiled: a possessive one starts out greedy. */
  function Base(q: Quantifier): Quantifier
  {
    if q.Quant? && q.mode == Possessive then q.(mode := Greedy) else q
  }

  predicate IsGreedy(it: Item)
  {
    it.Many? && !it.rep.Exact? && it.rep.mode == Greedy
  }

  function Possess(it: Item): Item
    requires IsGreedy(it)
  {
    Many(it.sel, WithMode(it.rep, Possessive))
  }

  /** An item that a possessive quantifier passes over to reach the repeat behind it. */
  predicate PassedOver(it: Item)
  {
    (it.Many? && it.rep.Exact?) || (it.One? && it.sel.Lit?)
  }

  /** What the compiler turns the just-repeated code c into for a possessive quantifier. */
  function PossForm(c: Code): Code
  {
    if c.Cons? && PassedOver(c.item) && c.next == Nil then c
    else if c.Cons? && PassedOver(c.item) && c.next.Cons? && IsGreedy(c.next.item) && c.next.next == Nil then
      Cons(c.item, Single(Possess(c.next.item)))
    else if c.Cons? && IsGreedy(c.item) && c.next == Nil then Single(Possess(c.item))
    else Atomic(c)
  }

  lemma {:induction false} PossessManyAt(was: seq<byte>, now: seq<byte>, pc: nat, it: Item)
    requires IsGreedy(it) && ItemAt(was, pc, it) && |was| == |now|
    requires var x := if it.sel.Set? then pc + 33 else pc; now == was[x := PossessifyOp(was[x])]
    ensures ItemAt(now, pc, Possess(it)) && ItemSize(Possess(it)) == ItemSize(it)
  {
    if it.sel.Set? {
      assert now[pc + 1..pc + 33] == was[pc + 1..pc + 33];
    } else {
      var off := CharRepOp(it.sel, it.rep) - OP_STAR - 13 * Block(it.sel);
      assert RepeatBase(was[pc]) == OP_STAR + 13 * Block(it.sel) && was[pc] - RepeatBase(was[pc]) == off;
    }
  }

  lemma {:induction false} PossessTable(code: seq<byte>, pc: nat, it: Item)
    requires IsGreedy(it) && ItemAt(code, pc, it)
    ensures PossessifyOp(code[if it.sel.Set? then pc + 33 else pc]) > 0
  {
    if !it.sel.Set? {
      var off := CharRepOp(it.sel, it.rep) - OP_STAR - 13 * Block(it.sel);
      assert RepeatBase(code[pc]) == OP_STAR + 13 * Block(it.sel) && code[pc] - RepeatBase(code[pc]) == off;
    }
  }

  /** The bytes of an atomic group round what stood at p. */
  ghost predicate Enclosed(was: seq<byte>, now: seq<byte>, p: nat, n: nat)
  {
    && p + n + 6 <= |now|
    && Same(was, p, p + n, now, 3)
    && now[p] == OP_ONCE && Get(now, p + 1) == 3 + n
    && now[p + 3 + n] == OP_KET && Get(now, p + 4 + n) == 3 + n
  }

  lemma {:induction false} AtomicAt(was: seq<byte>, now: seq<byte>, p: nat, c: Code)
    requires At(was, p, c) && Enclosed(was, now, p, Size(c))
    ensures At(now, p, Atomic(c))
  {
    AtShift(was, p, p + Size(c), now, 3, p, p + 3, c);
    FrameAt(now, p, c);
  }

  lemma {:induction false} FrameAt(code: seq<byte>, p: nat, c: Code)
    requires At(code, p + 3, c) && p + Size(c) + 6 <= |code|
    requires code[p] == OP_ONCE && Get(code, p + 1) == 3 + Size(c)
    requires code[p + 3 + Size(c)] == OP_KET && Get(code, p + 4 + Size(c)) == 3 + Size(c)
    ensures At(code, p, Atomic(c))
  {
    hide At;
    AltsLast(code, p, 3, c);
    var it := Group(NoZero, Once, 0, Last(c), Ket);
    assert AltsSize(it.body) == Size(c);
    GroupIntro(code, p, it);
    SingleAt(code, p, it);
  }

  /** Moves everything from start to code up by d. */
  method MoveUp(a: array<byte>, start: nat, code: nat, d: nat)
    requires start <= code && code + d <= a.Length
    modifies a
    ensures Same(old(a[..]), start, code, a[..], d)
    ensures Kept(old(a[..]), a[..], start)
  {
    MemMove(a, start + d, start, code - start);
  }

  /** The opcodes and links round n bytes that stand 3 bytes behind p. */
  method FrameBytes(a: array<byte>, p: nat, n: nat)
    requires p + n + 6 <= a.Length <= 65536
    modifies a
    ensures Kept(old(a[..]), a[..], p) && Same(old(a[..]), p + 3, p + 3 + n, a[..], 0)
    ensures a[p] == OP_ONCE && Get(a[..], p + 1) == 3 + n
    ensures a[p + 3 + n] == OP_KET && Get(a[..], p + 4 + n) == 3 + n
  {
    a[p] := OP_ONCE;
    a[p + 3 + n] := OP_KET;
    Put(a, p + 3 + n + 1, n + 3);
    ghost var mid := a[..];
    Put(a, p + 1, n + 3);
    assert Get(a[..], p + 4 + n) == Get(mid, p + 4 + n);
  }

  lemma SameThen(was: seq<byte>, mid: seq<byte>, now: seq<byte>, lo: nat, hi: nat, d: nat)
    requires Same(was, lo, hi, mid, d) && Same(mid, lo + d, hi + d, now, 0)
    ensures Same(was, lo, hi, now, d)
  {
    forall k {:trigger was[k]} | lo <= k < hi ensures now[k + d] == was[k] {
      assert mid[k + d] == was[k];
    }
  }

  method Enclose(a: array<byte>, tempcode: nat, code: nat) returns (code': nat)
    requires tempcode <= code && code + 6 <= a.Length <= 65536
    modifies a
    ensures code' == code + 6 && Enclosed(old(a[..]), a[..], tempcode, code - tempcode)
    ensures Kept(old(a[..]), a[..], tempcode)
  {
    ghost var was := a[..];
    var len := code - tempcode;
    MoveUp(a, tempcode, code, 3);
    ghost var mid := a[..];
    FrameBytes(a, tempcode, len);
    SameThen(was, mid, a[..], tempcode, code, 3);
    SameThen(was, mid, a[..], 0, tempcode, 0);
    code' := code + 6;
  }

  /** Wraps everything from tempcode to code in an atomic group. */
  method WrapOnce(a: array<byte>, tempcode: nat, code: nat, ghost c: Code) returns (code': nat)
    requires At(a[..], tempcode, c) && code == tempcode + Size(c) && code + 6 <= a.Length <= 65536
    modifies a
    ensures code' == code + 6 && At(a[..], tempcode, Atomic(c))
    ensures Kept(old(a[..]), a[..], tempcode)
  {
    ghost var was := a[..];
    code' := Enclose(a, tempcode, code);
    AtomicAt(was, a[..], tempcode, c);
  }

  /** Replaces a greedy repeat's opcode by its possessive form. */
  method Patch(a: array<byte>, pc: nat, ghost it: Item)
    requires IsGreedy(it) && ItemAt(a[..], pc, it)
    modifies a
    ensures ItemAt(a[..], pc, Possess(it)) && ItemSize(Possess(it)) == ItemSize(it)
    ensures Kept(old(a[..]), a[..], pc)
  {
    ghost var was := a[..];
    var x := if a[pc] == OP_CLASS || a[pc] == OP_NCLASS then pc + 33 else pc;
    ManyStart(was, pc, it);
    PossessTable(was, pc, it);
    a[x] := PossessifyOp(a[x]);
    PossessManyAt(was, a[..], pc, it);
  }

  lemma {:induction false} ManyStart(code: seq<byte>, pc: nat, it: Item)
    requires it.Many? && ItemAt(code, pc, it)
    ensures it.sel.Set? <==> code[pc] == OP_CLASS || code[pc] == OP_NCLASS
    ensures !it.sel.Set? ==> OP_STAR <= code[pc] <= OP_TYPEPOSUPTO && OpLength(code[pc]) == ItemSize(it)
    ensures !it.sel.Set? ==> (code[pc] - RepeatBase(code[pc]) == EXACT_OFFSET <==> it.rep.Exact?)
  {
    if !it.sel.Set? {
      var off := CharRepOp(it.sel, it.rep) - OP_STAR - 13 * Block(it.sel);
      assert RepeatBase(code[pc]) == OP_STAR + 13 * Block(it.sel) && code[pc] - RepeatBase(code[pc]) == off;
    }
  }

  /** The opcodes that the search for the repeat passes over. */
  predicate IsPassedOver(op: byte)
  {
    OP_CHAR <= op <= OP_NOTI || (OP_STAR <= op <= OP_TYPEPOSUPTO && op - RepeatBase(op) == EXACT_OFFSET)
  }

  lemma {:induction false} PassedOverStart(code: seq<byte>, pc: nat, it: Item)
    requires ItemAt(code, pc, it)
    ensures IsPassedOver(code[pc]) <==> PassedOver(it)
    ensures PassedOver(it) ==> OpLength(code[pc]) == ItemSize(it)
  {
    if it.Many? {
      ManyStart(code, pc, it);
    }
  }

  /** Code that one item with a quantifier has just produced. */
  predicate JustRepeated(c: Code)
  {
    && c.Cons?
    && (PassedOver(c.item) ==> c.next == Nil || (IsGreedy(c.next.item) && c.next.next == Nil))
    && (IsGreedy(c.item) ==> c.next == Nil)
    && (c.item.Many? ==> PassedOver(c.item) || IsGreedy(c.item))
    && (c.item.One? ==> !c.item.sel.Set?)
  }

  /** Carries out a possessive quantifier on the code from previous on: it looks for the
      repeat opcode, behind an EXACT or a plain character, and wraps the whole item
      when there is no possessive opcode for it. */
  method MakePossessive(a: array<byte>, previous: nat, code: nat, ghost c: Code) returns (code': nat)
    requires At(a[..], previous, c) && JustRepeated(c) && code == previous + Size(c)
    requires previous + Size(PossForm(c)) <= a.Length <= 65536
    modifies a
    ensures code' == previous + Size(PossForm(c)) && At(a[..], previous, PossForm(c))
    ensures Kept(old(a[..]), a[..], previous)
  {
    code' := code;
    var op := a[previous];
    PassedOverStart(a[..], previous, c.item);
    if IsPassedOver(op) {
      var tempcode := previous + OpLength(op);
      if code > tempcode {
        PatchSecond(a, previous, tempcode, c);
      }
    } else {
      var tempcode := if op == OP_CLASS || op == OP_NCLASS then previous + 33 else previous;
      RepeatStart(a[..], previous, c.item);
      if PossessifyOp(a[tempcode]) > 0 {
        Patch(a, previous, c.item);
        SingleAt(a[..], previous, Possess(c.item));
      } else {
        AtomicSize(c);
        code' := WrapOnce(a, previous, code, c);
      }
    }
  }

  lemma {:induction false} RepeatStart(code: seq<byte>, pc: nat, it: Item)
    requires ItemAt(code, pc, it) && !PassedOver(it)
    requires (it.Many? ==> IsGreedy(it)) && (it.One? ==> !it.sel.Set?)
    ensures var op := code[pc];
            var x := if op == OP_CLASS || op == OP_NCLASS then pc + 33 else pc;
            x < |code| && (PossessifyOp(code[x]) > 0 <==> IsGreedy(it))
  {
    if it.Many? {
      ManyStart(code, pc, it);
      PossessTable(code, pc, it);
    }
  }

  /** The repeat stands behind an item that is passed over. */
  method PatchSecond(a: array<byte>, previous: nat, tempcode: nat, ghost c: Code)
    requires At(a[..], previous, c) && JustRepeated(c) && PassedOver(c.item) && c.next.Cons?
    requires tempcode == previous + ItemSize(c.item)
    modifies a
    ensures At(a[..], previous, PossForm(c)) && Size(PossForm(c)) == Size(c)
    ensures Kept(old(a[..]), a[..], previous)
  {
    ghost var was := a[..];
    ghost var second := c.next.item;
    Patch(a, tempcode, second);
    ItemShift(was, 0, tempcode, a[..], 0, previous, previous, c.item);
    SingleAt(a[..], tempcode, Possess(second));
    SingleSize(second);
    SingleSize(Possess(second));
  }

  // ----- quantifiers on single characters -----

  predicate IsPossessive(q: Quantifier)
  {
    q.Quant? && q.mode == Possessive
  }

  /** The quantifier {0} removes the item and {1} leaves it as it was; neither has
      anything left to make possessive. */
  predicate HasRepeat(q: Quantifier)
  {
    q.Quant? && q.hi != 0 && !(q.lo == 1 && q.hi == 1)
  }

  lemma {:induction false} CharCodePossessive(sel: Sel, q: Quantifier)
    requires !sel.Set? && IsPossessive(q) && HasRepeat(q)
    ensures JustRepeated(CharCode(sel, Base(q))) && CharCode(sel, q) == PossForm(CharCode(sel, Base(q)))
  {
  }

  lemma {:induction false} ClassCodePossessive(sel: Sel, q: Quantifier)
    requires sel.Set? && IsPossessive(q) && q.hi != 0
    ensures JustRepeated(ClassCode(sel, Base(q))) && ClassCode(sel, q) == PossForm(ClassCode(sel, Base(q)))
  {
  }

  lemma {:induction false} PairAt(was: seq<byte>, now: seq<byte>, pc: nat, a: Bytecode.Item, b: Bytecode.Item)
    requires ItemAt(was, pc, a) && Kept(was, now, pc + ItemSize(a))
    requires ItemAt(now, pc + ItemSize(a), b)
    ensures At(now, pc, Cons(a, Single(b)))
  {
    ItemShift(was, 0, pc + ItemSize(a), now, 0, pc, pc, a);
    SingleAt(now, pc + ItemSize(a), b);
  }

  /** The greedy or lazy code for a repeated literal or type that stands at previous. */
  method RepeatChars(a: array<byte>, previous: nat, sel: Sel, q: Quantifier) returns (code: nat)
    requires !sel.Set? && q.Quant? && q.mode != Possessive
    requires previous + OneSize(sel) <= a.Length && OneAt(a[..], previous, sel)
    requires previous + Size(CharCode(sel, q)) <= a.Length
    modifies a
    ensures code == previous + Size(CharCode(sel, q)) && At(a[..], previous, CharCode(sel, q))
    ensures Kept(old(a[..]), a[..], previous)
  {
    ghost var was := a[..];
    code := previous;
    if q.hi == 0 {
      return;
    }
    RepeatCharsSize(sel, q);
    if q.lo == 0 {
      code := EmitMany(a, code, sel, OptionalRep(q.mode, q.hi));
      SingleAt(a[..], previous, Many(sel, OptionalRep(q.mode, q.hi)));
    } else if q.lo == 1 && q.hi == -1 {
      code := EmitMany(a, code, sel, Plus(q.mode));
      SingleAt(a[..], previous, Many(sel, Plus(q.mode)));
    } else if q.lo == 1 {
      code := previous + OneSize(sel);
      if q.hi == 1 {
        SingleAt(a[..], previous, One(sel));
      } else {
        code := EmitMany(a, code, sel, Upto(q.mode, q.hi - 1));
        PairAt(was, a[..], previous, One(sel), Many(sel, Upto(q.mode, q.hi - 1)));
      }
    } else {
      code := EmitMany(a, code, sel, Exact(q.lo));
      if q.hi == q.lo {
        SingleAt(a[..], previous, Many(sel, Exact(q.lo)));
      } else {
        ghost var mid := a[..];
        var rep := OptionalRep(q.mode, if q.hi == -1 then -1 else q.hi - q.lo);
        code := EmitMany(a, code, sel, rep);
        PairAt(mid, a[..], previous, Many(sel, Exact(q.lo)), Many(sel, rep));
      }
    }
  }

  lemma {:induction false} RepeatCharsSize(sel: Sel, q: Quantifier)
    requires !sel.Set? && q.Quant? && q.mode != Possessive
    ensures var c := CharCode(sel, q);
            c.Cons? ==> Size(c) == ItemSize(c.item) + (if c.next.Cons? then ItemSize(c.next.item) else 0)
  {
    var c := CharCode(sel, q);
    if c.Cons? && c.next.Cons? {
      SingleSize(c.next.item);
    } else if c.Cons? {
      SingleSize(c.item);
    }
  }

  /** The bounds behind a range opcode, which the byte in front of them is. */
  method WriteBounds(a: array<byte>, at: nat, lo: u16, hi: u16) returns (end: nat)
    requires at + 4 <= a.Length
    modifies a
    ensures end == at + 4 && Get(a[..], at) == lo && Get(a[..], at + 2) == hi
    ensures Kept(old(a[..]), a[..], at)
  {
    Put(a, at, lo);
    ghost var mid := a[..];
    Put(a, at + 2, hi);
    assert Get(a[..], at) == Get(mid, at);
    end := at + 4;
  }

  /** A class keeps its place; the repeat is written behind it. */
  method RepeatClass(a: array<byte>, previous: nat, sel: Sel, q: Quantifier) returns (code: nat)
    requires sel.Set? && q.Quant? && q.mode != Possessive
    requires previous + 33 <= a.Length && OneAt(a[..], previous, sel)
    requires previous + Size(ClassCode(sel, q)) <= a.Length
    modifies a
    ensures code == previous + Size(ClassCode(sel, q)) && At(a[..], previous, ClassCode(sel, q))
    ensures Kept(old(a[..]), a[..], previous)
  {
    ghost var was := a[..];
    code := previous;
    if q.hi == 0 {
      return;
    }
    ghost var it := ClassCode(sel, q).item;
    SingleSize(it);
    code := previous + 33;
    a[code] := ClassRepOp(
      if q.lo == 0 && q.hi == -1 then Star(q.mode)
      else if q.lo == 1 && q.hi == -1 then Plus(q.mode)
      else if q.lo == 0 && q.hi == 1 then Query(q.mode)
      else Range(q.mode, q.lo, 0));
    code := code + 1;
    if !(q.lo == 0 && q.hi == -1) && !(q.lo == 1 && q.hi == -1) && !(q.lo == 0 && q.hi == 1) {
      ghost var mid := a[..];
      code := WriteBounds(a, code, q.lo, if q.hi == -1 then 0 else q.hi);
      assert a[..][previous + 33] == mid[previous + 33];
    }
    hide OneAt, Get;
    OneShift(was, 0, previous + 33, a[..], 0, previous, previous, sel);
    SingleAt(a[..], previous, it);
  }

  /** A single-character item with its quantifier, from start on. */
  method CompileChars(a: array<byte>, start: nat, sel: Sel, q: Quantifier, ghost c: Code) returns (code: nat)
    requires c == if sel.Set? then ClassCode(sel, q) else CharCode(sel, q)
    requires start + CharsLength(sel, q) <= a.Length <= 65536
    modifies a
    ensures code == start + Size(c) && At(a[..], start, c)
    ensures Kept(old(a[..]), a[..], start)
  {
    code := EmitOne(a, start, sel);
    SingleSize(One(sel));
    if q == NoQuant {
      SingleAt(a[..], start, One(sel));
      return;
    }
    BaseSize(sel, q);
    ghost var c0;
    if sel.Set? {
      code := RepeatClass(a, start, sel, Base(q));
      c0 := ClassCode(sel, Base(q));
    } else {
      code := RepeatChars(a, start, sel, Base(q));
      c0 := CharCode(sel, Base(q));
    }
    if IsPossessive(q) && q.hi != 0 && (sel.Set? || HasRepeat(q)) {
      if sel.Set? {
        ClassCodePossessive(sel, q);
      } else {
        CharCodePossessive(sel, q);
      }
      code := MakePossessive(a, start, code, c0);
    }
  }

  lemma {:induction false} BaseSize(sel: Sel, q: Quantifier)
    requires q.Quant?
    ensures sel.Set? ==> Size(ClassCode(sel, Base(q))) == Size(ClassCode(sel, q))
    ensures !sel.Set? ==> Size(CharCode(sel, Base(q))) <= Size(CharCode(sel, q))
  {
    if sel.Set? {
      if q.hi != 0 {
        SingleSize(ClassCode(sel, Base(q)).item);
        SingleSize(ClassCode(sel, q).item);
      }
    } else {
      CharCodeSize(sel, q);
      CharCodeSize(sel, Base(q));
    }
  }
}
