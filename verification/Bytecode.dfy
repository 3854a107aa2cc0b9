/** Compiled code as a tree of items, its size, and the relation At between a
    tree and the bytes that encode it. */
module Bytecode {
  import opened Opcodes

  // ----- items -----

  type TypeOp = t: int | OP_NOT_DIGIT <= t <= OP_ALLANY witness OP_DIGIT
  type Bitmap = s: seq<byte> | |s| == 32 witness seq(32, _ => 0)

  /** What one single-character item accepts: a literal (possibly caseless or
      negated), a character type, or a 256-bit class. */
  datatype Sel =
    | Lit(c: byte, caseless: bool, negated: bool)
    | Type(t: TypeOp)
    | Set(negative: bool, bits: Bitmap)

  datatype Mode = Greedy | Lazy | Possessive

  /** A repeat of one single-character item. Range is the form used for classes;
      its zero maximum means "no maximum". */
  datatype Rep =
    | Star(mode: Mode)
    | Plus(mode: Mode)
    | Query(mode: Mode)
    | Upto(mode: Mode, n: u16)
    | Exact(count: pos16)
    | Range(mode: Mode, lo: u16, hi: u16)

  datatype Anchor = Circ | Doll | Sod | Eod

  datatype Zero = NoZero | BraZero | BraMinZero | BraPosZero | SkipZero

  /** The opening bracket: atomic, or capturing or not (cap), able to match
      nothing (s), possessively repeated (pos). */
  datatype Bra = Once | Paren(s: bool, cap: bool, pos: bool)

  datatype Ket = Ket | KetRMax | KetRMin | KetRPos

  datatype Item =
    | One(sel: Sel)
    | Many(sel: Sel, rep: Rep)
    | Assert(anchor: Anchor)
    | Group(zero: Zero, bra: Bra, num: u16, body: Alts, ket: Ket)

  /** One branch: a list of items. */
  datatype Code = Nil | Cons(item: Item, next: Code)

  /** The branches of a group, in order. */
  datatype Alts =
    | Last(code: Code)
    | More(code: Code, rest: Alts)

  // ----- opcodes of the items -----

  /** Position of a literal or type among the five repeat blocks. */
  function Block(sel: Sel): nat
  {
    match sel
    case Lit(_, caseless, negated) => (if negated then 2 else 0) + (if caseless then 1 else 0)
    case Type(_) => 4
    case Set(_, _) => 0
  }

  function OneOp(sel: Sel): byte
  {
    match sel
    case Lit(_, _, _) => OP_CHAR + Block(sel)
    case Type(t) => t
    case Set(negative, _) => if negative then OP_NCLASS else OP_CLASS
  }

  /** The byte that ends a literal or type item. */
  function Arg(sel: Sel): byte
    requires !sel.Set?
  {
    match sel
    case Lit(c, _, _) => c
    case Type(t) => t
  }

  function ModeOffset(mode: Mode): nat
  {
    if mode == Lazy then 1 else 0
  }

  /** A literal or type takes every repeat but Range; a class takes Range and the
      three shortest ones. */
  predicate Fits(sel: Sel, rep: Rep)
  {
    if sel.Set? then rep.Star? || rep.Plus? || rep.Query? || rep.Range?
    else !rep.Range?
  }

  function CharRepOp(sel: Sel, rep: Rep): byte
    requires !sel.Set? && !rep.Range?
  {
    OP_STAR + 13 * Block(sel) +
    match rep
    case Star(m) => if m == Possessive then 9 else ModeOffset(m)
    case Plus(m) => if m == Possessive then 10 else 2 + ModeOffset(m)
    case Query(m) => if m == Possessive then 11 else 4 + ModeOffset(m)
    case Upto(m, _) => if m == Possessive then POSUPTO_OFFSET else UPTO_OFFSET + ModeOffset(m)
    case Exact(_) => EXACT_OFFSET
  }

  function ClassRepOp(rep: Rep): byte
    requires !rep.Upto? && !rep.Exact?
  {
    OP_CRSTAR +
    match rep
    case Star(m) => if m == Possessive then 8 else ModeOffset(m)
    case Plus(m) => if m == Possessive then 9 else 2 + ModeOffset(m)
    case Query(m) => if m == Possessive then 10 else 4 + ModeOffset(m)
    case Range(m, _, _) => if m == Possessive then 11 else 6 + ModeOffset(m)
  }

  function AnchorOp(a: Anchor): byte
  {
    match a
    case Circ => OP_CIRC
    case Doll => OP_DOLL
    case Sod => OP_SOD
    case Eod => OP_EOD
  }

  function ZeroOp(z: Zero): byte
    requires z != NoZero
  {
    match z
    case BraZero => OP_BRAZERO
    case BraMinZero => OP_BRAMINZERO
    case BraPosZero => OP_BRAPOSZERO
    case SkipZero => OP_SKIPZERO
  }

  function BraOp(b: Bra): byte
  {
    match b
    case Once => OP_ONCE
    case Paren(s, cap, pos) =>
      OP_BRA + (if s then OP_SBRA - OP_BRA else 0) + (if cap then OP_CBRA - OP_BRA else 0) + (if pos then 1 else 0)
  }

  function KetOp(k: Ket): byte
  {
    match k
    case Ket => OP_KET
    case KetRMax => OP_KETRMAX
    case KetRMin => OP_KETRMIN
    case KetRPos => OP_KETRPOS
  }

  // ----- sizes -----

  function OneSize(sel: Sel): nat
  {
    match sel
    case Lit(_, _, _) => 2
    case Type(_) => 1
    case Set(_, _) => 33
  }

  function ManySize(sel: Sel, rep: Rep): nat
  {
    if sel.Set? then (if rep.Range? then 38 else 34)
    else if rep.Upto? || rep.Exact? then 4 else 2
  }

  function ZeroSize(z: Zero): nat
  {
    if z == NoZero then 0 else 1
  }

  function BraSize(b: Bra): nat
  {
    if b.Paren? && b.cap then 5 else 3
  }

  function ItemSize(it: Item): nat
    decreases it, 0
  {
    match it
    case One(sel) => OneSize(sel)
    case Many(sel, rep) => ManySize(sel, rep)
    case Assert(_) => 1
    case Group(zero, bra, _, body, _) => ZeroSize(zero) + BraSize(bra) + AltsSize(body) + 3
  }

  function Size(c: Code): nat
    decreases c, 0
  {
    match c
    case Nil => 0
    case Cons(it, next) => ItemSize(it) + Size(next)
  }

  /** The bytes between the opening bracket and the closing one. */
  function AltsSize(alts: Alts): nat
    decreases alts, 0
  {
    match alts
    case Last(c) => Size(c)
    case More(c, rest) => Size(c) + 3 + AltsSize(rest)
  }

  // ----- trees and bytes -----

  predicate OneAt(code: seq<byte>, pc: nat, sel: Sel)
    requires pc + OneSize(sel) <= |code|
  {
    && code[pc] == OneOp(sel)
    && match sel
       case Lit(c, _, _) => code[pc + 1] == c
       case Type(_) => true
       case Set(_, bits) => code[pc + 1..pc + 33] == bits
  }

  predicate ManyAt(code: seq<byte>, pc: nat, sel: Sel, rep: Rep)
    requires pc + ManySize(sel, rep) <= |code|
  {
    && Fits(sel, rep)
    && if sel.Set? then
         && OneAt(code, pc, sel)
         && code[pc + 33] == ClassRepOp(rep)
         && (rep.Range? ==> Get(code, pc + 34) == rep.lo && Get(code, pc + 36) == rep.hi)
       else
         && code[pc] == CharRepOp(sel, rep)
         && (rep.Upto? ==> Get(code, pc + 1) == rep.n)
         && (rep.Exact? ==> Get(code, pc + 1) == rep.count)
         && code[pc + ManySize(sel, rep) - 1] == Arg(sel)
  }

  predicate ItemAt(code: seq<byte>, pc: nat, it: Item)
    decreases it, 1
  {
    && pc + ItemSize(it) <= |code|
    && match it
       case One(sel) => OneAt(code, pc, sel)
       case Many(sel, rep) => ManyAt(code, pc, sel, rep)
       case Assert(a) => code[pc] == AnchorOp(a)
       case Group(zero, bra, num, body, ket) => GroupAt(code, pc, zero, bra, num, body, ket)
  }

  predicate GroupAt(code: seq<byte>, pc: nat, zero: Zero, bra: Bra, num: u16, body: Alts, ket: Ket)
    decreases body, 1
  {
    var p := pc + ZeroSize(zero);
    var n := BraSize(bra) + AltsSize(body);
    && HeadAt(code, pc, zero, bra, num)
    && AltsAt(code, p, BraSize(bra), body)
    && KetAt(code, p, n, ket)
  }

  predicate HeadAt(code: seq<byte>, pc: nat, zero: Zero, bra: Bra, num: u16)
  {
    var p := pc + ZeroSize(zero);
    && p + BraSize(bra) <= |code|
    && (zero != NoZero ==> code[pc] == ZeroOp(zero))
    && code[p] == BraOp(bra)
    && (bra.Paren? && bra.cap ==> Get(code, p + 3) == num)
  }

  /** The closing bracket n bytes after the opening one links back to it. */
  predicate KetAt(code: seq<byte>, p: nat, n: nat, ket: Ket)
  {
    p + n + 3 <= |code| && code[p + n] == KetOp(ket) && Get(code, p + n + 1) == n
  }

  /** The bytes of code from pc on are the encoding of c, with every link
      resolved. */
  predicate At(code: seq<byte>, pc: nat, c: Code)
    decreases c, 0
  {
    match c
    case Nil => pc <= |code|
    case Cons(it, next) => ItemAt(code, pc, it) && At(code, pc + ItemSize(it), next)
  }

  /** The alternatives of a group whose first header (the bracket, or an ALT) is
      at p and is h bytes long. Each header's link leads to the next header or to
      the closing bracket. */
  predicate AltsAt(code: seq<byte>, p: nat, h: nat, alts: Alts)
    requires h >= 3
    decreases alts, 0
  {
    && p + h + AltsSize(alts) <= |code|
    && Get(code, p + 1) == h + Size(alts.code)
    && At(code, p + h, alts.code)
    && (alts.More? ==>
          && code[p + h + Size(alts.code)] == OP_ALT
          && AltsAt(code, p + h + Size(alts.code), 3, alts.rest))
  }

  /** The bytes from lo to hi in code appear in code' displaced by d. */
  predicate Same(code: seq<byte>, lo: nat, hi: nat, code': seq<byte>, d: int)
  {
    && lo <= hi <= |code| && 0 <= lo + d && hi + d <= |code'|
    && forall k {:trigger code[k]} :: lo <= k < hi ==> code'[k + d] == code[k]
  }

  lemma {:induction false} SameGet(code: seq<byte>, lo: nat, hi: nat, code': seq<byte>, d: int, k: nat)
    requires Same(code, lo, hi, code', d)
    requires lo <= k && k + 2 <= hi
    ensures Get(code', k + d) == Get(code, k)
  {
  }

  lemma {:induction false} OneShift(code: seq<byte>, lo: nat, hi: nat, code': seq<byte>, d: int, pc: nat, pc': nat, sel: Sel)
    requires Same(code, lo, hi, code', d) && pc' == pc + d
    requires lo <= pc && pc + OneSize(sel) <= hi
    requires OneAt(code, pc, sel)
    ensures OneAt(code', pc', sel)
  {
    if sel.Set? {
      assert code'[pc' + 1..pc' + 33] == code[pc + 1..pc + 33];
    }
  }

  lemma {:induction false} ManyShift(code: seq<byte>, lo: nat, hi: nat, code': seq<byte>, d: int, pc: nat, pc': nat, sel: Sel, rep: Rep)
    requires Same(code, lo, hi, code', d) && pc' == pc + d
    requires lo <= pc && pc + ManySize(sel, rep) <= hi
    requires ManyAt(code, pc, sel, rep)
    ensures ManyAt(code', pc', sel, rep)
  {
    if sel.Set? {
      OneShift(code, lo, hi, code', d, pc, pc', sel);
    }
  }

  /** A tree's bytes depend on nothing outside them, and links are relative: the
      same bytes elsewhere encode the same tree. */
  lemma {:induction false} AtShift(code: seq<byte>, lo: nat, hi: nat, code': seq<byte>, d: int, pc: nat, pc': nat, c: Code)
    requires Same(code, lo, hi, code', d) && pc' == pc + d
    requires lo <= pc && pc + Size(c) <= hi
    requires At(code, pc, c)
    ensures At(code', pc', c)
    decreases c, 0
  {
    hide ItemAt;
    if c.Cons? {
      ItemShift(code, lo, hi, code', d, pc, pc', c.item);
      AtShift(code, lo, hi, code', d, pc + ItemSize(c.item), pc' + ItemSize(c.item), c.next);
    }
  }

  lemma {:induction false} ItemShift(code: seq<byte>, lo: nat, hi: nat, code': seq<byte>, d: int, pc: nat, pc': nat, it: Item)
    requires Same(code, lo, hi, code', d) && pc' == pc + d
    requires lo <= pc && pc + ItemSize(it) <= hi
    requires ItemAt(code, pc, it)
    ensures ItemAt(code', pc', it)
    decreases it, 1
  {
    match it
    case One(sel) => OneShift(code, lo, hi, code', d, pc, pc', sel);
    case Many(sel, rep) => ManyShift(code, lo, hi, code', d, pc, pc', sel, rep);
    case Assert(a) =>
    case Group(zero, bra, num, body, ket) =>
      GroupShift(code, lo, hi, code', d, pc, pc', zero, bra, num, body, ket);
  }

  lemma {:induction false} GroupShift(code: seq<byte>, lo: nat, hi: nat, code': seq<byte>, d: int,
                                      pc: nat, pc': nat, zero: Zero, bra: Bra, num: u16, body: Alts, ket: Ket)
    requires Same(code, lo, hi, code', d) && pc' == pc + d
    requires lo <= pc && pc + ZeroSize(zero) + BraSize(bra) + AltsSize(body) + 3 <= hi
    requires GroupAt(code, pc, zero, bra, num, body, ket)
    ensures GroupAt(code', pc', zero, bra, num, body, ket)
    decreases body, 1
  {
    hide AltsAt, HeadAt, KetAt;
    var p, p' := pc + ZeroSize(zero), pc' + ZeroSize(zero);
    HeadShift(code, lo, hi, code', d, pc, pc', zero, bra, num);
    AltsShift(code, lo, hi, code', d, p, p', BraSize(bra), body);
    KetShift(code, lo, hi, code', d, p, p', BraSize(bra) + AltsSize(body), ket);
  }

  lemma {:induction false} HeadShift(code: seq<byte>, lo: nat, hi: nat, code': seq<byte>, d: int,
                                     pc: nat, pc': nat, zero: Zero, bra: Bra, num: u16)
    requires Same(code, lo, hi, code', d) && pc' == pc + d
    requires lo <= pc && pc + ZeroSize(zero) + BraSize(bra) <= hi
    requires HeadAt(code, pc, zero, bra, num)
    ensures HeadAt(code', pc', zero, bra, num)
  {
  }

  lemma {:induction false} KetShift(code: seq<byte>, lo: nat, hi: nat, code': seq<byte>, d: int, p: nat, p': nat, n: nat, ket: Ket)
    requires Same(code, lo, hi, code', d) && p' == p + d
    requires lo <= p && p + n + 3 <= hi
    requires KetAt(code, p, n, ket)
    ensures KetAt(code', p', n, ket)
  {
  }

  /** The opcode of the first header does not matter. */
  lemma {:induction false} AltsShift(code: seq<byte>, lo: nat, hi: nat, code': seq<byte>, d: int, p: nat, p': nat, h: nat, alts: Alts)
    requires h >= 3
    requires Same(code, lo, hi, code', d) && p' == p + d
    requires lo <= p + 1 && p + h + AltsSize(alts) <= hi
    requires AltsAt(code, p, h, alts)
    ensures AltsAt(code', p', h, alts)
    decreases alts, 0
  {
    hide At, Get, Size;
    var n := Size(alts.code);
    SameGet(code, lo, hi, code', d, p + 1);
    AtShift(code, lo, hi, code', d, p + h, p' + h, alts.code);
    if alts.More? {
      assert code'[p' + h + n] == code[p + h + n];
      AltsShift(code, lo, hi, code', d, p + h + n, p' + h + n, 3, alts.rest);
    }
  }

  // ----- putting items together -----

  lemma {:induction false} AltsLast(code: seq<byte>, p: nat, h: nat, c: Code)
    requires h >= 3 && p + h + Size(c) <= |code|
    requires Get(code, p + 1) == h + Size(c) && At(code, p + h, c)
    ensures AltsAt(code, p, h, Last(c))
  {
    hide At;
  }

  lemma {:induction false} AltsMore(code: seq<byte>, p: nat, h: nat, c: Code, rest: Alts)
    requires h >= 3 && p + h + Size(c) < |code|
    requires Get(code, p + 1) == h + Size(c) && At(code, p + h, c)
    requires code[p + h + Size(c)] == OP_ALT && AltsAt(code, p + h + Size(c), 3, rest)
    ensures AltsAt(code, p, h, More(c, rest))
  {
    hide At;
  }

  lemma {:induction false} GroupIntro(code: seq<byte>, pc: nat, it: Item)
    requires it.Group?
    requires HeadAt(code, pc, it.zero, it.bra, it.num)
    requires AltsAt(code, pc + ZeroSize(it.zero), BraSize(it.bra), it.body)
    requires KetAt(code, pc + ZeroSize(it.zero), BraSize(it.bra) + AltsSize(it.body), it.ket)
    ensures ItemAt(code, pc, it)
  {
    hide AltsAt;
  }

  lemma {:induction false} GroupElim(code: seq<byte>, pc: nat, it: Item)
    requires it.Group? && ItemAt(code, pc, it)
    ensures HeadAt(code, pc, it.zero, it.bra, it.num)
    ensures AltsAt(code, pc + ZeroSize(it.zero), BraSize(it.bra), it.body)
    ensures KetAt(code, pc + ZeroSize(it.zero), BraSize(it.bra) + AltsSize(it.body), it.ket)
  {
    hide AltsAt;
  }

  lemma {:induction false} SingleAt(code: seq<byte>, pc: nat, it: Item)
    requires ItemAt(code, pc, it)
    ensures At(code, pc, Cons(it, Nil))
  {
    hide GroupAt, OneAt, ManyAt;
    assert At(code, pc + ItemSize(it), Nil);
  }

  // ----- concatenation -----

  function Cat(a: Code, b: Code): Code
  {
    match a
    case Nil => b
    case Cons(it, next) => Cons(it, Cat(next, b))
  }

  lemma CatNil(a: Code)
    ensures Cat(a, Nil) == a
  {
  }

  lemma CatAssoc(a: Code, b: Code, c: Code)
    ensures Cat(Cat(a, b), c) == Cat(a, Cat(b, c))
  {
  }

  lemma {:induction a} CatSize(a: Code, b: Code)
    ensures Size(Cat(a, b)) == Size(a) + Size(b)
    decreases a
  {
  }

  lemma {:induction false} AtCat(code: seq<byte>, pc: nat, a: Code, b: Code)
    ensures At(code, pc, Cat(a, b)) <==> At(code, pc, a) && At(code, pc + Size(a), b)
    decreases a
  {
    if a.Cons? {
      AtCat(code, pc + ItemSize(a.item), a.next, b);
    }
  }

  lemma {:induction false} AtBound(code: seq<byte>, pc: nat, c: Code)
    requires At(code, pc, c)
    ensures pc + Size(c) <= |code|
    decreases c
  {
    if c.Cons? {
      AtBound(code, pc + ItemSize(c.item), c.next);
    }
  }
}
