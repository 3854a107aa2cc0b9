/** The second pass for quantified groups: a compiled group is moved up, copied, nested
    and closed, all within the code buffer. */
module EmitGroups {
  import opened Opcodes
  import opened Bytecode
  import opened Machine
  import opened Emptiness
  import opened EmptinessScan
  import opened Pattern
  import opened Translation
  import opened TwoPass
  import opened EmitChars

  lemma {:induction false} ZeroIntro(code: seq<byte>, p: nat, it: Bytecode.Item, zero: Zero)
    requires it.Group? && it.zero == NoZero && zero != NoZero
    requires p < |code| && code[p] == ZeroOp(zero) && ItemAt(code, p + 1, it)
    ensures ItemAt(code, p, it.(zero := zero))
  {
    hide AltsAt, KetAt;
    GroupElim(code, p + 1, it);
    GroupIntro(code, p, it.(zero := zero));
  }

  /** The byte in front of what was moved up is free. */
  lemma Overwritten(was: seq<byte>, mid: seq<byte>, p: nat, end: nat, op: byte)
    requires p < |mid| && Same(was, p, end, mid, 1) && Kept(was, mid, p)
    ensures Same(was, p, end, mid[p := op], 1) && Kept(was, mid[p := op], p)
  {
  }

  /** Puts a zero-repeat opcode in front of a group, which moves up by one. */
  method InsertZero(a: array<byte>, previous: nat, code: nat, zero: Zero, ghost it: Bytecode.Item) returns (code': nat)
    requires zero != NoZero && it.Group? && it.zero == NoZero
    requires ItemAt(a[..], previous, it) && code == previous + ItemSize(it) && code < a.Length
    modifies a
    ensures code' == code + 1 && ItemAt(a[..], previous, it.(zero := zero))
    ensures Kept(old(a[..]), a[..], previous)
  {
    hide Same, Kept, ItemAt;
    ghost var was := a[..];
    MoveUp(a, previous, code, 1);
    ghost var mid := a[..];
    a[previous] := ZeroOp(zero);
    Overwritten(was, mid, previous, code, ZeroOp(zero));
    assert a[..] == mid[previous := ZeroOp(zero)];
    code' := code + 1;
    ItemShift(was, previous, code, a[..], 1, previous, previous + 1, it);
    ZeroIntro(a[..], previous, it, zero);
  }

  /** Copies a group to the end of the code. */
  method CopyGroup(a: array<byte>, src: nat, code: nat, len: nat, ghost it: Bytecode.Item) returns (code': nat)
    requires ItemAt(a[..], src, it) && len == ItemSize(it) && src + len <= code && code + len <= a.Length
    modifies a
    ensures code' == code + len && ItemAt(a[..], code, it)
    ensures Kept(old(a[..]), a[..], code)
  {
    hide ItemAt;
    ghost var was := a[..];
    MemMove(a, code, src, len);
    code' := code + len;
    assert Same(was, src, src + len, a[..], code - src);
    ItemShift(was, src, src + len, a[..], code - src, src, src + code - src, it);
  }

  // ----- unlimited repeats -----

  lemma {:induction false} LoopAt(was: seq<byte>, now: seq<byte>, p: nat, g: Piece, mode: Mode)
    requires ItemAt(was, p, PlainGroup(g, NoZero))
    requires var it := LoopGroup(g, NoZero, mode);
             p + PieceSize(g) <= |was| && now == was[p := BraOp(it.bra)][p + PieceSize(g) - 3 := KetOp(it.ket)]
    ensures ItemAt(now, p, LoopGroup(g, NoZero, mode))
  {
    hide AltsAt, ItemAt;
    var it, it' := PlainGroup(g, NoZero), LoopGroup(g, NoZero, mode);
    var q := p + PieceSize(g) - 3;
    GroupElim(was, p, it);
    AltsShift(was, p + 1, q, now, 0, p, p, BraSize(it.bra), g.body);
    if g.cap {
      assert Get(now, p + 3) == Get(was, p + 3);
    }
    assert Get(now, q + 1) == Get(was, q + 1);
    GroupIntro(now, p, it');
  }

  /** Rewrites the two bracket opcodes for an unlimited repeat. */
  method MarkLoop(a: array<byte>, bracode: nat, ketcode: nat, empty: bool, mode: Mode, ghost cap: bool)
    requires bracode < ketcode < a.Length && a[bracode] == BraOp(Paren(false, cap, false))
    modifies a
    ensures a[..] == old(a[..])[bracode := BraOp(Paren(empty, cap, mode == Possessive))]
                       [ketcode := KetOp(if mode == Greedy then KetRMax else if mode == Lazy then KetRMin else KetRPos)]
  {
    if empty {
      a[bracode] := a[bracode] + (OP_SBRA - OP_BRA);
    }
    if mode == Possessive {
      a[bracode] := a[bracode] + 1;
      a[ketcode] := OP_KETRPOS;
    } else {
      a[ketcode] := if mode == Lazy then OP_KETRMIN else OP_KETRMAX;
    }
  }

  /** Turns the group that ends at code into the looping form. */
  method MakeLoop(a: array<byte>, p: nat, code: nat, mode: Mode, ghost g: Piece)
    requires ItemAt(a[..], p, PlainGroup(g, NoZero)) && code == p + PieceSize(g)
    modifies a
    ensures ItemAt(a[..], p, LoopGroup(g, NoZero, mode))
    ensures MarkedAlts(g.body) ==> (IsMarkedGroup(a[p]) <==> AltsMatchEmpty(g.body))
    ensures Kept(old(a[..]), a[..], p)
  {
    hide ItemAt, AltsAt, At, BracketAt, Linked, CloseAt, AltsMatchEmpty, IsMarkedGroup;
    ghost var it := PlainGroup(g, NoZero);
    ghost var was := a[..];
    GroupParts(was, p, it);
    GroupElim(was, p, it);
    var ketcode := code - 3;
    var bracode := ketcode - Get(a[..], ketcode + 1);
    var empty := GroupCouldBeEmpty(a[..], bracode, ketcode, it);
    MarkLoop(a, bracode, ketcode, empty, mode, g.cap);
    LoopAt(was, a[..], p, g, mode);
    OpcodeTells(a[..], p, LoopGroup(g, NoZero, mode));
  }

  // ----- limited repeats: nested optional copies -----

  /** n nesting brackets are still open: each is a BRA behind its BRAZERO, holding one
      copy of the group, and its link field leads back to the link field of the bracket
      outside it (zero in the outermost). The first BRAZERO is at z; link is the
      innermost link field, and the innermost copy ends at e. */
  ghost predicate NestAt(code: seq<byte>, z: nat, g: Piece, zero: Zero, n: nat, link: nat, e: nat)
    requires zero != NoZero
    decreases n
  {
    if n == 0 then e == z
    else
      && z + 2 <= link && link + 2 + PieceSize(g) == e <= |code|
      && code[link - 2] == ZeroOp(zero) && code[link - 1] == OP_BRA
      && ItemAt(code, link + 2, PlainGroup(g, NoZero))
      && (if n == 1 then Get(code, link) == 0 && link == z + 2
          else 0 < Get(code, link) <= link && NestAt(code, z, g, zero, n - 1, link - Get(code, link), link - 2))
  }

  lemma {:induction false} NestStart(code: seq<byte>, z: nat, g: Piece, zero: Zero, n: nat, link: nat, e: nat)
    requires zero != NoZero && NestAt(code, z, g, zero, n, link, e)
    ensures z <= e
  {
  }

  lemma {:induction false} NestKept(was: seq<byte>, now: seq<byte>, z: nat, g: Piece, zero: Zero, n: nat, link: nat, e: nat)
    requires zero != NoZero && NestAt(was, z, g, zero, n, link, e)
    requires e <= |was| && Kept(was, now, e)
    ensures NestAt(now, z, g, zero, n, link, e)
    decreases n
  {
    if n > 0 {
      ItemShift(was, 0, e, now, 0, link + 2, link + 2, PlainGroup(g, NoZero));
      SameGet(was, 0, e, now, 0, link);
      assert now[link - 2] == was[link - 2] && now[link - 1] == was[link - 1];
      if n > 1 {
        NestKept(was, now, z, g, zero, n - 1, link - Get(was, link), link - 2);
      }
    }
  }

  ghost predicate OpenerAt(code: seq<byte>, p: nat, bralink: nat, zero: Zero)
    requires zero != NoZero
  {
    && p + 4 <= |code|
    && code[p] == ZeroOp(zero) && code[p + 1] == OP_BRA
    && Get(code, p + 2) == if bralink == 0 then 0 else p + 2 - bralink
  }

  lemma {:induction false} NestPush(was: seq<byte>, now: seq<byte>, z: nat, g: Piece, zero: Zero, n: nat, bralink: nat, e: nat)
    requires zero != NoZero && NestAt(was, z, g, zero, n, bralink, e) && (n == 0 <==> bralink == 0)
    requires e <= |was| && Kept(was, now, e)
    requires OpenerAt(now, e, bralink, zero) && ItemAt(now, e + 4, PlainGroup(g, NoZero))
    ensures NestAt(now, z, g, zero, n + 1, e + 2, e + 4 + PieceSize(g))
  {
    NestKept(was, now, z, g, zero, n, bralink, e);
    NestStart(was, z, g, zero, n, bralink, e);
  }

  /** A BRAZERO and a BRA whose link field joins the chain of open brackets. */
  method EmitOpener(a: array<byte>, code: nat, bralink: nat, zero: Zero)
    requires zero != NoZero && code + 4 <= a.Length <= 65536 && bralink <= code
    modifies a
    ensures OpenerAt(a[..], code, bralink, zero)
    ensures Kept(old(a[..]), a[..], code)
  {
    a[code] := ZeroOp(zero);
    a[code + 1] := OP_BRA;
    var offset := if bralink == 0 then 0 else code + 2 - bralink;
    Put(a, code + 2, offset);
  }

  /** Opens one more nesting bracket at the end of the code and puts a copy of the group
      into it. */
  method OpenNest(a: array<byte>, src: nat, code: nat, bralink: nat, len: nat, zero: Zero, ghost z: nat, ghost g: Piece, ghost n: nat)
      returns (code': nat, bralink': nat)
    requires zero != NoZero && len == PieceSize(g)
    requires NestAt(a[..], z, g, zero, n, bralink, code) && (n == 0 <==> bralink == 0)
    requires ItemAt(a[..], src, PlainGroup(g, NoZero)) && src + len <= code
    requires code + 4 + len <= a.Length <= 65536
    modifies a
    ensures bralink' == code + 2 && code' == code + 4 + len
    ensures NestAt(a[..], z, g, zero, n + 1, bralink', code')
    ensures Kept(old(a[..]), a[..], code)
  {
    hide ItemAt, OpenerAt;
    ghost var was := a[..];
    EmitOpener(a, code, bralink, zero);
    bralink' := code + 2;
    ghost var mid := a[..];
    ItemShift(was, 0, code, mid, 0, src, src, PlainGroup(g, NoZero));
    code' := CopyGroup(a, src, code + 4, len, PlainGroup(g, NoZero));
    SameGet(mid, 0, code + 4, a[..], 0, bralink');
    NestPush(was, a[..], z, g, zero, n, bralink, code);
  }

  function NestItem(g: Piece, zero: Zero, inner: Code): Bytecode.Item
  {
    Group(zero, Paren(false, false, false), 0, Last(Cons(PlainGroup(g, NoZero), inner)), Ket)
  }

  lemma {:induction false} NestItemSize(g: Piece, zero: Zero, inner: Code)
    requires zero != NoZero
    ensures ItemSize(NestItem(g, zero, inner)) == 7 + PieceSize(g) + Size(inner)
  {
    var c := Cons(PlainGroup(g, NoZero), inner);
    assert Size(c) == PieceSize(g) + Size(inner);
    assert AltsSize(Last(c)) == Size(c);
  }

  /** The innermost open bracket is complete once its link and its KET are in place. */
  lemma {:induction false} NestPop(was: seq<byte>, now: seq<byte>, z: nat, g: Piece, zero: Zero, n: nat, link: nat, e: nat, inner: Code, code: nat)
    requires zero != NoZero && n >= 1 && NestAt(was, z, g, zero, n, link, e)
    requires At(was, e, inner) && code == e + Size(inner) && code + 3 <= |now|
    requires Same(was, 0, link, now, 0) && Same(was, link + 2, code, now, 0)
    requires Get(now, link) == code + 1 - link
    requires now[code] == OP_KET && Get(now, code + 1) == code + 1 - link
    ensures ItemAt(now, link - 2, NestItem(g, zero, inner))
  {
    hide ItemAt, AltsAt;
    var it := NestItem(g, zero, inner);
    var c := Cons(PlainGroup(g, NoZero), inner);
    NestItemSize(g, zero, inner);
    ItemShift(was, link + 2, code, now, 0, link + 2, link + 2, PlainGroup(g, NoZero));
    AtShift(was, link + 2, code, now, 0, e, e, inner);
    assert At(now, link + 2, c);
    assert Size(c) == PieceSize(g) + Size(inner) && AltsSize(it.body) == Size(c);
    AltsLast(now, link - 1, 3, c);
    assert now[link - 2] == was[link - 2] && now[link - 1] == was[link - 1];
    GroupIntro(now, link - 2, it);
  }

  lemma {:induction false} NestOuter(was: seq<byte>, now: seq<byte>, z: nat, g: Piece, zero: Zero, n: nat, link: nat, e: nat)
    requires zero != NoZero && n >= 1 && NestAt(was, z, g, zero, n, link, e)
    requires |was| == |now| && Same(was, 0, link, now, 0)
    ensures NestAt(now, z, g, zero, n - 1, if n == 1 then 0 else link - Get(was, link), link - 2)
  {
    if n > 1 {
      NestKept(was, now, z, g, zero, n - 1, link - Get(was, link), link - 2);
    }
  }

  /** Fills in one bracket: the KET at the end of the code and the link at its start. */
  method CloseBytes(a: array<byte>, code: nat, bralink: nat) returns (oldlinkoffset: nat)
    requires 2 <= bralink && bralink + 2 <= code && code + 3 <= a.Length <= 65536
    modifies a
    ensures oldlinkoffset == Get(old(a[..]), bralink)
    ensures |old(a[..])| == |a[..]| && Same(old(a[..]), 0, bralink, a[..], 0) && Same(old(a[..]), bralink + 2, code, a[..], 0)
    ensures Get(a[..], bralink) == code + 1 - bralink
    ensures a[code] == OP_KET && Get(a[..], code + 1) == code + 1 - bralink
  {
    var offset := code - bralink + 1;
    var bra := code - offset;
    oldlinkoffset := Get(a[..], bra + 1);
    a[code] := OP_KET;
    Put(a, code + 1, offset);
    ghost var mid := a[..];
    Put(a, bra + 1, offset);
    assert Get(a[..], code + 1) == Get(mid, code + 1);
  }

  method CloseNest(a: array<byte>, code: nat, bralink: nat, ghost z: nat, ghost g: Piece, ghost zero: Zero, ghost n: nat, ghost inner: Code, ghost e: nat)
      returns (code': nat, bralink': nat)
    requires zero != NoZero && n >= 1 && NestAt(a[..], z, g, zero, n, bralink, e)
    requires At(a[..], e, inner) && code == e + Size(inner) && code + 3 <= a.Length <= 65536
    modifies a
    ensures code' == code + 3 && (n == 1 <==> bralink' == 0)
    ensures NestAt(a[..], z, g, zero, n - 1, bralink', bralink - 2)
    ensures ItemAt(a[..], bralink - 2, NestItem(g, zero, inner))
    ensures Kept(old(a[..]), a[..], bralink - 2)
  {
    ghost var was := a[..];
    var oldlinkoffset := CloseBytes(a, code, bralink);
    code' := code + 3;
    bralink' := if oldlinkoffset == 0 then 0 else bralink - oldlinkoffset;
    NestPop(was, a[..], z, g, zero, n, bralink, e, inner, code);
    NestOuter(was, a[..], z, g, zero, n, bralink, e);
    NestPositive(was, z, g, zero, n, bralink, e);
  }

  lemma {:induction false} NestPositive(code: seq<byte>, z: nat, g: Piece, zero: Zero, n: nat, link: nat, e: nat)
    requires zero != NoZero && n >= 1 && NestAt(code, z, g, zero, n, link, e)
    ensures n > 1 ==> 0 < Get(code, link) < link
    ensures n == 1 ==> Get(code, link) == 0
  {
  }

  /** d optional copies are complete, from x to the end of the code; k brackets round
      them are still open. */
  ghost predicate Closing(code: seq<byte>, z: nat, g: Piece, zero: Zero, k: nat, link: nat, d: nat, x: nat, end: nat)
  {
    && zero != NoZero && d >= 1 && z <= x
    && (k == 0 <==> link == 0) && NestAt(code, z, g, zero, k, link, x)
    && At(code, x, Optional(g, zero, d)) && end == x + Size(Optional(g, zero, d))
  }

  method CloseStep(a: array<byte>, code: nat, bralink: nat, ghost z: nat, ghost g: Piece, ghost zero: Zero, ghost k: nat, ghost d: nat, ghost x: nat)
      returns (code': nat, bralink': nat)
    requires Closing(a[..], z, g, zero, k, bralink, d, x, code) && k >= 1
    requires code + 3 <= a.Length <= 65536
    modifies a
    ensures bralink >= 2 && Closing(a[..], z, g, zero, k - 1, bralink', d + 1, bralink - 2, code') && code' == code + 3
    ensures Kept(old(a[..]), a[..], z)
  {
    ghost var inner := Optional(g, zero, d);
    NestItemSize(g, zero, inner);
    SingleSize(NestItem(g, zero, inner));
    code', bralink' := CloseNest(a, code, bralink, z, g, zero, k, inner, x);
    SingleAt(a[..], bralink - 2, NestItem(g, zero, inner));
    NestStart(a[..], z, g, zero, k - 1, bralink', bralink - 2);
  }

  /** Closes every open bracket, innermost first. */
  method CloseAll(a: array<byte>, code: nat, bralink: nat, ghost z: nat, ghost g: Piece, ghost zero: Zero, ghost n: nat, ghost m: nat, ghost e: nat)
      returns (code': nat)
    requires Closing(a[..], z, g, zero, n, bralink, m, e, code)
    requires code + 3 * n <= a.Length <= 65536
    modifies a
    ensures At(a[..], z, Optional(g, zero, n + m)) && code' == z + Size(Optional(g, zero, n + m))
    ensures Kept(old(a[..]), a[..], z)
  {
    hide At, ItemAt;
    code' := code;
    var link := bralink;
    ghost var k, d, x := n, m, e;
    while link != 0
      invariant Closing(a[..], z, g, zero, k, link, d, x, code') && k + d == n + m
      invariant code' + 3 * k <= a.Length
      invariant Kept(old(a[..]), a[..], z)
      decreases k
    {
      ghost var p := link - 2;
      code', link := CloseStep(a, code', link, z, g, zero, k, d, x);
      k, d, x := k - 1, d + 1, p;
    }
  }

  /** The last optional copy, which needs no bracket of its own. */
  method LastCopy(a: array<byte>, src: nat, code: nat, bralink: nat, len: nat, zero: Zero, ghost z: nat, ghost g: Piece, ghost k: nat)
      returns (code': nat)
    requires zero != NoZero && len == PieceSize(g)
    requires NestAt(a[..], z, g, zero, k, bralink, code) && (k == 0 <==> bralink == 0)
    requires ItemAt(a[..], src, PlainGroup(g, NoZero)) && src + len <= code
    requires code + 1 + len <= a.Length
    modifies a
    ensures code' == code + 1 + len && Closing(a[..], z, g, zero, k, bralink, 1, code, code')
    ensures Kept(old(a[..]), a[..], code)
  {
    hide ItemAt, NestAt;
    ghost var was := a[..];
    a[code] := ZeroOp(zero);
    ItemShift(was, 0, code, a[..], 0, src, src, PlainGroup(g, NoZero));
    code' := CopyGroup(a, src, code + 1, len, PlainGroup(g, NoZero));
    ZeroIntro(a[..], code, PlainGroup(g, NoZero), zero);
    SingleAt(a[..], code, PlainGroup(g, zero));
    SingleSize(PlainGroup(g, zero));
    NestKept(was, a[..], z, g, zero, k, bralink, code);
    NestStart(was, z, g, zero, k, bralink, code);
  }

  /** Ready to nest further copies at the end of the code. */
  ghost predicate Nesting(code: seq<byte>, z: nat, g: Piece, zero: Zero, k: nat, link: nat, end: nat, src: nat)
  {
    && zero != NoZero && (k == 0 <==> link == 0)
    && NestAt(code, z, g, zero, k, link, end)
    && src + PieceSize(g) <= end && ItemAt(code, src, PlainGroup(g, NoZero))
  }

  method OpenStep(a: array<byte>, src: nat, code: nat, bralink: nat, len: nat, zero: Zero, ghost z: nat, ghost g: Piece, ghost k: nat)
      returns (code': nat, bralink': nat)
    requires Nesting(a[..], z, g, zero, k, bralink, code, src) && len == PieceSize(g)
    requires code + 4 + len <= a.Length <= 65536
    modifies a
    ensures Nesting(a[..], z, g, zero, k + 1, bralink', code', src) && code' == code + 4 + len
    ensures Kept(old(a[..]), a[..], code)
  {
    ghost var was := a[..];
    code', bralink' := OpenNest(a, src, code, bralink, len, zero, z, g, k);
    ItemShift(was, 0, code, a[..], 0, src, src, PlainGroup(g, NoZero));
  }

  /** Appends count further optional copies, nesting all but the last, then closes the
      brackets. One bracket may be open already. */
  method NestCopies(a: array<byte>, src: nat, code: nat, bralink: nat, len: nat, zero: Zero, count: nat, ghost z: nat, ghost g: Piece, ghost n: nat)
      returns (code': nat)
    requires Nesting(a[..], z, g, zero, n, bralink, code, src) && len == PieceSize(g) && count >= 1
    requires code + NestedLength(count, len) + 3 * n <= a.Length <= 65536
    modifies a
    ensures At(a[..], z, Optional(g, zero, n + count)) && code' == z + Size(Optional(g, zero, n + count))
    ensures Kept(old(a[..]), a[..], z)
  {
    hide ItemAt, NestAt, At;
    code' := code;
    var link, i := bralink, count - 1;
    ghost var k := n;
    ghost var was := a[..];
    NestStart(was, z, g, zero, n, bralink, code);
    while i != 0
      invariant 0 <= i < count && k + i + 1 == n + count && code <= code'
      invariant Nesting(a[..], z, g, zero, k, link, code', src)
      invariant code' + NestedLength(i + 1, len) + 3 * k <= a.Length
      invariant Kept(was, a[..], code)
    {
      NestedStep(i + 1, len);
      code', link := OpenStep(a, src, code', link, len, zero, z, g, k);
      i, k := i - 1, k + 1;
    }
    ghost var x := code';
    code' := LastCopy(a, src, code', link, len, zero, z, g, k);
    code' := CloseAll(a, code', link, z, g, zero, k, 1, x);
  }

  lemma {:induction false} NestedStep(k: nat, lp: nat)
    requires k >= 2
    ensures NestedLength(k, lp) == NestedLength(k - 1, lp) + lp + 7
    ensures NestedLength(k - 1, lp) >= lp + 1
  {
    MulStep(k, lp + 7);
    MulMono(k - 1, 1, lp + 7);
    MulStep(k - 1, lp + 7);
  }

  // ----- fixed numbers of copies -----

  lemma {:induction false} CopiesSnoc(g: Piece, n: nat)
    ensures Cat(Copies(g, n, Nil), Single(PlainGroup(g, NoZero))) == Copies(g, n + 1, Nil)
    decreases n
  {
    if n > 0 {
      CopiesSnoc(g, n - 1);
    }
  }

  lemma {:induction false} CopiesCat(g: Piece, n: nat, tail: Code)
    ensures Cat(Copies(g, n, Nil), tail) == Copies(g, n, tail)
    decreases n
  {
    if n > 0 {
      CopiesCat(g, n - 1, tail);
    }
  }

  /** The group at the start is followed by further copies of itself, n in all. */
  method CopyTimes(a: array<byte>, previous: nat, code: nat, len: nat, n: nat, ghost g: Piece) returns (code': nat, last: nat)
    requires n >= 1 && len == PieceSize(g) && code == previous + len
    requires ItemAt(a[..], previous, PlainGroup(g, NoZero))
    requires previous + Size(Copies(g, n - 1, Nil)) + len <= a.Length
    modifies a
    ensures At(a[..], previous, Copies(g, n - 1, Nil)) && last == previous + Size(Copies(g, n - 1, Nil))
    ensures ItemAt(a[..], last, PlainGroup(g, NoZero)) && code' == last + len
    ensures ItemAt(a[..], previous, PlainGroup(g, NoZero))
    ensures Kept(old(a[..]), a[..], code)
  {
    hide ItemAt;
    ghost var it := PlainGroup(g, NoZero);
    ghost var was := a[..];
    code' := code;
    last := previous;
    var i := 1;
    while i < n
      invariant 1 <= i <= n && code' == last + len && previous <= last
      invariant last == previous + Size(Copies(g, i - 1, Nil))
      invariant At(a[..], previous, Copies(g, i - 1, Nil)) && ItemAt(a[..], last, it) && ItemAt(a[..], previous, it)
      invariant Kept(was, a[..], code)
    {
      CopiesRoom(g, i, n);
      ghost var mid := a[..];
      ghost var p := last;
      last := code';
      code' := CopyGroup(a, previous, code', len, it);
      CopiesExtend(mid, a[..], previous, g, i - 1, p, last);
      ItemShift(mid, 0, last, a[..], 0, previous, previous, it);
      i := i + 1;
    }
  }

  lemma {:induction false} CopiesRoom(g: Piece, i: nat, n: nat)
    requires 1 <= i < n
    ensures Size(Copies(g, i - 1, Nil)) + PieceSize(g) <= Size(Copies(g, n - 1, Nil))
  {
    CopiesSize(g, i - 1, Nil);
    CopiesSize(g, n - 1, Nil);
    assert (n - 1) * PieceSize(g) == (i - 1) * PieceSize(g) + (n - i) * PieceSize(g);
    MulStep(n - i, PieceSize(g));
  }

  lemma {:induction false} AppendAt(was: seq<byte>, now: seq<byte>, p: nat, c: Code, d: Code)
    requires At(was, p, c) && p + Size(c) <= |was| && Kept(was, now, p + Size(c))
    requires At(now, p + Size(c), d)
    ensures At(now, p, Cat(c, d)) && Size(Cat(c, d)) == Size(c) + Size(d)
  {
    AtShift(was, 0, p + Size(c), now, 0, p, p, c);
    AtCat(now, p, c, d);
    CatSize(c, d);
  }

  lemma {:induction false} CopiesExtend(was: seq<byte>, now: seq<byte>, p: nat, g: Piece, k: nat, q: nat, end: nat)
    requires At(was, p, Copies(g, k, Nil)) && q == p + Size(Copies(g, k, Nil))
    requires ItemAt(was, q, PlainGroup(g, NoZero)) && end == q + PieceSize(g)
    requires Kept(was, now, end)
    ensures At(now, p, Copies(g, k + 1, Nil)) && end == p + Size(Copies(g, k + 1, Nil))
  {
    hide At, ItemAt;
    var it := PlainGroup(g, NoZero);
    ItemShift(was, 0, end, now, 0, q, q, it);
    SingleAt(now, q, it);
    SingleSize(it);
    CopiesSnoc(g, k);
    AppendAt(was, now, p, Copies(g, k, Nil), Single(it));
  }

  // ----- a quantified group -----

  /** The minimum is zero: the group itself moves up. */
  method RepeatFromZero(a: array<byte>, previous: nat, code: nat, q: Quantifier, ghost g: Piece) returns (code': nat)
    requires q.Quant? && q.lo == 0 && code == previous + PieceSize(g)
    requires ItemAt(a[..], previous, PlainGroup(g, NoZero))
    requires previous + Size(RepeatedGroup(g, q.lo, q.hi, q.mode)) <= a.Length <= 65536
    modifies a
    ensures At(a[..], previous, RepeatedGroup(g, q.lo, q.hi, q.mode))
    ensures code' == previous + Size(RepeatedGroup(g, q.lo, q.hi, q.mode))
    ensures Kept(old(a[..]), a[..], previous)
  {
    RepeatedSize(g, q.lo, q.hi, q.mode);
    if q.hi > 1 {
      code' := NestFromZero(a, previous, code, q, g);
    } else {
      var zero := if q.hi == 0 then SkipZero else ZeroFor(q.mode);
      code' := InsertZero(a, previous, code, zero, PlainGroup(g, NoZero));
      if q.hi == -1 {
        code' := LoopFromZero(a, previous, code', q.mode, g);
      }
      SingleAt(a[..], previous, RepeatedGroup(g, q.lo, q.hi, q.mode).item);
    }
  }

  /** The group behind the BRAZERO becomes a loop; a possessive loop also changes the
      BRAZERO. */
  method LoopFromZero(a: array<byte>, previous: nat, code: nat, mode: Mode, ghost g: Piece) returns (code': nat)
    requires ItemAt(a[..], previous, PlainGroup(g, ZeroFor(mode))) && code == previous + 1 + PieceSize(g)
    modifies a
    ensures code' == code && ItemAt(a[..], previous, LoopGroup(g, if mode == Possessive then BraPosZero else ZeroFor(mode), mode))
    ensures Kept(old(a[..]), a[..], previous)
  {
    code' := code;
    ghost var was := a[..];
    ZeroElim(was, previous, PlainGroup(g, ZeroFor(mode)));
    MakeLoop(a, previous + 1, code, mode, g);
    assert a[..][previous] == was[previous];
    if mode == Possessive {
      ghost var mid := a[..];
      a[previous] := OP_BRAPOSZERO;
      ItemShift(mid, previous + 1, code, a[..], 0, previous + 1, previous + 1, LoopGroup(g, NoZero, mode));
      ZeroIntro(a[..], previous, LoopGroup(g, NoZero, mode), BraPosZero);
    } else {
      ZeroIntro(a[..], previous, LoopGroup(g, NoZero, mode), ZeroFor(mode));
    }
  }

  lemma {:induction false} ZeroElim(code: seq<byte>, p: nat, it: Bytecode.Item)
    requires it.Group? && it.zero != NoZero && ItemAt(code, p, it)
    ensures code[p] == ZeroOp(it.zero) && ItemAt(code, p + 1, it.(zero := NoZero))
  {
    hide ItemAt, AltsAt;
    GroupElim(code, p, it);
    GroupIntro(code, p + 1, it.(zero := NoZero));
  }

  method EmitOpenerAt(a: array<byte>, previous: nat, zero: Zero)
    requires zero != NoZero && previous + 4 <= a.Length
    modifies a
    ensures OpenerAt(a[..], previous, 0, zero)
    ensures |old(a[..])| == |a[..]| && Same(old(a[..]), previous + 4, a.Length, a[..], 0)
    ensures Kept(old(a[..]), a[..], previous)
  {
    a[previous] := ZeroOp(zero);
    a[previous + 1] := OP_BRA;
    Put(a, previous + 2, 0);
  }

  /** Moves the group up by four and puts an opener in front of it. */
  method MoveBehindOpener(a: array<byte>, previous: nat, code: nat, zero: Zero)
    requires zero != NoZero && previous <= code && code + 4 <= a.Length
    modifies a
    ensures Same(old(a[..]), previous, code, a[..], 4) && OpenerAt(a[..], previous, 0, zero)
    ensures Kept(old(a[..]), a[..], previous)
  {
    MoveUp(a, previous, code, 4);
    EmitOpenerAt(a, previous, zero);
  }

  /** The first of several optional copies is the group itself, moved up behind the
      outermost nesting bracket. */
  method OpenFirst(a: array<byte>, previous: nat, code: nat, zero: Zero, ghost g: Piece)
    requires zero != NoZero && code == previous + PieceSize(g) && code + 4 <= a.Length
    requires ItemAt(a[..], previous, PlainGroup(g, NoZero))
    modifies a
    ensures Nesting(a[..], previous, g, zero, 1, previous + 2, code + 4, previous + 4)
    ensures Kept(old(a[..]), a[..], previous)
  {
    ghost var was := a[..];
    MoveBehindOpener(a, previous, code, zero);
    ItemShift(was, previous, code, a[..], 4, previous, previous + 4, PlainGroup(g, NoZero));
    NestPush(was, a[..], previous, g, zero, 0, 0, previous);
  }

  method NestFromZero(a: array<byte>, previous: nat, code: nat, q: Quantifier, ghost g: Piece) returns (code': nat)
    requires q.Quant? && q.lo == 0 && q.hi > 1 && code == previous + PieceSize(g)
    requires ItemAt(a[..], previous, PlainGroup(g, NoZero))
    requires previous + Size(Optional(g, ZeroFor(q.mode), q.hi)) <= a.Length <= 65536
    modifies a
    ensures At(a[..], previous, Optional(g, ZeroFor(q.mode), q.hi))
    ensures code' == previous + Size(Optional(g, ZeroFor(q.mode), q.hi))
    ensures Kept(old(a[..]), a[..], previous)
  {
    var len := code - previous;
    OptionalSize(g, ZeroFor(q.mode), q.hi);
    NestedStep(q.hi, len);
    OpenFirst(a, previous, code, ZeroFor(q.mode), g);
    code' := NestCopies(a, previous + 4, code + 4, previous + 2, len, ZeroFor(q.mode), q.hi - 1, previous, g, 1);
  }

  /** The minimum is positive: that many copies come first. */
  method RepeatFromOne(a: array<byte>, previous: nat, code: nat, q: Quantifier, ghost g: Piece) returns (code': nat)
    requires q.Quant? && q.lo > 0 && code == previous + PieceSize(g)
    requires ItemAt(a[..], previous, PlainGroup(g, NoZero))
    requires previous + Size(RepeatedGroup(g, q.lo, q.hi, q.mode)) <= a.Length <= 65536
    modifies a
    ensures At(a[..], previous, RepeatedGroup(g, q.lo, q.hi, q.mode))
    ensures code' == previous + Size(RepeatedGroup(g, q.lo, q.hi, q.mode))
    ensures Kept(old(a[..]), a[..], previous)
  {
    var len := code - previous;
    RepeatedRoom(g, q);
    var last;
    code', last := CopyTimes(a, previous, code, len, q.lo, g);
    if q.hi == -1 {
      EndLoop(a, previous, last, code', q, g);
    } else {
      code' := EndOptional(a, previous, last, code', len, q, g);
    }
  }

  lemma {:induction false} RepeatedRoom(g: Piece, q: Quantifier)
    requires q.Quant? && q.lo > 0
    ensures Size(Copies(g, q.lo - 1, Nil)) + PieceSize(g) + (if q.hi > q.lo then NestedLength(q.hi - q.lo, PieceSize(g)) else 0)
            == Size(RepeatedGroup(g, q.lo, q.hi, q.mode))
  {
    RepeatedSize(g, q.lo, q.hi, q.mode);
    CopiesSize(g, q.lo - 1, Nil);
  }

  /** The last copy becomes a loop. */
  method EndLoop(a: array<byte>, previous: nat, last: nat, code: nat, q: Quantifier, ghost g: Piece)
    requires q.Quant? && q.lo > 0 && q.hi == -1
    requires At(a[..], previous, Copies(g, q.lo - 1, Nil)) && last == previous + Size(Copies(g, q.lo - 1, Nil))
    requires ItemAt(a[..], last, PlainGroup(g, NoZero)) && code == last + PieceSize(g)
    modifies a
    ensures At(a[..], previous, RepeatedGroup(g, q.lo, q.hi, q.mode))
    ensures code == previous + Size(RepeatedGroup(g, q.lo, q.hi, q.mode))
    ensures Kept(old(a[..]), a[..], previous)
  {
    ghost var was := a[..];
    MakeLoop(a, last, code, q.mode, g);
    ghost var it := LoopGroup(g, NoZero, q.mode);
    SingleAt(a[..], last, it);
    SingleSize(it);
    AppendAt(was, a[..], previous, Copies(g, q.lo - 1, Nil), Single(it));
    CopiesCat(g, q.lo - 1, Single(it));
  }

  /** The last required copy is followed by the optional ones, if any. */
  method EndOptional(a: array<byte>, previous: nat, last: nat, code: nat, len: nat, q: Quantifier, ghost g: Piece) returns (code': nat)
    requires q.Quant? && q.lo > 0 && q.hi != -1 && len == PieceSize(g)
    requires At(a[..], previous, Copies(g, q.lo - 1, Nil)) && last == previous + Size(Copies(g, q.lo - 1, Nil))
    requires ItemAt(a[..], last, PlainGroup(g, NoZero)) && code == last + len
    requires ItemAt(a[..], previous, PlainGroup(g, NoZero))
    requires code + NestedLength(q.hi - q.lo, len) <= a.Length <= 65536
    modifies a
    ensures At(a[..], previous, RepeatedGroup(g, q.lo, q.hi, q.mode))
    ensures code' == previous + Size(RepeatedGroup(g, q.lo, q.hi, q.mode))
    ensures Kept(old(a[..]), a[..], previous)
  {
    ghost var was := a[..];
    var zero := ZeroFor(q.mode);
    code' := code;
    CopiesExtend(was, was, previous, g, q.lo - 1, last, code);
    if q.hi > q.lo {
      code' := NestCopies(a, previous, code, 0, len, zero, q.hi - q.lo, code, g, 0);
    }
    AppendAt(was, a[..], previous, Copies(g, q.lo, Nil), Optional(g, zero, q.hi - q.lo));
    CopiesCat(g, q.lo, Optional(g, zero, q.hi - q.lo));
  }

  /** A compiled group with its quantifier. */
  method RepeatGroup(a: array<byte>, previous: nat, code: nat, q: Quantifier, ghost g: Piece) returns (code': nat)
    requires code == previous + PieceSize(g) && ItemAt(a[..], previous, PlainGroup(g, NoZero))
    requires previous + Size(GroupCode(g, q)) <= a.Length <= 65536
    modifies a
    ensures At(a[..], previous, GroupCode(g, q)) && code' == previous + Size(GroupCode(g, q))
    ensures Kept(old(a[..]), a[..], previous)
  {
    if q == NoQuant {
      SingleAt(a[..], previous, PlainGroup(g, NoZero));
      SingleSize(PlainGroup(g, NoZero));
      return code;
    }
    ghost var c := RepeatedGroup(g, q.lo, q.hi, q.mode);
    AtomicSize(c);
    if q.lo == 0 {
      code' := RepeatFromZero(a, previous, code, q, g);
    } else {
      code' := RepeatFromOne(a, previous, code, q, g);
    }
    if NeedsAtomic(q) {
      code' := WrapOnce(a, previous, code', c);
    }
  }
}
