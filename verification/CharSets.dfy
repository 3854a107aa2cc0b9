/** Whether two single-character items can accept a common character, as the compiler
    works it out: from short character lists, bitmaps, or a table of type pairs. */
module CharSets {
  import opened Arithmetic
  import opened Opcodes
  import opened Bytecode
  import opened Matching

  // ----- bytes as sets of bits -----

  function BothBits(a: byte, b: byte, k: nat): nat
    requires k < 8
  {
    if Bit(a, k) && Bit(b, k) then Power2(k) else 0
  }

  /** Bitwise AND. */
  function And(a: byte, b: byte): nat
  {
    BothBits(a, b, 0) + BothBits(a, b, 1) + BothBits(a, b, 2) + BothBits(a, b, 3) +
    BothBits(a, b, 4) + BothBits(a, b, 5) + BothBits(a, b, 6) + BothBits(a, b, 7)
  }

  lemma AndZero(a: byte, b: byte, k: nat)
    requires k < 8 && And(a, b) == 0
    ensures !(Bit(a, k) && Bit(b, k))
  {
  }

  /** Bitwise NOT of a byte. */
  function Not(b: byte): byte { 255 - b }

  /** All bits of 255 are set. */
  lemma AllBits(k: nat) returns (h: nat)
    requires k < 8
    ensures Power2(k) > 0 && 255 == Power2(k) * (2 * h + 1) + Power2(k) - 1
  {
    h := if k == 0 then 127 else if k == 1 then 63 else if k == 2 then 31 else if k == 3 then 15
         else if k == 4 then 7 else if k == 5 then 3 else if k == 6 then 1 else 0;
  }

  lemma NotBit(b: byte, k: nat)
    requires k < 8
    ensures Bit(Not(b), k) <==> !Bit(b, k)
  {
    hide Power2;
    var p, n: int := Power2(k), b as int;
    var h := AllBits(k);
    var q, r := n / p, n % p;
    assert n == p * q + r;
    assert p * (2 * h + 2) == p * (2 * h + 1) + p;
    Cancel(p, q, 2 * h + 2);
    var q' := 2 * h + 1 - q;
    assert 255 - n == p * q' + (p - 1 - r);
    Quotient(255 - n, p, q', p - 1 - r);
  }

  // ----- the built-in bitmaps for digits, spaces and word characters -----

  predicate HasBitmap(t: TypeOp) { OP_NOT_DIGIT <= t <= OP_WORDCHAR }

  predicate IsNegated(t: TypeOp) { t == OP_NOT_DIGIT || t == OP_NOT_WHITESPACE || t == OP_NOT_WORDCHAR }

  function DigitByte(k: nat): byte { if k == 6 then 0xff else if k == 7 then 0x03 else 0 }

  function SpaceByte(k: nat): byte { if k == 1 then 0x3e else if k == 4 then 0x01 else 0 }

  function WordByte(k: nat): byte
  {
    if k == 6 || k == 9 || k == 10 || k == 13 || k == 14 then 0xff
    else if k == 8 || k == 12 then 0xfe
    else if k == 11 then 0x87
    else if k == 7 then 0x03
    else if k == 15 then 0x07
    else 0
  }

  /** The table for a type; a negated type uses the same one, inverted. */
  function TypeByte(t: TypeOp, k: nat): byte
    requires HasBitmap(t)
  {
    if t == OP_DIGIT || t == OP_NOT_DIGIT then DigitByte(k)
    else if t == OP_WHITESPACE || t == OP_NOT_WHITESPACE then SpaceByte(k)
    else WordByte(k)
  }

  function TypeBits(t: TypeOp): Bitmap
    requires HasBitmap(t)
  {
    seq(32, k requires 0 <= k < 32 => if IsNegated(t) then Not(TypeByte(t, k)) else TypeByte(t, k))
  }

  lemma DigitBit(c: byte)
    ensures Bit(DigitByte(c / 8), c % 8) <==> IsDigit(c)
  {
  }

  lemma SpaceBit(c: byte)
    ensures Bit(SpaceByte(c / 8), c % 8) <==> IsSpace(c)
  {
  }

  lemma WordBit(c: byte)
    ensures Bit(WordByte(c / 8), c % 8) <==> IsWord(c)
  {
  }

  lemma TypeBit(t: TypeOp, c: byte)
    requires HasBitmap(t)
    ensures InBitmap(TypeBits(t), c) <==> IsType(t, c)
  {
    DigitBit(c);
    SpaceBit(c);
    WordBit(c);
    NotBit(TypeByte(t, c / 8), c % 8);
  }

  // ----- disjointness -----

  /** The characters a literal names: one, or two that differ in case. */
  function Chars(sel: Sel): seq<byte>
    requires sel.Lit?
  {
    if sel.caseless && OtherCase(sel.c) != sel.c then [sel.c, OtherCase(sel.c)] else [sel.c]
  }

  /** Checking one listed character against an item. An item that is not understood
      counts as a clash. */
  predicate Clash(t: Sel, x: byte)
  {
    match t
    case Lit(_, _, negated) => (x in Chars(t)) != negated
    case Type(op) => if op == OP_WORDCHAR then x < 255 && IsWord(x) else op == OP_ANY || IsType(op, x)
    case Set(_, bits) => InBitmap(bits, x)
  }

  predicate BitmapsDisjoint(a: Bitmap, b: Bitmap)
  {
    forall k :: 0 <= k < 32 ==> And(a[k], b[k]) == 0
  }

  /** The entries of the type table that patterns of this subset can reach. */
  predicate TypesDisjoint(left: TypeOp, right: TypeOp)
  {
    if left == OP_NOT_DIGIT then right == OP_DIGIT
    else if left == OP_DIGIT then right == OP_NOT_DIGIT || right == OP_WHITESPACE || right == OP_NOT_WORDCHAR
    else if left == OP_NOT_WHITESPACE then right == OP_WHITESPACE
    else if left == OP_WHITESPACE then right == OP_DIGIT || right == OP_NOT_WHITESPACE || right == OP_WORDCHAR
    else if left == OP_NOT_WORDCHAR then right == OP_DIGIT || right == OP_WORDCHAR
    else if left == OP_WORDCHAR then right == OP_WHITESPACE || right == OP_NOT_WORDCHAR
    else false
  }

  predicate IsList(sel: Sel) { sel.Lit? && !sel.negated }

  predicate Disjoint(base: Sel, t: Sel)
  {
    if IsList(base) then forall x :: x in Chars(base) ==> !Clash(t, x)
    else if IsList(t) then forall x :: x in Chars(t) ==> !Clash(base, x)
    else if base.Set? || t.Set? then
      var set1, other := if base.Set? then base else t, if base.Set? then t else base;
      match other
      case Set(_, bits) => BitmapsDisjoint(set1.bits, bits)
      case Type(op) => HasBitmap(op) && BitmapsDisjoint(set1.bits, TypeBits(op))
      case Lit(_, _, _) => false
    else base.Type? && t.Type? && TypesDisjoint(base.t, t.t)
  }

  lemma ClashSound(t: Sel, x: byte)
    requires Accepts(t, x)
    ensures Clash(t, x)
  {
  }

  lemma BitmapsSound(a: Bitmap, b: Bitmap, x: byte)
    requires BitmapsDisjoint(a, b)
    ensures !(InBitmap(a, x) && InBitmap(b, x))
  {
    AndZero(a[x / 8], b[x / 8], x % 8);
  }

  lemma ListMember(sel: Sel, x: byte)
    requires IsList(sel)
    ensures Accepts(sel, x) <==> x in Chars(sel)
  {
  }

  /** Items found disjoint have no character in common. */
  lemma DisjointSound(base: Sel, t: Sel, x: byte)
    requires Disjoint(base, t)
    ensures !(Accepts(base, x) && Accepts(t, x))
  {
    if IsList(base) {
      ListMember(base, x);
      if Accepts(t, x) {
        ClashSound(t, x);
      }
    } else if IsList(t) {
      ListMember(t, x);
      if Accepts(base, x) {
        ClashSound(base, x);
      }
    } else if base.Set? || t.Set? {
      var set1, other := if base.Set? then base else t, if base.Set? then t else base;
      if other.Type? {
        TypeBit(other.t, x);
        BitmapsSound(set1.bits, TypeBits(other.t), x);
      } else {
        BitmapsSound(set1.bits, other.bits, x);
      }
    }
  }

  // ----- when the comparison finds them so -----

  /** Pairs that the comparison cannot tell: a bitmap against a negated literal or a dot, and a
      literal newline against the dot that does not accept one. */
  predicate Comparable(base: Sel, t: Sel)
  {
    && (base.Set? ==> Mapped(t))
    && (t.Set? ==> Mapped(base))
    && (IsList(base) && t == Type(OP_ANY) ==> base.c != NEWLINE)
    && (IsList(t) && base == Type(OP_ANY) ==> t.c != NEWLINE)
  }

  /** Has a list or a bitmap. */
  predicate Mapped(sel: Sel)
  {
    sel.Set? || IsList(sel) || (sel.Type? && HasBitmap(sel.t))
  }

  ghost predicate NoCommon(base: Sel, t: Sel)
  {
    forall x: byte :: !(Accepts(base, x) && Accepts(t, x))
  }

  lemma AndMeets(a: byte, b: byte) returns (k: nat)
    requires And(a, b) != 0
    ensures k < 8 && Bit(a, k) && Bit(b, k)
  {
    hide Bit;
    k := 0;
    while k < 7 && !(Bit(a, k) && Bit(b, k))
      invariant k < 8 && forall i :: 0 <= i < k ==> !(Bit(a, i) && Bit(b, i))
    {
      k := k + 1;
    }
  }

  lemma BitmapsMeet(a: Bitmap, b: Bitmap) returns (x: byte)
    requires !BitmapsDisjoint(a, b)
    ensures InBitmap(a, x) && InBitmap(b, x)
  {
    hide And, Bit;
    var i :| 0 <= i < 32 && And(a[i], b[i]) != 0;
    var k := AndMeets(a[i], b[i]);
    x := 8 * i + k;
    assert x / 8 == i && x % 8 == k;
  }

  /** Of the types that the table does not list as disjoint, any two share a character. */
  lemma TypesMeet(left: TypeOp, right: TypeOp) returns (x: byte)
    requires !TypesDisjoint(left, right)
    ensures IsType(left, x) && IsType(right, x)
  {
    x := if IsType(left, 48) && IsType(right, 48) then 48
         else if IsType(left, 97) && IsType(right, 97) then 97
         else if IsType(left, 32) && IsType(right, 32) then 32 else 45;
  }

  /** A negated literal leaves out too few characters to be disjoint from a type or from
      another one. */
  lemma NegatedMeets(base: Sel, t: Sel) returns (x: byte)
    requires base.Lit? && base.negated && (t.Type? || (t.Lit? && t.negated))
    ensures Accepts(base, x) && Accepts(t, x)
  {
    if t.Lit? {
      x := Missing(Chars(base) + Chars(t), 0);
    } else {
      var first := if IsType(t.t, 48) && t.t != OP_NOT_WHITESPACE then 48 else if IsType(t.t, 32) then 9 else 33;
      var second := if first == 48 then 49 else if first == 9 then 11 else 35;
      var third := if first == 48 then 50 else if first == 9 then 32 else 36;
      x := if Accepts(base, first) then first else if Accepts(base, second) then second else third;
    }
  }

  /** A character that is not in a short list. */
  lemma Missing(xs: seq<byte>, from: byte) returns (x: byte)
    requires |xs| + from < 256
    ensures x !in xs && x >= from
    decreases |xs|
  {
    if from !in xs {
      x := from;
    } else {
      var i :| 0 <= i < |xs| && xs[i] == from;
      var rest := xs[..i] + xs[i + 1..];
      x := Missing(rest, from + 1);
      assert forall k :: 0 <= k < |xs| && k != i ==> xs[k] in rest;
    }
  }

  lemma ListMeets(list: Sel, t: Sel)
    requires IsList(list) && !(t == Type(OP_ANY) && list.c == NEWLINE)
    requires exists x :: x in Chars(list) && Clash(t, x)
    ensures !NoCommon(list, t)
  {
    var x :| x in Chars(list) && Clash(t, x);
    ListMember(list, x);
    if Accepts(t, x) {
      assert Accepts(list, x) && Accepts(t, x);
    } else {
      assert Accepts(list, list.c) && Accepts(t, list.c);
    }
  }

  /** Two items are found disjoint exactly when they have no character in common and the
      comparison can tell. */
  lemma DisjointExactly(base: Sel, t: Sel)
    ensures Disjoint(base, t) <==> Comparable(base, t) && NoCommon(base, t)
  {
    if Disjoint(base, t) {
      forall x: byte ensures !(Accepts(base, x) && Accepts(t, x)) {
        DisjointSound(base, t, x);
      }
      DisjointComparable(base, t);
    } else if Comparable(base, t) {
      NotDisjoint(base, t);
    }
  }

  lemma DisjointComparable(base: Sel, t: Sel)
    requires Disjoint(base, t)
    ensures Comparable(base, t)
  {
    if IsList(base) {
      assert base.c in Chars(base);
    } else if IsList(t) {
      assert t.c in Chars(t);
    }
  }

  lemma NotDisjoint(base: Sel, t: Sel)
    requires !Disjoint(base, t) && Comparable(base, t)
    ensures !NoCommon(base, t)
  {
    hide BitmapsDisjoint, InBitmap, IsType, TypesDisjoint, Clash;
    if IsList(base) {
      ListMeets(base, t);
    } else if IsList(t) {
      ListMeets(t, base);
      var x: byte :| Accepts(base, x) && Accepts(t, x);
    } else if base.Set? || t.Set? {
      var set1, other := if base.Set? then base else t, if base.Set? then t else base;
      var bits := if other.Set? then other.bits else TypeBits(other.t);
      var x := BitmapsMeet(set1.bits, bits);
      if other.Type? {
        TypeBit(other.t, x);
      }
      assert Accepts(base, x) && Accepts(t, x);
    } else if base.Type? && t.Type? {
      var x := TypesMeet(base.t, t.t);
      assert Accepts(base, x) && Accepts(t, x);
    } else if base.Lit? {
      var x := NegatedMeets(base, t);
      assert Accepts(base, x) && Accepts(t, x);
    } else {
      var x := NegatedMeets(t, base);
      assert Accepts(base, x) && Accepts(t, x);
    }
  }
}
