/** Looking names up in the finished table by binary search. The comparison here is the
    string comparison, on signed characters, not the one used to build the table. */
module NameLookup {
  import opened Opcodes
  import opened NameTable

  const ERROR_NOSUBSTRING := -7

  /** A C string: no zero bytes, but possibly bytes over 127. */
  type CString = s: seq<byte> | forall i :: 0 <= i < |s| ==> s[i] > 0 witness []

  function Signed(b: byte): int { if b < 128 then b else b - 256 }

  function StrCompare(a: seq<byte>, b: seq<byte>): int
  {
    if a == [] && b == [] then 0
    else if a == [] then -Signed(b[0])
    else if b == [] then Signed(a[0])
    else if a[0] != b[0] then Signed(a[0]) - Signed(b[0])
    else StrCompare(a[1..], b[1..])
  }

  lemma {:induction false} StrCompareZero(q: CString, m: AsciiName)
    ensures StrCompare(q, m) == 0 <==> q == m
    decreases q
  {
    if q != [] && m != [] {
      StrCompareZero(q[1..], m[1..]);
      assert q == [q[0]] + q[1..] && m == [m[0]] + m[1..];
    }
  }

  /** Both comparisons agree well enough: what is behind the later of two names is behind
      the earlier one, and what is before the earlier is before the later. */
  lemma {:induction false} StrCompareMono(q: CString, m: AsciiName, n: AsciiName)
    requires Compare(m, n) <= 0
    ensures StrCompare(q, n) > 0 ==> StrCompare(q, m) > 0
    ensures StrCompare(q, m) < 0 ==> StrCompare(q, n) < 0
    decreases q
  {
    if q != [] && m != [] && n != [] && q[0] == m[0] && m[0] == n[0] {
      StrCompareMono(q[1..], m[1..], n[1..]);
    }
  }

  /** The characters where two strings part, a string that ends there giving zero. */
  function Parting(a: CString, b: CString): (byte, byte)
  {
    if a != [] && b != [] && a[0] == b[0] then Parting(a[1..], b[1..])
    else (if a == [] then 0 else a[0], if b == [] then 0 else b[0])
  }

  /** The order by which the table is built and the one by which it is searched agree on two
      strings exactly when the characters where they part are both ASCII or both not. */
  lemma {:induction false} OrdersAgree(a: CString, b: CString)
    requires a != b
    ensures var (x, y) := Parting(a, b);
            ((StrCompare(a, b) < 0 <==> Compare(a, b) < 0) <==> (x < 128 <==> y < 128)) && StrCompare(a, b) != 0 && Compare(a, b) != 0
    decreases a
  {
    if a != [] && b != [] && a[0] == b[0] {
      assert a == [a[0]] + a[1..] && b == [b[0]] + b[1..];
      OrdersAgree(a[1..], b[1..]);
    }
  }

  /** The string against the name in a slot. */
  method StrCmp(q: CString, table: seq<byte>, p: nat, ghost e: Entry) returns (c: int)
    requires EntryAt(table, p, e)
    ensures c == StrCompare(q, e.name)
  {
    var i := 0;
    ghost var m := e.name;
    assert q[0..] == q && m[0..] == m;
    NameByte(table, p, e, 0);
    while i < |q| && table[p + 2 + i] != 0 && q[i] == table[p + 2 + i]
      invariant 0 <= i <= |q| && i <= |m|
      invariant StrCompare(q, m) == StrCompare(q[i..], m[i..])
      invariant table[p + 2 + i] == if i < |m| then m[i] else 0
    {
      assert q[i..][1..] == q[i + 1..] && m[i..][1..] == m[i + 1..];
      i := i + 1;
      NameByte(table, p, e, i);
    }
    c := (if i < |q| then Signed(q[i]) else 0) - Signed(table[p + 2 + i]);
  }

  lemma NameByte(table: seq<byte>, p: nat, e: Entry, i: nat)
    requires EntryAt(table, p, e) && i <= |e.name|
    ensures p + 2 + i < |table| && table[p + 2 + i] == if i < |e.name| then e.name[i] else 0
  {
    if i < |e.name| {
      assert table[p + 2..p + 2 + |e.name|][i] == e.name[i];
    }
  }

  /** The string is behind every name before bot and before every name from top on. */
  ghost predicate Between(q: CString, es: seq<Entry>, bot: nat, top: nat)
  {
    && bot <= top <= |es|
    && (forall i :: 0 <= i < bot ==> StrCompare(q, es[i].name) > 0)
    && (forall i :: top <= i < |es| ==> StrCompare(q, es[i].name) < 0)
  }

  lemma Narrow(q: CString, es: seq<Entry>, bot: nat, top: nat, mid: nat)
    requires Sorted(es) && Between(q, es, bot, top) && bot <= mid < top
    ensures StrCompare(q, es[mid].name) > 0 ==> Between(q, es, mid + 1, top)
    ensures StrCompare(q, es[mid].name) < 0 ==> Between(q, es, bot, mid)
  {
    forall i | 0 <= i < mid ensures StrCompare(q, es[mid].name) > 0 ==> StrCompare(q, es[i].name) > 0 {
      StrCompareMono(q, es[i].name, es[mid].name);
    }
    forall i | mid < i < |es| ensures StrCompare(q, es[mid].name) < 0 ==> StrCompare(q, es[i].name) < 0 {
      StrCompareMono(q, es[mid].name, es[i].name);
    }
  }

  lemma NotThere(q: CString, es: seq<Entry>, bot: nat)
    requires Between(q, es, bot, bot)
    ensures forall i :: 0 <= i < |es| ==> es[i].name != q
  {
    forall i | 0 <= i < |es| ensures es[i].name != q {
      StrCompareZero(q, es[i].name);
    }
  }

  /** The position of some entry with the name, or -1. */
  method Search(table: seq<byte>, entrysize: nat, count: nat, q: CString, ghost es: seq<Entry>) returns (mid: int)
    requires TableAt(table, entrysize, es) && Sorted(es) && count == |es|
    ensures mid >= 0 ==> mid < |es| && es[mid].name == q
    ensures mid < 0 ==> forall i :: 0 <= i < |es| ==> es[i].name != q
  {
    var top, bot := count, 0;
    while top > bot
      invariant 0 <= bot <= top && Between(q, es, bot, top)
    {
      mid := (top + bot) / 2;
      SlotIsProduct(mid, entrysize);
      assert Holds(table, entrysize, mid, es[mid]);
      var c := StrCmp(q, table, entrysize * mid, es[mid]);
      StrCompareZero(q, es[mid].name);
      if c == 0 {
        return;
      }
      Narrow(q, es, bot, top, mid);
      if c > 0 {
        bot := mid + 1;
      } else {
        top := mid;
      }
    }
    NotThere(q, es, bot);
    mid := -1;
  }

  /** The number of some group with the name; none exactly when it was never added. */
  method GetStringNumber(table: seq<byte>, entrysize: nat, count: nat, q: CString, ghost es: seq<Entry>) returns (number: int)
    requires TableAt(table, entrysize, es) && Sorted(es) && count == |es|
    ensures number == ERROR_NOSUBSTRING <==> forall i :: 0 <= i < |es| ==> es[i].name != q
    ensures number != ERROR_NOSUBSTRING ==> exists i :: 0 <= i < |es| && es[i].name == q && es[i].number == number
  {
    var mid := Search(table, entrysize, count, q, es);
    if mid < 0 {
      return ERROR_NOSUBSTRING;
    }
    SlotIsProduct(mid, entrysize);
    assert Holds(table, entrysize, mid, es[mid]);
    number := Get(table, entrysize * mid);
  }

  method SameName(table: seq<byte>, entrysize: nat, p: nat, q: CString, ghost es: seq<Entry>, ghost i: nat) returns (r: bool)
    requires TableAt(table, entrysize, es) && i < |es| && p == Slot(i, entrysize)
    ensures r <==> es[i].name == q
  {
    assert Holds(table, entrysize, i, es[i]);
    var c := StrCmp(q, table, p, es[i]);
    StrCompareZero(q, es[i].name);
    return c == 0;
  }

  lemma EntryRoom(table: seq<byte>, entrysize: nat, es: seq<Entry>, i: nat)
    requires TableAt(table, entrysize, es) && i < |es|
    ensures entrysize >= 3
  {
    assert Holds(table, entrysize, i, es[i]);
  }

  /** Back over the entries with the name. */
  method FirstOne(table: seq<byte>, entrysize: nat, entry: nat, q: CString, ghost es: seq<Entry>, ghost mid: nat)
    returns (first: nat, ghost a: nat)
    requires TableAt(table, entrysize, es) && mid < |es| && entry == Slot(mid, entrysize) && es[mid].name == q
    ensures a <= mid && first == Slot(a, entrysize)
    ensures (forall i :: a <= i <= mid ==> es[i].name == q) && (a > 0 ==> es[a - 1].name != q)
  {
    hide Holds;
    first, a := entry, mid;
    while first > 0
      invariant a <= mid && first == Slot(a, entrysize)
      invariant forall i :: a <= i <= mid ==> es[i].name == q
      decreases a
    {
      var same := SameName(table, entrysize, first - entrysize, q, es, a - 1);
      if !same {
        break;
      }
      first, a := first - entrysize, a - 1;
    }
    if a > 0 {
      EntryRoom(table, entrysize, es, a);
      SlotMono(0, a, entrysize);
    }
  }

  /** On over the entries with the name. */
  method LastOne(table: seq<byte>, entrysize: nat, entry: nat, lastentry: nat, q: CString, ghost es: seq<Entry>, ghost mid: nat)
    returns (last: nat, ghost b: nat)
    requires TableAt(table, entrysize, es) && mid < |es| && entry == Slot(mid, entrysize) && es[mid].name == q
    requires lastentry == Slot(|es| - 1, entrysize)
    ensures mid <= b < |es| && last == Slot(b, entrysize)
    ensures (forall i :: mid <= i <= b ==> es[i].name == q) && (b + 1 < |es| ==> es[b + 1].name != q)
  {
    hide TableAt;
    last, b := entry, mid;
    LastSlot(table, entrysize, es, b);
    while last < lastentry
      invariant mid <= b < |es| && last == Slot(b, entrysize) && (last < lastentry <==> b + 1 < |es|)
      invariant forall i :: mid <= i <= b ==> es[i].name == q
      decreases |es| - b
    {
      var same := SameName(table, entrysize, last + entrysize, q, es, b + 1);
      if !same {
        break;
      }
      last, b := last + entrysize, b + 1;
      LastSlot(table, entrysize, es, b);
    }
  }

  lemma LastSlot(table: seq<byte>, entrysize: nat, es: seq<Entry>, b: nat)
    requires TableAt(table, entrysize, es) && b < |es|
    ensures Slot(b, entrysize) < Slot(|es| - 1, entrysize) <==> b + 1 < |es|
  {
    assert Holds(table, entrysize, b, es[b]);
    if b + 1 < |es| {
      SlotMono(b, |es| - 1, entrysize);
    }
  }

  /** In a table that is in order, a run that cannot be extended is all of the name's
      entries. */
  lemma RunIsNamed(q: CString, es: seq<Entry>, a: nat, b: nat)
    requires Sorted(es) && a <= b < |es| && (forall i :: a <= i <= b ==> es[i].name == q)
    requires (a > 0 ==> es[a - 1].name != q) && (b + 1 < |es| ==> es[b + 1].name != q)
    ensures forall i :: 0 <= i < |es| ==> (es[i].name == q <==> a <= i <= b)
    ensures es[a..b + 1] == Named(es, q)
  {
    hide Sorted, Named;
    RunIsAll(q, es, a, b);
    NamedRun(q, es[..a], es[a..b + 1], es[b + 1..]);
    assert es == es[..a] + (es[a..b + 1] + es[b + 1..]);
  }

  lemma NamedRun(q: CString, left: seq<Entry>, run: seq<Entry>, right: seq<Entry>)
    requires (forall i :: 0 <= i < |left| ==> left[i].name != q) && (forall i :: 0 <= i < |right| ==> right[i].name != q)
    requires forall i :: 0 <= i < |run| ==> run[i].name == q
    ensures Named(left + (run + right), q) == run
  {
    NamedNone(left, q);
    NamedNone(right, q);
    NamedAll(run, q);
    NamedCat(left, run + right, q);
    NamedCat(run, right, q);
  }

  lemma RunIsAll(q: CString, es: seq<Entry>, a: nat, b: nat)
    requires Sorted(es) && a <= b < |es| && (forall i :: a <= i <= b ==> es[i].name == q)
    requires (a > 0 ==> es[a - 1].name != q) && (b + 1 < |es| ==> es[b + 1].name != q)
    ensures forall i :: 0 <= i < |es| ==> (es[i].name == q <==> a <= i <= b)
  {
    forall i | 0 <= i < a ensures es[i].name != q {
      if es[i].name == q {
        Outside(es, i, a - 1, a);
      }
    }
    forall i | b < i < |es| ensures es[i].name != q {
      if es[i].name == q {
        Outside(es, b, b + 1, i);
      }
    }
  }

  /** Equal names have nothing different between them. */
  lemma Outside(es: seq<Entry>, i: nat, j: nat, k: nat)
    requires Sorted(es) && i <= j <= k < |es| && es[i].name == es[k].name
    ensures es[j].name == es[i].name
  {
    if i < j < k {
      CompareSwap(es[i].name, es[j].name);
      CompareZero(es[i].name, es[j].name);
    }
  }

  lemma {:induction false} NamedAll(es: seq<Entry>, name: seq<byte>)
    requires forall i :: 0 <= i < |es| ==> es[i].name == name
    ensures Named(es, name) == es
    decreases es
  {
    if es != [] {
      NamedAll(es[1..], name);
      assert es == [es[0]] + es[1..];
    }
  }

  /** The first and last slot with the name. */
  method GetStringTableEntries(table: seq<byte>, entrysize: nat, count: nat, q: CString, ghost es: seq<Entry>)
    returns (found: bool, first: nat, last: nat, ghost a: nat, ghost b: nat)
    requires TableAt(table, entrysize, es) && Sorted(es) && count == |es|
    ensures found <==> exists i :: 0 <= i < |es| && es[i].name == q
    ensures found ==> a <= b < |es| && first == Slot(a, entrysize) && last == Slot(b, entrysize)
    ensures found ==> es[a..b + 1] == Named(es, q)
    ensures found ==> forall i :: 0 <= i < |es| ==> (es[i].name == q <==> a <= i <= b)
  {
    first, last, a, b := 0, 0, 0, 0;
    var mid := Search(table, entrysize, count, q, es);
    if mid < 0 {
      return false, 0, 0, 0, 0;
    }
    found := true;
    SlotIsProduct(mid, entrysize);
    SlotIsProduct(count - 1, entrysize);
    first, a := FirstOne(table, entrysize, entrysize * mid, q, es, mid);
    last, b := LastOne(table, entrysize, entrysize * mid, (count - 1) * entrysize, q, es, mid);
    RunIsNamed(q, es, a, b);
  }
}
