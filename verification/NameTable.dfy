/** The table of group names: it is kept in order as names are added, and looked up by
    binary search. */
module NameTable {
  import opened Opcodes
  import opened Bytecode

  /** A name is a sequence of ASCII bytes, as the compiler's word-character test lets
      through; in the table a zero byte follows it. */
  type AsciiName = n: seq<byte> | forall i :: 0 <= i < |n| ==> 0 < n[i] < 128 witness []

  datatype Entry = Entry(number: u16, name: AsciiName)

  // ----- order -----

  /** Negative, zero or positive, as the comparison of bytes gives it. */
  function Compare(a: seq<byte>, b: seq<byte>): int
  {
    if a == [] && b == [] then 0
    else if a == [] then -(b[0] as int)
    else if b == [] then a[0]
    else if a[0] != b[0] then a[0] as int - b[0] as int
    else Compare(a[1..], b[1..])
  }

  lemma {:induction false} CompareZero(a: AsciiName, b: AsciiName)
    ensures Compare(a, b) == 0 <==> a == b
    decreases a
  {
    if a != [] && b != [] {
      CompareZero(a[1..], b[1..]);
      assert a == [a[0]] + a[1..] && b == [b[0]] + b[1..];
    }
  }

  lemma {:induction false} CompareSwap(a: seq<byte>, b: seq<byte>)
    ensures Compare(a, b) == -Compare(b, a)
    decreases a
  {
    if a != [] && b != [] {
      CompareSwap(a[1..], b[1..]);
    }
  }

  lemma {:induction false} CompareTrans(a: AsciiName, b: AsciiName, c: AsciiName)
    requires Compare(a, b) <= 0 && Compare(b, c) <= 0
    ensures Compare(a, c) <= 0
    ensures Compare(a, b) < 0 || Compare(b, c) < 0 ==> Compare(a, c) < 0
    decreases a
  {
    if a != [] && b != [] && c != [] {
      if a[0] == b[0] && b[0] == c[0] {
        CompareTrans(a[1..], b[1..], c[1..]);
      }
    }
  }

  ghost predicate Sorted(es: seq<Entry>)
  {
    forall i, j :: 0 <= i < j < |es| ==> Compare(es[i].name, es[j].name) <= 0
  }

  // ----- adding names -----

  /** Where a new name goes: in front of the first later one. */
  function Place(es: seq<Entry>, name: seq<byte>): (i: nat)
    ensures i <= |es|
  {
    if es == [] || Compare(name, es[0].name) < 0 then 0 else 1 + Place(es[1..], name)
  }

  function Insert(es: seq<Entry>, e: Entry): seq<Entry>
  {
    var i := Place(es, e.name);
    es[..i] + [e] + es[i..]
  }

  /** All names added, in the order in which they appear in the pattern. */
  function AddAll(adds: seq<Entry>): seq<Entry>
  {
    if adds == [] then [] else Insert(AddAll(adds[..|adds| - 1]), adds[|adds| - 1])
  }

  /** The entries with a name, in order. */
  function Named(es: seq<Entry>, name: seq<byte>): seq<Entry>
  {
    if es == [] then []
    else if es[0].name == name then [es[0]] + Named(es[1..], name)
    else Named(es[1..], name)
  }

  lemma {:induction false} NamedCat(a: seq<Entry>, b: seq<Entry>, name: seq<byte>)
    ensures Named(a + b, name) == Named(a, name) + Named(b, name)
    decreases a
  {
    if a == [] {
      assert a + b == b;
    } else {
      NamedCat(a[1..], b, name);
      assert (a + b)[1..] == a[1..] + b;
    }
  }

  /** Everything before the place is no later, everything from it on is later. */
  lemma {:induction false} PlaceSplits(es: seq<Entry>, name: AsciiName)
    requires Sorted(es)
    ensures forall j :: 0 <= j < Place(es, name) ==> Compare(es[j].name, name) <= 0
    ensures forall j :: Place(es, name) <= j < |es| ==> Compare(name, es[j].name) < 0
    decreases es
  {
    if es != [] {
      if Compare(name, es[0].name) < 0 {
        forall j | 0 <= j < |es| ensures Compare(name, es[j].name) < 0 {
          if j > 0 {
            CompareTrans(name, es[0].name, es[j].name);
          }
        }
      } else {
        PlaceSplits(es[1..], name);
        CompareSwap(name, es[0].name);
        forall j | 0 <= j < Place(es, name) ensures Compare(es[j].name, name) <= 0 {
          assert j > 0 ==> es[j] == es[1..][j - 1];
        }
        forall j | Place(es, name) <= j < |es| ensures Compare(name, es[j].name) < 0 {
          assert es[j] == es[1..][j - 1];
        }
      }
    }
  }

  lemma InsertSorted(es: seq<Entry>, e: Entry)
    requires Sorted(es)
    ensures Sorted(Insert(es, e))
  {
    PlaceSplits(es, e.name);
  }

  /** None of the entries has the name. */
  lemma {:induction false} NamedNone(es: seq<Entry>, name: seq<byte>)
    requires forall j :: 0 <= j < |es| ==> es[j].name != name
    ensures Named(es, name) == []
    decreases es
  {
    if es != [] {
      assert es[0].name != name;
      NamedNone(es[1..], name);
    }
  }

  lemma NamedOne(e: Entry, name: seq<byte>)
    ensures Named([e], name) == if e.name == name then [e] else []
  {
    assert [e][1..] == [];
  }

  lemma LaterNamed(es: seq<Entry>, e: Entry)
    requires Sorted(es)
    ensures Named(es[Place(es, e.name)..], e.name) == []
  {
    var i := Place(es, e.name);
    PlaceSplits(es, e.name);
    forall j | 0 <= j < |es[i..]| ensures es[i..][j].name != e.name {
      CompareZero(e.name, es[i + j].name);
    }
    NamedNone(es[i..], e.name);
  }

  /** A new entry comes behind all earlier ones with its name. */
  lemma InsertNamed(es: seq<Entry>, e: Entry, name: seq<byte>)
    requires Sorted(es)
    ensures Named(Insert(es, e), name) == Named(es, name) + if e.name == name then [e] else []
  {
    var i := Place(es, e.name);
    var a, c := es[..i], es[i..];
    NamedCat(a + [e], c, name);
    NamedCat(a, [e], name);
    NamedCat(a, c, name);
    NamedOne(e, name);
    assert a + c == es;
    if e.name == name {
      LaterNamed(es, e);
    }
  }

  /** After any series of additions the table is in order, and the entries with any one
      name are those added with it, in the order of their addition. */
  lemma {:induction false} TableIsStable(adds: seq<Entry>, name: seq<byte>)
    ensures Sorted(AddAll(adds)) && |AddAll(adds)| == |adds|
    ensures Named(AddAll(adds), name) == Named(adds, name)
    decreases adds
  {
    if adds != [] {
      var n := |adds| - 1;
      TableIsStable(adds[..n], name);
      InsertSorted(AddAll(adds[..n]), adds[n]);
      InsertNamed(AddAll(adds[..n]), adds[n], name);
      NamedCat(adds[..n], [adds[n]], name);
      assert adds == adds[..n] + [adds[n]];
    }
  }

  // ----- the table as bytes -----

  /** A slot holds the group number, the name and a zero byte. */
  predicate EntryAt(table: seq<byte>, p: nat, e: Entry)
  {
    && p + 2 + |e.name| < |table|
    && Get(table, p) == e.number
    && table[p + 2..p + 2 + |e.name|] == e.name
    && table[p + 2 + |e.name|] == 0
  }

  /** Where the i-th slot of size bytes starts. */
  function Slot(i: nat, size: nat): nat
  {
    if i == 0 then 0 else Slot(i - 1, size) + size
  }

  lemma {:induction false} SlotIsProduct(i: nat, size: nat)
    ensures Slot(i, size) == i * size
    decreases i
  {
    if i > 0 {
      SlotIsProduct(i - 1, size);
      assert i * size == (i - 1) * size + size;
    }
  }

  lemma {:induction false} SlotMono(i: nat, j: nat, size: nat)
    requires i < j
    ensures Slot(i, size) + size <= Slot(j, size)
    decreases j
  {
    if i < j - 1 {
      SlotMono(i, j - 1, size);
    }
  }

  /** The i-th slot holds an entry that fits it. */
  predicate Holds(table: seq<byte>, size: nat, i: nat, e: Entry)
  {
    |e.name| + 3 <= size && EntryAt(table, Slot(i, size), e)
  }

  ghost predicate TableAt(table: seq<byte>, size: nat, es: seq<Entry>)
  {
    && Slot(|es|, size) <= |table|
    && forall i :: 0 <= i < |es| ==> Holds(table, size, i, es[i])
  }

  lemma EntryMoves(was: seq<byte>, now: seq<byte>, p: nat, d: nat, size: nat, e: Entry)
    requires EntryAt(was, p, e) && |e.name| + 3 <= size && Same(was, p, p + size, now, d)
    ensures EntryAt(now, p + d, e)
  {
    assert now[p + d + 2..p + d + 2 + |e.name|] == was[p + 2..p + 2 + |e.name|];
  }

  /** The bytes of a name against those at p: the result has the sign of the comparison of
      the first |name| bytes. */
  method MemCmp(name: seq<byte>, table: seq<byte>, p: nat) returns (r: int)
    requires p + |name| <= |table|
    ensures r == 0 <==> name == table[p..p + |name|]
    ensures r != 0 ==> exists i {:trigger name[i]} :: 0 <= i < |name| && name[..i] == table[p..p + i] && r == name[i] as int - table[p + i] as int
  {
    var i := 0;
    while i < |name| && name[i] == table[p + i]
      invariant 0 <= i <= |name| && forall k :: 0 <= k < i ==> name[k] == table[p + k]
    {
      i := i + 1;
    }
    assert name[..i] == table[p..p + i];
    if i == |name| {
      assert name[..i] == name;
      return 0;
    }
    assert table[p..p + |name|][i] == table[p + i];
    return name[i] as int - table[p + i] as int;
  }

  lemma {:induction false} CompareAt(a: seq<byte>, b: seq<byte>, i: nat)
    requires i <= |a| && i <= |b| && a[..i] == b[..i]
    ensures Compare(a, b) == Compare(a[i..], b[i..])
    decreases i
  {
    if i == 0 {
      assert a[0..] == a && b[0..] == b;
    } else {
      assert a[..i][0] == b[..i][0];
      assert a[1..][..i - 1] == a[..i][1..] && b[1..][..i - 1] == b[..i][1..];
      CompareAt(a[1..], b[1..], i - 1);
      assert a[1..][i - 1..] == a[i..] && b[1..][i - 1..] == b[i..];
    }
  }

  /** The comparison used while adding: a name that is a proper prefix of the one in the
      slot comes first. */
  method CompareName(table: seq<byte>, slot: nat, name: AsciiName, ghost e: Entry) returns (crc: int)
    requires EntryAt(table, slot, e) && slot + 2 + |name| < |table|
    ensures crc < 0 <==> Compare(name, e.name) < 0
  {
    crc := MemCmp(name, table, slot + 2);
    if crc == 0 {
      PrefixCompare(table, slot, name, e);
      if table[slot + 2 + |name|] != 0 {
        crc := -1;
      }
    } else {
      ghost var i :| 0 <= i < |name| && name[..i] == table[slot + 2..slot + 2 + i] && crc == name[i] as int - table[slot + 2 + i] as int;
      DifferCompare(table, slot, name, e, i);
    }
  }

  /** A name that agrees with the first i bytes of a slot agrees with the name in it. */
  lemma {:induction false} SlotPrefix(table: seq<byte>, slot: nat, name: AsciiName, e: Entry, i: nat)
    requires EntryAt(table, slot, e) && slot + 2 + |name| < |table|
    requires i <= |name| && name[..i] == table[slot + 2..slot + 2 + i]
    ensures i <= |e.name| && name[..i] == e.name[..i]
    ensures table[slot + 2 + i] == if i < |e.name| then e.name[i] else 0
    decreases i
  {
    var m := e.name;
    if i > 0 {
      assert name[..i - 1] == name[..i][..i - 1];
      assert table[slot + 2..slot + 2 + i - 1] == table[slot + 2..slot + 2 + i][..i - 1];
      SlotPrefix(table, slot, name, e, i - 1);
      assert name[..i][i - 1] == table[slot + 2..slot + 2 + i][i - 1];
      assert name[..i] == name[..i - 1] + [name[i - 1]] && m[..i] == m[..i - 1] + [m[i - 1]];
    }
    if i < |m| {
      assert table[slot + 2..slot + 2 + |m|][i] == table[slot + 2 + i];
    }
  }

  lemma PrefixCompare(table: seq<byte>, slot: nat, name: AsciiName, e: Entry)
    requires EntryAt(table, slot, e) && slot + 2 + |name| < |table| && name == table[slot + 2..slot + 2 + |name|]
    ensures Compare(name, e.name) < 0 <==> table[slot + 2 + |name|] != 0
  {
    hide EntryAt;
    assert name[..|name|] == name;
    SlotPrefix(table, slot, name, e, |name|);
    CompareAt(name, e.name, |name|);
    assert name[|name|..] == [];
  }

  lemma DifferCompare(table: seq<byte>, slot: nat, name: AsciiName, e: Entry, i: nat)
    requires EntryAt(table, slot, e) && slot + 2 + |name| < |table|
    requires i < |name| && name[..i] == table[slot + 2..slot + 2 + i] && name[i] != table[slot + 2 + i]
    ensures Compare(name, e.name) < 0 <==> name[i] < table[slot + 2 + i]
  {
    SlotPrefix(table, slot, name, e, i);
    CompareAt(name, e.name, i);
  }

  lemma {:induction false} PlaceIs(es: seq<Entry>, name: seq<byte>, i: nat)
    requires i <= |es| && (forall j :: 0 <= j < i ==> Compare(name, es[j].name) >= 0)
    requires i < |es| ==> Compare(name, es[i].name) < 0
    ensures Place(es, name) == i
    decreases i
  {
    if i > 0 {
      assert Compare(name, es[0].name) >= 0;
      PlaceIs(es[1..], name, i - 1);
    }
  }

  /** A slot is filled in. */
  method WriteEntry(table: array<byte>, slot: nat, groupno: u16, name: AsciiName)
    requires slot + 3 + |name| <= table.Length
    modifies table
    ensures EntryAt(table[..], slot, Entry(groupno, name))
    ensures forall k :: 0 <= k < table.Length && !(slot <= k < slot + 3 + |name|) ==> table[k] == old(table[k])
  {
    Put(table, slot, groupno);
    var i := 0;
    while i < |name|
      invariant 0 <= i <= |name| && Get(table[..], slot) == groupno
      invariant forall k :: 0 <= k < i ==> table[slot + 2 + k] == name[k]
      invariant forall k :: 0 <= k < table.Length && !(slot <= k < slot + 3 + |name|) ==> table[k] == old(table[k])
    {
      table[slot + 2 + i] := name[i];
      i := i + 1;
    }
    table[slot + 2 + |name|] := 0;
    assert table[..][slot + 2..slot + 2 + |name|] == name;
  }

  /** Slots before position i stay, those from i on have moved up by one, and the new
      entry is between them. */
  lemma TableInsert(was: seq<byte>, now: seq<byte>, size: nat, es: seq<Entry>, e: Entry, i: nat)
    requires TableAt(was, size, es) && i <= |es| && Slot(|es| + 1, size) <= |now| && |e.name| + 3 <= size
    requires Same(was, 0, Slot(i, size), now, 0)
    requires EntryAt(now, Slot(i, size), e)
    requires Same(was, Slot(i, size), Slot(|es|, size), now, size)
    ensures TableAt(now, size, es[..i] + [e] + es[i..])
  {
    forall j | 0 <= j <= |es| ensures Holds(now, size, j, Nth(es, e, i, j)) {
      if j < i {
        KeptSlot(was, now, size, es, i, j);
      } else if j > i {
        MovedSlot(was, now, size, es, i, j - 1);
      }
    }
    NthTable(now, size, es, e, i);
  }

  /** The j-th entry after e has been put in at position i. */
  function Nth(es: seq<Entry>, e: Entry, i: nat, j: nat): Entry
    requires i <= |es| && j <= |es|
  {
    if j < i then es[j] else if j == i then e else es[j - 1]
  }

  lemma NthTable(table: seq<byte>, size: nat, es: seq<Entry>, e: Entry, i: nat)
    requires i <= |es| && Slot(|es| + 1, size) <= |table|
    requires forall j :: 0 <= j <= |es| ==> Holds(table, size, j, Nth(es, e, i, j))
    ensures TableAt(table, size, es[..i] + [e] + es[i..])
  {
    var all := es[..i] + [e] + es[i..];
    forall j | 0 <= j < |all| ensures Holds(table, size, j, all[j]) {
      assert all[j] == Nth(es, e, i, j);
    }
  }

  lemma KeptSlot(was: seq<byte>, now: seq<byte>, size: nat, es: seq<Entry>, i: nat, j: nat)
    requires TableAt(was, size, es) && j < i <= |es|
    requires Same(was, 0, Slot(i, size), now, 0)
    ensures Holds(now, size, j, es[j])
  {
    SlotMono(j, i, size);
    EntryMoves(was, now, Slot(j, size), 0, size, es[j]);
  }

  lemma MovedSlot(was: seq<byte>, now: seq<byte>, size: nat, es: seq<Entry>, i: nat, j: nat)
    requires TableAt(was, size, es) && i <= j < |es|
    requires Same(was, Slot(i, size), Slot(|es|, size), now, size)
    ensures Holds(now, size, j + 1, es[j])
  {
    SlotMono(j, |es|, size);
    if i < j {
      SlotMono(i, j, size);
    }
    EntryMoves(was, now, Slot(j, size), size, size, es[j]);
  }

  lemma RoomKept(was: seq<byte>, mid: seq<byte>, now: seq<byte>, slot: nat, end: nat, size: nat, n: nat)
    requires Same(was, 0, slot, mid, 0) && Same(was, slot, end, mid, size) && |now| == |mid| && n <= size
    requires forall k :: 0 <= k < |mid| && !(slot <= k < slot + n) ==> now[k] == mid[k]
    ensures Same(was, 0, slot, now, 0) && Same(was, slot, end, now, size)
  {
  }

  /** The name table of a pattern that is being compiled. */
  class Names {
    const table: array<byte>
    const entrySize: nat
    var namesFound: nat
    ghost var entries: seq<Entry>

    ghost predicate Valid()
      reads this, table
    {
      && namesFound == |entries| && Sorted(entries)
      && TableAt(table[..], entrySize, entries)
    }

    constructor (buffer: array<byte>, size: nat)
      ensures Valid() && table == buffer && entrySize == size && entries == []
    {
      table, entrySize, namesFound, entries := buffer, size, 0, [];
    }

    /** Adds an entry behind those that are not later. */
    method AddName(name: AsciiName, groupno: u16)
      requires Valid() && |name| + 3 <= entrySize && Slot(namesFound + 1, entrySize) <= table.Length
      modifies this, table
      ensures Valid() && entries == Insert(old(entries), Entry(groupno, name))
    {
      ghost var was, e := table[..], Entry(groupno, name);
      var i, slot := FindPlace(name);
      InsertSorted(entries, e);
      PutEntry(i, slot, groupno, name);
      namesFound := namesFound + 1;
      entries := Insert(entries, e);
    }

    /** The slot in front of which a name goes. */
    method FindPlace(name: AsciiName) returns (i: nat, slot: nat)
      requires Valid() && |name| + 3 <= entrySize
      ensures i == Place(entries, name) && slot == Slot(i, entrySize)
    {
      i, slot := 0, 0;
      while i < namesFound
        invariant i <= namesFound && slot == Slot(i, entrySize)
        invariant forall j :: 0 <= j < i ==> Compare(name, entries[j].name) >= 0
      {
        SlotMono(i, namesFound, entrySize);
        assert Holds(table[..], entrySize, i, entries[i]);
        var crc := CompareName(table[..], slot, name, entries[i]);
        if crc < 0 {
          break;
        }
        slot, i := slot + entrySize, i + 1;
      }
      PlaceIs(entries, name, i);
    }

    method PutEntry(i: nat, slot: nat, groupno: u16, name: AsciiName)
      requires namesFound == |entries| && TableAt(table[..], entrySize, entries)
      requires i <= namesFound && slot == Slot(i, entrySize)
      requires |name| + 3 <= entrySize && Slot(namesFound + 1, entrySize) <= table.Length
      modifies table
      ensures TableAt(table[..], entrySize, entries[..i] + [Entry(groupno, name)] + entries[i..])
    {
      ghost var was := table[..];
      MakeRoom(i, slot, |name| + 3);
      ghost var mid := table[..];
      WriteEntry(table, slot, groupno, name);
      RoomKept(was, mid, table[..], slot, Slot(namesFound, entrySize), entrySize, |name| + 3);
      TableInsert(was, table[..], entrySize, entries, Entry(groupno, name), i);
    }

    /** Everything from a slot on moves up by one slot. */
    method MakeRoom(i: nat, slot: nat, n: nat)
      requires i <= namesFound && slot == Slot(i, entrySize) && n <= entrySize && Slot(namesFound + 1, entrySize) <= table.Length
      modifies table
      ensures slot + n <= table.Length
      ensures table.Length >= Slot(namesFound, entrySize) >= slot
      ensures Same(old(table[..]), 0, slot, table[..], 0)
      ensures Same(old(table[..]), slot, Slot(namesFound, entrySize), table[..], entrySize)
    {
      if i < namesFound {
        SlotMono(i, namesFound, entrySize);
        SlotDiff(i, namesFound, entrySize);
        MemMove(table, slot + entrySize, slot, (namesFound - i) * entrySize);
      }
    }
  }

  lemma SlotDiff(i: nat, j: nat, size: nat)
    requires i <= j
    ensures Slot(j, size) - Slot(i, size) == (j - i) * size
  {
    SlotIsProduct(i, size);
    SlotIsProduct(j, size);
    assert j * size == i * size + (j - i) * size;
  }
}
