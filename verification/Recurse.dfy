/** Moving a group that contains calls: the offsets of calls that are already resolved,
    and the list of calls that are not, are adjusted before the bytes are moved. */
module Recurse {
  import opened Opcodes

  // ----- the calls in a stretch of code -----

  /** The link fields of the calls met when walking from pc to OP_END. */
  function Calls(code: seq<byte>, pc: nat): seq<nat>
    decreases |code| - pc
  {
    if pc >= |code| || code[pc] == OP_END || OpLength(code[pc]) == 0 then []
    else
      var rest := Calls(code, pc + OpLength(code[pc]));
      if code[pc] == OP_RECURSE then [pc + 1] + rest else rest
  }

  /** The walk ends at OP_END, and every call has room for its link. */
  ghost predicate Ends(code: seq<byte>, pc: nat)
    decreases |code| - pc
  {
    pc < |code| &&
    (code[pc] == OP_END ||
     (OpLength(code[pc]) > 0 && (code[pc] == OP_RECURSE ==> pc + 3 <= |code|) && Ends(code, pc + OpLength(code[pc]))))
  }

  /** Calls are three bytes long, so their link fields do not meet. */
  ghost predicate Spaced(calls: seq<nat>)
  {
    forall i, j :: 0 <= i < j < |calls| ==> calls[i] + 3 <= calls[j]
  }

  lemma {:induction false} CallsSpaced(code: seq<byte>, pc: nat)
    requires Ends(code, pc)
    ensures Spaced(Calls(code, pc))
    ensures forall l :: l in Calls(code, pc) ==> pc < l && l + 2 <= |code|
    decreases |code| - pc
  {
    if code[pc] != OP_END {
      var next := pc + OpLength(code[pc]);
      var calls, rest := Calls(code, pc), Calls(code, next);
      CallsSpaced(code, next);
      if code[pc] == OP_RECURSE {
        assert calls == [pc + 1] + rest;
        forall i, j | 0 <= i < j < |calls| ensures calls[i] + 3 <= calls[j] {
          assert calls[j] == rest[j - 1] && rest[j - 1] in rest;
        }
      }
    }
  }

  // ----- what the adjustment does, call by call -----

  function FirstOf(pending: seq<nat>, l: nat): (i: nat)
    requires l in pending
    ensures i < |pending| && pending[i] == l && forall j: nat :: j < i ==> pending[j] != l
  {
    if pending[0] == l then 0 else FirstOf(pending[1..], l) + 1
  }

  /** The list after the call with link field l: an entry for it is moved. */
  function Entry(pending: seq<nat>, l: nat, k: nat): seq<nat>
  {
    if l in pending then pending[FirstOf(pending, l) := l + k] else pending
  }

  function Entries(pending: seq<nat>, calls: seq<nat>, k: nat): seq<nat>
    decreases calls
  {
    if calls == [] then pending else Entries(Entry(pending, calls[0], k), calls[1..], k)
  }

  /** Where a target is after everything from group on has moved by k. */
  function Moved(target: nat, group: nat, k: nat): nat
  {
    if target >= group then target + k else target
  }

  function PutAt(code: seq<byte>, n: nat, d: nat): (r: seq<byte>)
    requires n + 1 < |code|
    ensures |r| == |code| && Get(r, n) == d % 65536
    ensures forall i :: 0 <= i < |code| && i != n && i != n + 1 ==> r[i] == code[i]
  {
    var r := code[n := (d / 256) % 256][n + 1 := d % 256];
    GetTwo(r, n, d);
    r
  }

  /** The code after the call with link field l: a call that has no entry is resolved. */
  function Link(code: seq<byte>, pending: seq<nat>, l: nat, group: nat, k: nat): (r: seq<byte>)
    requires l + 1 < |code|
    ensures |r| == |code|
  {
    if l in pending || Get(code, l) < group then code else PutAt(code, l, Get(code, l) + k)
  }

  /** Every link field lies inside n bytes. */
  predicate Fit(calls: seq<nat>, n: nat)
  {
    forall i :: 0 <= i < |calls| ==> calls[i] + 1 < n
  }

  function Links(code: seq<byte>, pending: seq<nat>, calls: seq<nat>, group: nat, k: nat): (r: seq<byte>)
    requires Fit(calls, |code|)
    ensures |r| == |code|
    decreases calls
  {
    if calls == [] then code
    else Links(Link(code, pending, calls[0], group, k), Entry(pending, calls[0], k), calls[1..], group, k)
  }

  // ----- when this is right -----

  /** Before the adjustment: the list has one entry for each pending call of the group. */
  ghost predicate Listed(pending: seq<nat>, calls: seq<nat>)
  {
    && (forall l :: l in pending ==> l in calls)
    && (forall i, j :: 0 <= i < j < |pending| ==> pending[i] != pending[j])
  }

  function Shift(pending: seq<nat>, k: nat): seq<nat>
  {
    seq(|pending|, i requires 0 <= i < |pending| => pending[i] + k)
  }

  /** After it: every entry has moved with its call, in some order. */
  ghost predicate EntriesRight(pending: seq<nat>, now: seq<nat>, k: nat)
  {
    multiset(now) == multiset(Shift(pending, k))
  }

  /** No resolved call stands exactly k bytes behind a pending one. */
  ghost predicate NoClash(pending: seq<nat>, calls: seq<nat>, k: nat)
  {
    forall l {:trigger l in pending} :: l in pending && l + k in calls ==> l + k in pending
  }

  // ----- the list -----

  ghost predicate Ascending(calls: seq<nat>)
  {
    forall i, j :: 0 <= i < j < |calls| ==> calls[i] < calls[j]
  }

  /** A resolved call has no entry that could be taken for its own, now or after the moves
      still to come. */
  ghost predicate Clear(l: nat, done: multiset<nat>, todo: set<nat>, k: nat)
  {
    l !in todo ==> l !in done && !(l >= k && l - k in todo)
  }

  ghost predicate Counted(p: seq<nat>, done: multiset<nat>, todo: set<nat>)
  {
    forall x: nat :: multiset(p)[x] == done[x] + if x in todo then 1 else 0
  }

  /** The list halfway: the entries already moved, and those still to be moved. */
  ghost predicate Halfway(p: seq<nat>, done: multiset<nat>, todo: set<nat>, calls: seq<nat>, k: nat)
  {
    && Counted(p, done, todo)
    && Ascending(calls)
    && (forall l :: l in todo ==> l in calls)
    && (forall i :: 0 <= i < |calls| ==> Clear(calls[i], done, todo, k))
  }

  ghost function Shifted(todo: set<nat>, k: nat): multiset<nat>
  {
    multiset(set l | l in todo :: l + k)
  }

  lemma MultisetUpdate(p: seq<nat>, i: nat, v: nat)
    requires i < |p|
    ensures forall x: nat :: multiset(p[i := v])[x] == multiset(p)[x] - (if x == p[i] then 1 else 0) + (if x == v then 1 else 0)
  {
    assert p == p[..i] + [p[i]] + p[i + 1..];
    assert p[i := v] == p[..i] + [v] + p[i + 1..];
  }

  lemma Found(p: seq<nat>, done: multiset<nat>, todo: set<nat>, calls: seq<nat>, k: nat)
    requires calls != [] && Halfway(p, done, todo, calls, k)
    ensures calls[0] in p <==> calls[0] in todo
  {
    var l := calls[0];
    assert l in p <==> multiset(p)[l] > 0;
    assert Clear(l, done, todo, k);
  }

  lemma StillCalled(todo: set<nat>, calls: seq<nat>, l: nat)
    requires calls != [] && l in todo && l in calls && l != calls[0]
    ensures l in calls[1..]
  {
  }

  lemma MoveCount(p: seq<nat>, done: multiset<nat>, todo: set<nat>, l: nat, k: nat)
    requires Counted(p, done, todo) && l in todo && l in p
    ensures Counted(Entry(p, l, k), done + multiset{l + k}, todo - {l})
  {
    MultisetUpdate(p, FirstOf(p, l), l + k);
    var v: nat := l + k;
    forall x: nat ensures (done + multiset{l + k})[x] == done[x] + if x == v then 1 else 0 {
    }
  }

  lemma MoveClear(x: nat, done: multiset<nat>, todo: set<nat>, l: nat, k: nat)
    requires Clear(x, done, todo, k) && l in todo && l < x
    ensures Clear(x, done + multiset{l + k}, todo - {l}, k)
  {
  }

  lemma MoveOn(p: seq<nat>, done: multiset<nat>, todo: set<nat>, calls: seq<nat>, k: nat)
    requires calls != [] && Halfway(p, done, todo, calls, k) && calls[0] in todo && calls[0] in p
    ensures Halfway(Entry(p, calls[0], k), done + multiset{calls[0] + k}, todo - {calls[0]}, calls[1..], k)
  {
    var l, rest := calls[0], calls[1..];
    MoveCount(p, done, todo, l, k);
    forall m | m in todo - {l} ensures m in rest {
      StillCalled(todo, calls, m);
    }
    forall i | 0 <= i < |rest| ensures Clear(rest[i], done + multiset{l + k}, todo - {l}, k) {
      assert rest[i] == calls[i + 1] && calls[0] < calls[i + 1];
      MoveClear(rest[i], done, todo, l, k);
    }
  }

  lemma PassOver(p: seq<nat>, done: multiset<nat>, todo: set<nat>, calls: seq<nat>, k: nat)
    requires calls != [] && Halfway(p, done, todo, calls, k) && calls[0] !in todo
    ensures Halfway(p, done, todo, calls[1..], k)
  {
    var rest := calls[1..];
    forall m | m in todo ensures m in rest {
      StillCalled(todo, calls, m);
    }
    forall i | 0 <= i < |rest| ensures Clear(rest[i], done, todo, k) {
      assert rest[i] == calls[i + 1];
    }
  }

  lemma ShiftedStep(todo: set<nat>, l: nat, k: nat)
    requires l in todo
    ensures Shifted(todo, k) == multiset{l + k} + Shifted(todo - {l}, k)
  {
    var a := set x | x in todo :: x + k;
    var b := set x | x in todo - {l} :: x + k;
    forall y ensures y in a <==> y in b || y == l + k {
      if y in a {
        var x :| x in todo && y == x + k;
        assert x == l || x in todo - {l};
      }
    }
    assert a == b + {l + k} && l + k !in b;
  }

  lemma NothingLeft(p: seq<nat>, done: multiset<nat>, todo: set<nat>, k: nat)
    requires Counted(p, done, todo) && (forall l :: l in todo ==> false)
    ensures multiset(p) == done + Shifted(todo, k)
  {
    assert todo == {};
    assert Shifted(todo, k) == multiset{};
    assert multiset(p) == done;
  }

  lemma Regroup(a: multiset<nat>, b: multiset<nat>, c: multiset<nat>)
    ensures (a + b) + c == a + (b + c)
  {
  }

  /** Without a clash every entry moves exactly once. */
  lemma {:induction false} EntriesMove(p: seq<nat>, done: multiset<nat>, todo: set<nat>, calls: seq<nat>, k: nat)
    requires Halfway(p, done, todo, calls, k)
    ensures multiset(Entries(p, calls, k)) == done + Shifted(todo, k)
    decreases calls
  {
    if calls == [] {
      NothingLeft(p, done, todo, k);
    } else {
      hide Halfway, Shifted;
      var l := calls[0];
      Found(p, done, todo, calls, k);
      if l in todo {
        MoveOn(p, done, todo, calls, k);
        EntriesMove(Entry(p, l, k), done + multiset{l + k}, todo - {l}, calls[1..], k);
        ShiftedStep(todo, l, k);
        Regroup(done, multiset{l + k}, Shifted(todo - {l}, k));
      } else {
        PassOver(p, done, todo, calls, k);
        EntriesMove(p, done, todo, calls[1..], k);
      }
    }
  }

  /** The link field l is as it should be. */
  ghost predicate LinkRight(was: seq<byte>, now: seq<byte>, l: nat, pending: bool, group: nat, k: nat)
  {
    && l + 1 < |was| == |now|
    && Get(now, l) == if pending then Get(was, l) else Moved(Get(was, l), group, k)
  }

  /** Only link fields of calls differ. */
  ghost predicate OnlyLinks(was: seq<byte>, now: seq<byte>, calls: seq<nat>)
  {
    |was| == |now| && forall i: nat {:trigger now[i]} :: i < |was| && i !in calls && !(i > 0 && i - 1 in calls) ==> now[i] == was[i]
  }

  lemma OnlyLinksStep(was: seq<byte>, mid: seq<byte>, now: seq<byte>, calls: seq<nat>, l: nat)
    requires calls != [] && l == calls[0] && l + 1 < |was|
    requires |was| == |mid| && forall i: nat :: i < |was| && i != l && i != l + 1 ==> mid[i] == was[i]
    requires OnlyLinks(mid, now, calls[1..])
    ensures OnlyLinks(was, now, calls)
  {
    forall i: nat {:trigger now[i]} | i < |was| && i !in calls && !(i > 0 && i - 1 in calls) ensures now[i] == was[i] {
      assert l in calls;
      assert i !in calls[1..] && !(i > 0 && i - 1 in calls[1..]);
      assert now[i] == mid[i];
    }
  }

  /** And every resolved call is adjusted. */
  lemma {:induction false} LinksMove(code: seq<byte>, p: seq<nat>, done: multiset<nat>, todo: set<nat>, calls: seq<nat>, group: nat, k: nat)
    requires Halfway(p, done, todo, calls, k) && Spaced(calls) && Fit(calls, |code|)
    requires forall i :: 0 <= i < |calls| ==> Get(code, calls[i]) + k < 65536
    ensures OnlyLinks(code, Links(code, p, calls, group, k), calls)
    ensures forall i :: 0 <= i < |calls| ==> LinkRight(code, Links(code, p, calls, group, k), calls[i], calls[i] in todo, group, k)
    decreases calls
  {
    if calls != [] {
      hide LinkRight, OnlyLinks, Halfway, Link;
      var l, rest := calls[0], calls[1..];
      var code1, p1 := Link(code, p, l, group, k), Entry(p, l, k);
      Found(p, done, todo, calls, k);
      LinkStep(code, p, calls, group, k);
      var done1, todo1 := if l in todo then done + multiset{l + k} else done, todo - {l};
      if l in todo {
        MoveOn(p, done, todo, calls, k);
      } else {
        PassOver(p, done, todo, calls, k);
        assert todo1 == todo;
      }
      LinksMove(code1, p1, done1, todo1, rest, group, k);
      LinksJoin(code, code1, Links(code1, p1, rest, group, k), calls, todo, l in p, group, k);
    }
  }

  lemma LinkStep(code: seq<byte>, p: seq<nat>, calls: seq<nat>, group: nat, k: nat)
    requires calls != [] && Spaced(calls) && Fit(calls, |code|) && Get(code, calls[0]) + k < 65536
    requires forall i :: 0 <= i < |calls| ==> Get(code, calls[i]) + k < 65536
    ensures var code1, rest := Link(code, p, calls[0], group, k), calls[1..];
            && (forall i :: 0 <= i < |rest| ==> Get(code1, rest[i]) == Get(code, rest[i]) && Get(code1, rest[i]) + k < 65536)
            && LinkRight(code, code1, calls[0], calls[0] in p, group, k)
            && (forall i: nat :: i < |code| && i != calls[0] && i != calls[0] + 1 ==> code1[i] == code[i])
  {
    var rest := calls[1..];
    forall i | 0 <= i < |rest| ensures rest[i] == calls[i + 1] >= calls[0] + 3 {
    }
  }

  lemma LinksJoin(code: seq<byte>, code1: seq<byte>, now: seq<byte>, calls: seq<nat>, todo: set<nat>, found: bool, group: nat, k: nat)
    requires calls != [] && Spaced(calls) && Fit(calls, |code|) && |code| == |code1|
    requires LinkRight(code, code1, calls[0], found, group, k) && (found <==> calls[0] in todo)
    requires forall i: nat :: i < |code| && i != calls[0] && i != calls[0] + 1 ==> code1[i] == code[i]
    requires OnlyLinks(code1, now, calls[1..])
    requires forall i :: 0 <= i < |calls[1..]| ==> LinkRight(code1, now, calls[1..][i], calls[1..][i] in todo - {calls[0]}, group, k)
    ensures OnlyLinks(code, now, calls)
    ensures forall i :: 0 <= i < |calls| ==> LinkRight(code, now, calls[i], calls[i] in todo, group, k)
  {
    var l, rest := calls[0], calls[1..];
    OnlyLinksStep(code, code1, now, calls, l);
    forall i | 0 <= i < |rest| ensures rest[i] == calls[i + 1] >= l + 3 {
    }
    NotAgain(rest, l);
    assert now[l] == code1[l] && now[l + 1] == code1[l + 1];
    forall i | 0 <= i < |calls| ensures LinkRight(code, now, calls[i], calls[i] in todo, group, k) {
      if i > 0 {
        assert LinkRight(code1, now, rest[i - 1], rest[i - 1] in todo - {l}, group, k);
      }
    }
  }

  lemma NotAgain(rest: seq<nat>, l: nat)
    requires forall i :: 0 <= i < |rest| ==> rest[i] >= l + 3
    ensures l !in rest && l + 1 !in rest && !(l > 0 && l - 1 in rest)
  {
  }

  // ----- with a clash some entry moves twice -----

  function Sum(p: seq<nat>): nat
  {
    if p == [] then 0 else p[0] + Sum(p[1..])
  }

  lemma {:induction false} SumUpdate(p: seq<nat>, i: nat, v: nat)
    requires i < |p|
    ensures Sum(p[i := v]) + p[i] == Sum(p) + v
    decreases i
  {
    if i > 0 {
      SumUpdate(p[1..], i - 1, v);
      assert p[i := v][1..] == p[1..][i - 1 := v];
    }
  }

  lemma SumEntry(p: seq<nat>, l: nat, k: nat)
    ensures Sum(Entry(p, l, k)) == Sum(p) + if l in p then k else 0
    ensures forall x :: x in p && x != l ==> x in Entry(p, l, k)
    ensures l in p ==> l + k in Entry(p, l, k)
  {
    if l in p {
      var i := FirstOf(p, l);
      SumUpdate(p, i, l + k);
      forall x | x in p && x != l ensures x in Entry(p, l, k) {
        var j :| 0 <= j < |p| && p[j] == x;
        assert Entry(p, l, k)[j] == x;
      }
      assert Entry(p, l, k)[i] == l + k;
    }
  }

  /** Every pending call still ahead has an entry in the list. */
  ghost predicate Ahead(p: seq<nat>, todo: set<nat>, calls: seq<nat>)
  {
    Ascending(calls) && (forall l :: l in todo ==> l in p && l in calls)
  }

  lemma AheadStep(p: seq<nat>, todo: set<nat>, calls: seq<nat>, k: nat)
    requires calls != [] && Ahead(p, todo, calls)
    ensures Ahead(Entry(p, calls[0], k), todo - {calls[0]}, calls[1..])
  {
    SumEntry(p, calls[0], k);
    forall l | l in todo - {calls[0]} ensures l in calls[1..] {
      StillCalled(todo, calls, l);
    }
  }

  lemma {:induction false} EntriesGrow(p: seq<nat>, todo: set<nat>, calls: seq<nat>, k: nat)
    requires Ahead(p, todo, calls)
    ensures Sum(Entries(p, calls, k)) >= Sum(p) + k * |todo|
    decreases calls
  {
    if calls == [] {
      assert todo == {};
    } else {
      var l := calls[0];
      AheadStep(p, todo, calls, k);
      SumEntry(p, l, k);
      EntriesGrow(Entry(p, l, k), todo - {l}, calls[1..], k);
      Fewer(todo, l, k);
    }
  }

  lemma Fewer(todo: set<nat>, l: nat, k: nat)
    ensures k * |todo| == k * |todo - {l}| + if l in todo then k else 0
  {
    if l in todo {
      assert |todo| == |todo - {l}| + 1;
      assert k * |todo| == k * (|todo - {l}| + 1) == k * |todo - {l}| + k;
    } else {
      assert todo - {l} == todo;
    }
  }

  /** A resolved call v meets an entry of its own value, or will once the entry k bytes
      before it has moved. */
  ghost predicate Meets(p: seq<nat>, todo: set<nat>, calls: seq<nat>, k: nat, v: nat)
  {
    v in calls && v !in todo && (v in p || (v >= k && v - k in todo))
  }

  lemma MeetsStep(p: seq<nat>, todo: set<nat>, calls: seq<nat>, k: nat, v: nat)
    requires calls != [] && k >= 1 && Ahead(p, todo, calls) && Meets(p, todo, calls, k, v)
    requires v != calls[0]
    ensures Meets(Entry(p, calls[0], k), todo - {calls[0]}, calls[1..], k, v)
  {
    SumEntry(p, calls[0], k);
    assert v in calls[1..] by {
      var j :| 0 <= j < |calls| && calls[j] == v;
      assert calls[1..][j - 1] == v;
    }
  }

  lemma MeetsNow(p: seq<nat>, todo: set<nat>, calls: seq<nat>, k: nat, v: nat)
    requires calls != [] && k >= 1 && Ahead(p, todo, calls) && Meets(p, todo, calls, k, v)
    requires v == calls[0]
    ensures v in p
  {
  }

  lemma {:induction false} EntriesOvershoot(p: seq<nat>, todo: set<nat>, calls: seq<nat>, k: nat, v: nat)
    requires k >= 1 && Ahead(p, todo, calls) && Meets(p, todo, calls, k, v)
    ensures Sum(Entries(p, calls, k)) > Sum(p) + k * |todo|
    decreases calls
  {
    var l := calls[0];
    AheadStep(p, todo, calls, k);
    SumEntry(p, l, k);
    Fewer(todo, l, k);
    if v == l {
      MeetsNow(p, todo, calls, k, v);
      EntriesGrow(Entry(p, l, k), todo - {l}, calls[1..], k);
    } else {
      MeetsStep(p, todo, calls, k, v);
      EntriesOvershoot(Entry(p, l, k), todo - {l}, calls[1..], k, v);
    }
  }

  lemma {:induction false} SumShift(p: seq<nat>, k: nat)
    ensures Sum(Shift(p, k)) == Sum(p) + k * |p|
    decreases p
  {
    if p != [] {
      SumShift(p[1..], k);
      assert Shift(p, k)[1..] == Shift(p[1..], k);
      assert k * |p| == k * |p[1..]| + k;
    }
  }

  lemma RestMultiset(a: seq<nat>, b: seq<nat>, head: seq<nat>, tail: seq<nat>, left: seq<nat>, right: seq<nat>)
    requires a == head + tail && b == left + head + right && multiset(a) == multiset(b)
    ensures multiset(tail) == multiset(left + right)
  {
    assert multiset(a) == multiset(head) + multiset(tail);
    assert multiset(b) == multiset(left) + multiset(head) + multiset(right);
    assert multiset(left + right) == multiset(left) + multiset(right);
    forall x: nat ensures multiset(tail)[x] == multiset(left + right)[x] {
      assert multiset(a)[x] == multiset(head)[x] + multiset(tail)[x];
      assert multiset(b)[x] == multiset(left)[x] + multiset(head)[x] + multiset(right)[x];
    }
  }

  lemma {:induction false} SumOfMultiset(a: seq<nat>, b: seq<nat>)
    requires multiset(a) == multiset(b)
    ensures Sum(a) == Sum(b)
    decreases a
  {
    if a == [] {
      assert |multiset(b)| == 0;
    } else {
      assert a[0] in multiset(b);
      var i :| 0 <= i < |b| && b[i] == a[0];
      var head: seq<nat>, rest := [a[0]], b[..i] + b[i + 1..];
      assert a == head + a[1..] && b == b[..i] + head + b[i + 1..];
      RestMultiset(a, b, head, a[1..], b[..i], b[i + 1..]);
      SumOfMultiset(a[1..], rest);
      SumWithout(b, i);
    }
  }

  lemma {:induction false} SumWithout(b: seq<nat>, i: nat)
    requires i < |b|
    ensures Sum(b) == b[i] + Sum(b[..i] + b[i + 1..])
    decreases i
  {
    if i == 0 {
      assert b[..0] + b[1..] == b[1..];
    } else {
      SumWithout(b[1..], i - 1);
      assert (b[..i] + b[i + 1..])[1..] == b[1..][..i - 1] + b[1..][i..];
    }
  }

  // ----- the whole adjustment -----

  /** After the adjustment: every entry has moved with its call, every resolved call is
      aimed at where its bracket will be, and nothing else has changed. */
  ghost predicate Adjusted(was: seq<byte>, pending: seq<nat>, now: seq<byte>, list: seq<nat>, calls: seq<nat>, group: nat, k: nat)
  {
    && EntriesRight(pending, list, k)
    && OnlyLinks(was, now, calls)
    && forall i :: 0 <= i < |calls| ==> LinkRight(was, now, calls[i], calls[i] in pending, group, k)
  }

  ghost function SetOf(p: seq<nat>): set<nat> { set l | l in p }

  lemma DistinctSize(p: seq<nat>)
    requires forall i, j :: 0 <= i < j < |p| ==> p[i] != p[j]
    ensures |SetOf(p)| == |p|
    decreases p
  {
    if p == [] {
      assert SetOf(p) == {};
    } else {
      DistinctSize(p[1..]);
      assert p[0] !in p[1..];
      assert SetOf(p) == SetOf(p[1..]) + {p[0]};
    }
  }

  lemma DistinctCount(p: seq<nat>, x: nat)
    requires forall i, j :: 0 <= i < j < |p| ==> p[i] != p[j]
    ensures multiset(p)[x] == if x in p then 1 else 0
    decreases p
  {
    if p != [] {
      DistinctCount(p[1..], x);
      assert p == [p[0]] + p[1..];
    }
  }

  lemma ShiftMembers(p: seq<nat>, k: nat, x: nat)
    ensures x in Shift(p, k) <==> x in set l | l in SetOf(p) :: l + k
  {
    var q := Shift(p, k);
    if x in q {
      var i :| 0 <= i < |q| && q[i] == x;
      assert p[i] in SetOf(p);
    }
    if x >= k && x - k in p {
      var i :| 0 <= i < |p| && p[i] == x - k;
      assert q[i] == x;
    }
  }

  lemma ShiftMultiset(p: seq<nat>, k: nat)
    requires forall i, j :: 0 <= i < j < |p| ==> p[i] != p[j]
    ensures multiset(Shift(p, k)) == Shifted(SetOf(p), k)
  {
    forall x: nat ensures multiset(Shift(p, k))[x] == Shifted(SetOf(p), k)[x] {
      ShiftMembers(p, k, x);
      DistinctCount(Shift(p, k), x);
    }
  }

  /** The adjustment is right exactly when no resolved call stands k bytes behind a pending
      one. */
  lemma AdjustmentIsRight(code: seq<byte>, pending: seq<nat>, calls: seq<nat>, group: nat, k: nat)
    requires k >= 1 && Spaced(calls) && Fit(calls, |code|) && Listed(pending, calls)
    requires forall i :: 0 <= i < |calls| ==> Get(code, calls[i]) + k < 65536
    ensures Adjusted(code, pending, Links(code, pending, calls, group, k), Entries(pending, calls, k), calls, group, k)
            <==> NoClash(pending, calls, k)
  {
    hide Links, Entries, Spaced, Fit, LinkRight, OnlyLinks;
    var todo := SetOf(pending);
    if NoClash(pending, calls, k) {
      StartHalfway(pending, calls, k);
      EntriesMove(pending, multiset{}, todo, calls, k);
      ShiftMultiset(pending, k);
      LinksMove(code, pending, multiset{}, todo, calls, group, k);
    } else {
      ClashShows(pending, calls, k);
    }
  }

  lemma StartHalfway(pending: seq<nat>, calls: seq<nat>, k: nat)
    requires k >= 1 && Spaced(calls) && Listed(pending, calls) && NoClash(pending, calls, k)
    ensures Halfway(pending, multiset{}, SetOf(pending), calls, k)
  {
    hide Spaced, NoClash;
    SpacedAscends(calls);
    forall x: nat ensures multiset(pending)[x] == if x in pending then 1 else 0 {
      DistinctCount(pending, x);
    }
    forall i | 0 <= i < |calls| ensures Clear(calls[i], multiset{}, SetOf(pending), k) {
      ClearAtStart(pending, calls, k, i);
    }
  }

  lemma SpacedAscends(calls: seq<nat>)
    requires Spaced(calls)
    ensures Ascending(calls)
  {
  }

  lemma ClearAtStart(pending: seq<nat>, calls: seq<nat>, k: nat, i: nat)
    requires NoClash(pending, calls, k) && i < |calls|
    ensures Clear(calls[i], multiset{}, SetOf(pending), k)
  {
    var c := calls[i];
    if c >= k && c - k in pending {
      assert c - k + k in calls;
    }
  }

  /** Inserting a single byte never clashes. */
  lemma OneByteIsSafe(pending: seq<nat>, calls: seq<nat>)
    requires Spaced(calls) && Listed(pending, calls)
    ensures NoClash(pending, calls, 1)
  {
    forall l {:trigger l in pending} | l in pending ensures l + 1 !in calls {
      CallsApart(calls, l);
    }
  }

  lemma CallsApart(calls: seq<nat>, l: nat)
    requires Spaced(calls) && l in calls
    ensures l + 1 !in calls
  {
    var i :| 0 <= i < |calls| && calls[i] == l;
    forall j | 0 <= j < |calls| ensures calls[j] != l + 1 {
      if j < i {
        assert calls[j] + 3 <= calls[i];
      }
    }
  }

  /** The code when the item is wrapped in OP_ONCE in (a)(?:(?2)(?1))?+(b), a state that
      the compiler does get into: the first call waits for a group that is still to come,
      the second one is resolved, and the adjustment moves the first one's entry twice. */
  lemma ClashExample()
    ensures var code := CLASH_CODE;
            && Calls(code, 13) == [18, 21] && Listed([18], [18, 21]) && !NoClash([18], [18, 21], 3)
            && Entries([18], [18, 21], 3) == [24]
            && !Adjusted(code, [18], Links(code, [18], [18, 21], 13, 3), Entries([18], [18, 21], 3), [18, 21], 13, 3)
  {
    ClashCalls();
    var p: seq<nat>, calls: seq<nat> := [18], [18, 21];
    assert 18 in p && 18 + 3 in calls;
    assert Entry(p, 18, 3) == [21] && Entry([21], 21, 3) == [24];
    assert calls[1..] == [21] && Entries([21], [21], 3) == Entries([24], [], 3);
    assert Shift(p, 3) == [21];
    assert multiset([21 as nat])[21] != multiset([24 as nat])[21];
  }

  const CLASH_CODE: seq<byte> := [
    OP_BRA, 0, 0, OP_CBRA, 0, 7, 0, 1, OP_CHAR, 97, OP_KET, 0, 7,
    OP_BRAZERO, OP_BRA, 0, 9, OP_RECURSE, 0, 2, OP_RECURSE, 0, 3, OP_KET, 0, 9, OP_END]

  lemma ClashCalls()
    ensures Calls(CLASH_CODE, 13) == [18, 21]
  {
    var code := CLASH_CODE;
    assert Calls(code, 26) == [];
    assert Calls(code, 23) == Calls(code, 26);
    assert Calls(code, 20) == [21] + Calls(code, 23);
    assert Calls(code, 17) == [18] + Calls(code, 20);
    assert Calls(code, 14) == Calls(code, 17);
    assert Calls(code, 13) == Calls(code, 14);
  }

  // ----- in place -----

  /** The next call at or behind pc, or -1. */
  method FindRecurse(code: seq<byte>, start: nat) returns (r: int)
    requires Ends(code, start)
    ensures r < 0 ==> Calls(code, start) == []
    ensures r >= 0 ==> start <= r < |code| && code[r] == OP_RECURSE && Ends(code, r) && Calls(code, start) == Calls(code, r)
  {
    var pc: nat := start;
    while true
      invariant start <= pc && Ends(code, pc) && Calls(code, start) == Calls(code, pc)
      decreases |code| - pc
    {
      var c := code[pc];
      if c == OP_END {
        return -1;
      }
      if c == OP_RECURSE {
        return pc;
      }
      pc := pc + OpLength(c);
    }
  }

  /** The first entry for l is moved, if there is one. */
  method AdjustEntry(list: array<nat>, l: nat, adjust: nat) returns (found: bool)
    modifies list
    ensures found == (l in old(list[..]))
    ensures list[..] == Entry(old(list[..]), l, adjust)
  {
    var hc := 0;
    while hc < list.Length
      invariant 0 <= hc <= list.Length && list[..] == old(list[..]) && l !in list[..hc]
    {
      if list[hc] == l {
        IsFirst(list[..], l, hc);
        list[hc] := l + adjust;
        return true;
      }
      hc := hc + 1;
    }
    assert list[..hc] == list[..];
    return false;
  }

  lemma IsFirst(p: seq<nat>, l: nat, i: nat)
    requires i < |p| && p[i] == l && l !in p[..i]
    ensures l in p && FirstOf(p, l) == i
  {
    var j := FirstOf(p, l);
    forall x | 0 <= x < i ensures p[x] != l {
      assert p[..i][x] == p[x];
    }
    forall x | 0 <= x < j ensures p[x] != l {
      assert p[..j][x] == p[x];
    }
  }

  lemma {:induction false} CallsSame(was: seq<byte>, now: seq<byte>, pc: nat)
    requires |was| == |now| && Ends(was, pc) && forall i :: pc <= i < |was| ==> now[i] == was[i]
    ensures Ends(now, pc) && Calls(now, pc) == Calls(was, pc)
    decreases |was| - pc
  {
    if was[pc] != OP_END {
      CallsSame(was, now, pc + OpLength(was[pc]));
    }
  }

  lemma CallHere(code: seq<byte>, pc: nat)
    requires Ends(code, pc) && code[pc] == OP_RECURSE
    ensures pc + 3 <= |code| && Ends(code, pc + 3) && Calls(code, pc) == [pc + 1] + Calls(code, pc + 3)
  {
  }

  /** The link of one call, unless it had an entry. */
  method AdjustLink(a: array<byte>, found: bool, l: nat, group: nat, adjust: nat, ghost pending: seq<nat>)
    requires l + 1 < a.Length && found == (l in pending)
    modifies a
    ensures a[..] == Link(old(a[..]), pending, l, group, adjust)
  {
    if !found {
      var offset := Get(a[..], l);
      if offset >= group {
        Put(a, l, offset + adjust);
      }
    }
  }

  /** The adjustment of every call from group on. */
  method AdjustRecurse(a: array<byte>, list: array<nat>, group: nat, adjust: nat)
    requires Ends(a[..], group) && Fit(Calls(a[..], group), a.Length)
    modifies a, list
    ensures Fit(Calls(old(a[..]), group), a.Length)
    ensures a[..] == Links(old(a[..]), old(list[..]), Calls(old(a[..]), group), group, adjust)
    ensures list[..] == Entries(old(list[..]), Calls(old(a[..]), group), adjust)
  {
    var ptr: nat := group;
    ghost var was, pending := a[..], list[..];
    ghost var calls := Calls(was, group);
    while true
      invariant a.Length == |was| && Ends(a[..], ptr) && Fit(Calls(a[..], ptr), a.Length)
      invariant Links(a[..], list[..], Calls(a[..], ptr), group, adjust) == Links(was, pending, calls, group, adjust)
      invariant Entries(list[..], Calls(a[..], ptr), adjust) == Entries(pending, calls, adjust)
      decreases a.Length - ptr
    {
      var call := FindRecurse(a[..], ptr);
      if call < 0 {
        return;
      }
      CallHere(a[..], call);
      ptr := AdjustCall(a, list, call, group, adjust);
    }
  }

  /** One call. */
  method AdjustCall(a: array<byte>, list: array<nat>, call: nat, group: nat, adjust: nat) returns (ptr: nat)
    requires Ends(a[..], call) && a[call] == OP_RECURSE && Fit(Calls(a[..], call), a.Length)
    modifies a, list
    ensures ptr == call + 3 && Ends(a[..], ptr) && Fit(Calls(a[..], ptr), a.Length)
    ensures Fit(Calls(old(a[..]), call), a.Length)
    ensures Links(a[..], list[..], Calls(a[..], ptr), group, adjust) == Links(old(a[..]), old(list[..]), Calls(old(a[..]), call), group, adjust)
    ensures Entries(list[..], Calls(a[..], ptr), adjust) == Entries(old(list[..]), Calls(old(a[..]), call), adjust)
  {
    ghost var was, pending := a[..], list[..];
    CallHere(was, call);
    var found := AdjustEntry(list, call + 1, adjust);
    assert a[..] == was;
    AdjustLink(a, found, call + 1, group, adjust, pending);
    ptr := call + 3;
    CallsSame(was, a[..], ptr);
    ghost var rest := Calls(was, ptr);
    assert Calls(was, call)[0] == call + 1 && Calls(was, call)[1..] == rest;
  }

  /** After the move: the list, and every call at its new place. */
  ghost predicate MovedRight(was: seq<byte>, pending: seq<nat>, now: seq<byte>, list: seq<nat>, calls: seq<nat>, group: nat, k: nat)
  {
    && EntriesRight(pending, list, k)
    && forall i :: 0 <= i < |calls| ==> CallRight(was, pending, now, calls[i], group, k)
  }

  ghost predicate CallRight(was: seq<byte>, pending: seq<nat>, now: seq<byte>, l: nat, group: nat, k: nat)
  {
    && l + k + 1 < |now| && l + 1 < |was|
    && Get(now, l + k) == if l in pending then Get(was, l) else Moved(Get(was, l), group, k)
  }

  /** A byte of one of the link fields. */
  predicate InLink(calls: seq<nat>, x: nat) { x in calls || (x > 0 && x - 1 in calls) }

  /** All bytes but the link fields: those of the group stand k bytes higher, and nothing
      has changed before the group and behind where it is now. */
  ghost predicate RestMoved(was: seq<byte>, now: seq<byte>, calls: seq<nat>, group: nat, n: nat, k: nat)
  {
    && |now| == |was| && group + n + k <= |was|
    && (forall x {:trigger was[x]} :: group <= x < group + n && !InLink(calls, x) ==> now[x + k] == was[x])
    && (forall x :: 0 <= x < group || group + n + k <= x < |was| ==> now[x] == was[x])
  }

  lemma {:induction false} LinksOnly(code: seq<byte>, p: seq<nat>, calls: seq<nat>, group: nat, k: nat)
    requires Fit(calls, |code|)
    ensures OnlyLinks(code, Links(code, p, calls, group, k), calls)
    decreases calls
  {
    if calls != [] {
      hide OnlyLinks;
      LinksOnly(Link(code, p, calls[0], group, k), Entry(p, calls[0], k), calls[1..], group, k);
      OnlyLinksStep(code, Link(code, p, calls[0], group, k), Links(code, p, calls, group, k), calls, calls[0]);
    }
  }

  lemma BytesMoved(was: seq<byte>, mid: seq<byte>, now: seq<byte>, calls: seq<nat>, group: nat, n: nat, k: nat)
    requires group + n + k <= |was| && OnlyLinks(was, mid, calls)
    requires forall i :: 0 <= i < |calls| ==> group < calls[i] && calls[i] + 2 <= group + n
    requires now == mid[..group + k] + mid[group..group + n] + mid[group + k + n..]
    ensures RestMoved(was, now, calls, group, n, k)
  {
    forall x {:trigger was[x]} | group <= x < group + n && !InLink(calls, x) ensures now[x + k] == was[x] {
      assert now[x + k] == mid[x];
    }
    forall x | 0 <= x < group || group + n + k <= x < |was| ensures now[x] == was[x] {
      assert now[x] == mid[x];
      assert !InLink(calls, x);
    }
  }

  /** The group that starts at group and is n bytes long, calls adjusted, moves up by k
      bytes. Every call is right afterwards exactly when no resolved one stood k bytes
      behind a pending one; all other bytes of the group arrive unchanged in any case. */
  method MoveGroup(a: array<byte>, list: array<nat>, group: nat, n: nat, k: nat)
    requires k >= 1 && group + n + k <= a.Length <= 65536
    requires Ends(a[..], group) && Listed(list[..], Calls(a[..], group))
    requires forall i :: 0 <= i < |Calls(a[..], group)| ==>
               var l := Calls(a[..], group)[i]; l + 2 <= group + n && Get(a[..], l) + k < 65536
    modifies a, list
    ensures MovedRight(old(a[..]), old(list[..]), a[..], list[..], Calls(old(a[..]), group), group, k)
            <==> NoClash(old(list[..]), Calls(old(a[..]), group), k)
    ensures RestMoved(old(a[..]), a[..], Calls(old(a[..]), group), group, n, k)
  {
    ghost var was, pending := a[..], list[..];
    ghost var calls := Calls(was, group);
    CallsSpaced(was, group);
    CallsFit(was, group);
    AdjustRecurse(a, list, group, k);
    ghost var mid := a[..];
    MemMove(a, group + k, group, n);
    MovedIff(was, pending, mid, a[..], group, n, k);
    LinksOnly(was, pending, calls, group, k);
    assert forall i :: 0 <= i < |calls| ==> calls[i] in calls;
    BytesMoved(was, mid, a[..], calls, group, n, k);
  }

  lemma CallsFit(code: seq<byte>, group: nat)
    requires Ends(code, group)
    ensures Fit(Calls(code, group), |code|)
  {
    CallsSpaced(code, group);
    forall i | 0 <= i < |Calls(code, group)| ensures Calls(code, group)[i] + 1 < |code| {
      assert Calls(code, group)[i] in Calls(code, group);
    }
  }

  lemma MovedIff(was: seq<byte>, pending: seq<nat>, mid: seq<byte>, now: seq<byte>, group: nat, n: nat, k: nat)
    requires k >= 1 && group + n + k <= |was| && Ends(was, group) && Fit(Calls(was, group), |was|)
    requires Listed(pending, Calls(was, group))
    requires forall i :: 0 <= i < |Calls(was, group)| ==>
               var l := Calls(was, group)[i]; l + 2 <= group + n && Get(was, l) + k < 65536
    requires mid == Links(was, pending, Calls(was, group), group, k)
    requires now == mid[..group + k] + mid[group..group + n] + mid[group + k + n..]
    ensures MovedRight(was, pending, now, Entries(pending, Calls(was, group), k), Calls(was, group), group, k)
            <==> NoClash(pending, Calls(was, group), k)
  {
    var calls := Calls(was, group);
    CallsSpaced(was, group);
    if NoClash(pending, calls, k) {
      AdjustmentIsRight(was, pending, calls, group, k);
      forall i | 0 <= i < |calls| ensures CallRight(was, pending, now, calls[i], group, k) {
        assert calls[i] in calls;
        assert LinkRight(was, mid, calls[i], calls[i] in pending, group, k);
        ByteMoved(mid, now, group, n, k, calls[i]);
      }
    } else {
      ClashShows(pending, calls, k);
    }
  }

  lemma ClashShows(pending: seq<nat>, calls: seq<nat>, k: nat)
    requires k >= 1 && Spaced(calls) && Listed(pending, calls) && !NoClash(pending, calls, k)
    ensures !EntriesRight(pending, Entries(pending, calls, k), k)
  {
    var todo := SetOf(pending);
    var l :| l in pending && l + k in calls && l + k !in pending;
    assert l in todo;
    EntriesOvershoot(pending, todo, calls, k, l + k);
    SumShift(pending, k);
    DistinctSize(pending);
    if EntriesRight(pending, Entries(pending, calls, k), k) {
      SumOfMultiset(Entries(pending, calls, k), Shift(pending, k));
    }
  }

  lemma ByteMoved(mid: seq<byte>, now: seq<byte>, group: nat, n: nat, k: nat, l: nat)
    requires group + n + k <= |mid| && now == mid[..group + k] + mid[group..group + n] + mid[group + k + n..]
    requires group <= l && l + 2 <= group + n
    ensures l + k + 1 < |now| && Get(now, l + k) == Get(mid, l)
  {
  }
}
