/** Recognising newlines when more than one kind counts: looking forward from a position
    and looking back from one find the same newlines. */
module Newline {
  import opened Opcodes

  datatype Kind = AnyCrlf | Any

  const LF := 10
  const VT := 11
  const FF := 12
  const CR := 13
  const NEL := 0x85

  /** The length of the newline that starts at i, or 0. */
  function IsNewline(kind: Kind, s: seq<byte>, i: nat): (n: nat)
    requires i < |s|
    ensures n <= 2 && i + n <= |s|
  {
    var c := s[i];
    if c == CR then (if i + 1 < |s| && s[i + 1] == LF then 2 else 1)
    else if c == LF then 1
    else if kind == Any && (c == VT || c == FF || c == NEL) then 1
    else 0
  }

  /** The length of the newline that ends in front of i, or 0. */
  function WasNewline(kind: Kind, s: seq<byte>, i: nat): (n: nat)
    requires 0 < i <= |s|
    ensures n <= 2 && n <= i
  {
    var c := s[i - 1];
    if c == LF then (if i - 1 > 0 && s[i - 2] == CR then 2 else 1)
    else if c == CR then 1
    else if kind == Any && (c == VT || c == FF || c == NEL) then 1
    else 0
  }

  /** The newlines met going forward from i, as positions and lengths. */
  function Forward(kind: Kind, s: seq<byte>, i: nat): seq<(nat, nat)>
    decreases |s| - i
  {
    if i >= |s| then []
    else
      var n := IsNewline(kind, s, i);
      if n == 0 then Forward(kind, s, i + 1) else [(i, n)] + Forward(kind, s, i + n)
  }

  /** The newlines met going backward from i, in the order of their positions. */
  function Backward(kind: Kind, s: seq<byte>, i: nat): seq<(nat, nat)>
    requires i <= |s|
    decreases i
  {
    if i == 0 then []
    else
      var n := WasNewline(kind, s, i);
      if n == 0 then Backward(kind, s, i - 1) else Backward(kind, s, i - n) + [(i - n, n)]
  }

  /** Position i is not inside a CR LF pair. */
  predicate Clean(s: seq<byte>, i: nat)
  {
    0 < i < |s| ==> !(s[i - 1] == CR && s[i] == LF)
  }

  /** What ends in front of i starts where looking forward finds it. */
  lemma NewlineBefore(kind: Kind, s: seq<byte>, i: nat)
    requires 0 < i <= |s| && Clean(s, i)
    ensures var n := WasNewline(kind, s, i); var j := if n == 0 then i - 1 else i - n;
            IsNewline(kind, s, j) == n && Clean(s, j)
  {
  }

  lemma {:induction false} MeetInTheMiddle(kind: Kind, s: seq<byte>, i: nat)
    requires i <= |s| && Clean(s, i)
    ensures Backward(kind, s, i) + Forward(kind, s, i) == Forward(kind, s, 0)
    decreases i
  {
    if i > 0 {
      NewlineBefore(kind, s, i);
      hide WasNewline, IsNewline, Clean;
      var n := WasNewline(kind, s, i);
      var j := if n == 0 then i - 1 else i - n;
      var found, rest := if n == 0 then [] else [(j, n)], Forward(kind, s, i);
      assert Backward(kind, s, i) == Backward(kind, s, j) + found && Forward(kind, s, j) == found + rest;
      hide Backward, Forward;
      MeetInTheMiddle(kind, s, j);
      assert Backward(kind, s, j) + (found + rest) == (Backward(kind, s, j) + found) + rest;
    }
  }

  /** Both scans of a string find the same newlines, position for position and length for
      length. */
  lemma ScansAgree(kind: Kind, s: seq<byte>)
    ensures Backward(kind, s, |s|) == Forward(kind, s, 0)
  {
    MeetInTheMiddle(kind, s, |s|);
    assert Backward(kind, s, |s|) + [] == Backward(kind, s, |s|);
  }

  /** What a newline is, without reference to a direction: a CR LF pair, or a single newline
      character that is no part of one. */
  predicate Boundary(kind: Kind, s: seq<byte>, p: nat, n: nat)
  {
    || (n == 2 && p + 1 < |s| && s[p] == CR && s[p + 1] == LF)
    || (n == 1 && p < |s| && Clean(s, p) && Clean(s, p + 1)
        && (s[p] == CR || s[p] == LF || (kind == Any && (s[p] == VT || s[p] == FF || s[p] == NEL))))
  }

  /** The newlines at i or behind it are the one that starts at i, if one does, and those
      behind it. */
  lemma NewlineHere(kind: Kind, s: seq<byte>, i: nat, p: nat, n: nat)
    requires i < |s| && Clean(s, i)
    ensures var k := IsNewline(kind, s, i); var j := if k == 0 then i + 1 else i + k;
            && Clean(s, j)
            && (i <= p && Boundary(kind, s, p, n) <==> (k > 0 && p == i && n == k) || (j <= p && Boundary(kind, s, p, n)))
  {
  }

  lemma {:induction false} ForwardFinds(kind: Kind, s: seq<byte>, i: nat, p: nat, n: nat)
    requires Clean(s, i)
    ensures (p, n) in Forward(kind, s, i) <==> i <= p && Boundary(kind, s, p, n)
    decreases |s| - i
  {
    if i < |s| {
      var k := IsNewline(kind, s, i);
      NewlineHere(kind, s, i, p, n);
      hide IsNewline, Clean, Boundary;
      ForwardFinds(kind, s, if k == 0 then i + 1 else i + k, p, n);
    } else {
      assert Forward(kind, s, i) == [];
    }
  }

  /** So either scan finds exactly the newlines there are. */
  lemma ScansAreExact(kind: Kind, s: seq<byte>, p: nat, n: nat)
    ensures (p, n) in Forward(kind, s, 0) <==> Boundary(kind, s, p, n)
    ensures (p, n) in Backward(kind, s, |s|) <==> Boundary(kind, s, p, n)
  {
    ForwardFinds(kind, s, 0, p, n);
    ScansAgree(kind, s);
  }
}
