/** The links between the branches of a group. While the group is open each ALT links
    back to the header before it; when the group closes the chain is reversed, so that
    links lead forward from the bracket through every ALT to the closing bracket. */
module EmitAlternatives {
  import opened Opcodes
  import opened Bytecode
  import opened EmitChars

  /** The branches compiled so far, last one outermost. */
  datatype Done = Start | Then(prev: Done, tree: Code)

  /** The header of the branch that follows. */
  function HeaderSize(d: Done, h: nat): nat
  {
    if d == Start then h else 3
  }

  function Combine(d: Done, alts: Alts): Alts
    decreases d
  {
    match d
    case Start => alts
    case Then(prev, tree) => Combine(prev, More(tree, alts))
  }

  /** The header at p is open: the chain of backward links from it leads through every
      branch of d to the bracket at start, whose link is zero. */
  ghost predicate OpenAt(code: seq<byte>, start: nat, h: nat, d: Done, p: nat)
    decreases d
  {
    && p + 3 <= |code|
    && match d
       case Start => p == start && Get(code, p + 1) == 0
       case Then(prev, tree) =>
         var q := p - Get(code, p + 1);
         && code[p] == OP_ALT
         && 0 <= q < p && q + HeaderSize(prev, h) + Size(tree) == p
         && At(code, q + HeaderSize(prev, h), tree)
         && OpenAt(code, start, h, prev, q)
  }

  lemma {:induction false} OpenKept(was: seq<byte>, now: seq<byte>, start: nat, h: nat, d: Done, p: nat)
    requires h >= 3 && OpenAt(was, start, h, d, p) && Kept(was, now, p + 3)
    ensures OpenAt(now, start, h, d, p)
    decreases d
  {
    hide At;
    SameGet(was, 0, p + 3, now, 0, p + 1);
    if d.Then? {
      var q := p - Get(was, p + 1);
      AtShift(was, 0, p + 3, now, 0, q + HeaderSize(d.prev, h), q + HeaderSize(d.prev, h), d.tree);
      OpenKept(was, now, start, h, d.prev, q);
      assert now[p] == was[p];
    }
  }

  /** The branches from the header at p on, all but p's own link in their final form. */
  ghost predicate TailAt(code: seq<byte>, p: nat, h: nat, alts: Alts)
  {
    var next := p + h + Size(alts.code);
    && h >= 3 && next <= |code|
    && At(code, p + h, alts.code)
    && (alts.More? ==> next < |code| && code[next] == OP_ALT && AltsAt(code, next, 3, alts.rest))
  }

  lemma {:induction false} TailPatched(was: seq<byte>, now: seq<byte>, p: nat, h: nat, alts: Alts)
    requires TailAt(was, p, h, alts) && |was| == |now|
    requires Same(was, p + 3, |was|, now, 0)
    requires Get(now, p + 1) == h + Size(alts.code)
    ensures AltsAt(now, p, h, alts)
  {
    hide At, AltsAt;
    var next := p + h + Size(alts.code);
    AtShift(was, p + 3, |was|, now, 0, p + h, p + h, alts.code);
    if alts.More? {
      AltsRoom(was, next, 3, alts.rest);
      AltsShift(was, p + 3, |was|, now, 0, next, next, 3, alts.rest);
      assert now[next] == was[next];
      AltsMore(now, p, h, alts.code, alts.rest);
    } else {
      AltsLast(now, p, h, alts.code);
    }
  }

  lemma {:induction false} AltsRoom(code: seq<byte>, p: nat, h: nat, alts: Alts)
    requires h >= 3 && AltsAt(code, p, h, alts)
    ensures p + h + AltsSize(alts) <= |code|
  {
  }

  lemma {:induction false} OpenStart(code: seq<byte>, start: nat, h: nat, d: Done, p: nat)
    requires h >= 3 && OpenAt(code, start, h, d, p)
    ensures start <= p && (d.Then? ==> start + h <= p)
    decreases d
  {
    if d.Then? {
      OpenStart(code, start, h, d.prev, p - Get(code, p + 1));
    }
  }

  /** Moving back over one link: the header before p takes p's branches as its tail. */
  lemma {:induction false} ReverseStep(was: seq<byte>, now: seq<byte>, start: nat, h: nat, d: Done, p: nat, alts: Alts)
    requires h >= 3 && d.Then? && OpenAt(was, start, h, d, p)
    requires Kept(was, now, p + 1) && AltsAt(now, p, 3, alts)
    ensures var q := p - Get(was, p + 1);
            && 0 <= q < p && start <= q && p - q == HeaderSize(d.prev, h) + Size(d.tree)
            && OpenAt(now, start, h, d.prev, q)
            && TailAt(now, q, HeaderSize(d.prev, h), More(d.tree, alts))
  {
    hide At, AltsAt, Size;
    var q := p - Get(was, p + 1);
    OpenStart(was, start, h, d.prev, q);
    OpenKept(was, now, start, h, d.prev, q);
    AtShift(was, 0, p + 1, now, 0, q + HeaderSize(d.prev, h), q + HeaderSize(d.prev, h), d.tree);
    assert now[p] == was[p];
  }

  /** One turn of the reversal: the header at p gets its forward link; the old link says
      how far back the header before it is. */
  method ReverseOne(a: array<byte>, p: nat, branchLength: nat, ghost h: nat, ghost alts: Alts) returns (prev: nat)
    requires TailAt(a[..], p, h, alts) && branchLength == h + Size(alts.code) < 65536
    modifies a
    ensures prev == Get(old(a[..]), p + 1)
    ensures AltsAt(a[..], p, h, alts)
    ensures Kept(old(a[..]), a[..], p + 1) && Same(old(a[..]), p + 3, a.Length, a[..], 0)
  {
    ghost var was := a[..];
    prev := Get(a[..], p + 1);
    Put(a, p + 1, branchLength);
    TailPatched(was, a[..], p, h, alts);
  }

  /** Nothing before the group has changed, nor its header apart from the link. */
  ghost predicate HeaderKept(was: seq<byte>, now: seq<byte>, start: nat, h: nat)
  {
    && |was| == |now| && start + h <= |was|
    && forall k {:trigger now[k]} :: 0 <= k <= start || start + 3 <= k < start + h ==> k < |was| && now[k] == was[k]
  }

  lemma {:induction false} HeaderTrans(a: seq<byte>, b: seq<byte>, c: seq<byte>, start: nat, h: nat)
    requires h >= 3 && HeaderKept(a, b, start, h) && HeaderKept(b, c, start, h)
    ensures HeaderKept(a, c, start, h)
  {
    forall k {:trigger c[k]} | 0 <= k <= start || start + 3 <= k < start + h ensures k < |a| && c[k] == a[k] {
      assert b[k] == a[k];
    }
  }

  /** The links from p on are final but for p's own, which will be n. */
  ghost predicate Reversing(code: seq<byte>, start: nat, h: nat, d: Done, p: nat, n: nat, alts: Alts)
  {
    && h >= 3 && n == HeaderSize(d, h) + Size(alts.code) < 65536
    && OpenAt(code, start, h, d, p) && TailAt(code, p, HeaderSize(d, h), alts)
  }

  method ReverseTurn(a: array<byte>, p: nat, n: nat, ghost start: nat, ghost h: nat, ghost d: Done, ghost alts: Alts) returns (prev: nat)
    requires Reversing(a[..], start, h, d, p, n, alts) && p < start + 65536
    modifies a
    ensures prev == 0 ==> d == Start && AltsAt(a[..], start, h, alts)
    ensures prev > 0 ==> d.Then? && start <= p - prev && Reversing(a[..], start, h, d.prev, p - prev, prev, More(d.tree, alts))
    ensures HeaderKept(old(a[..]), a[..], start, h)
  {
    ghost var was := a[..];
    OpenStart(was, start, h, d, p);
    prev := ReverseOne(a, p, n, HeaderSize(d, h), alts);
    if prev > 0 {
      ReverseStep(was, a[..], start, h, d, p, alts);
    }
  }

  /** Reverses the chain of links when the last branch ends at code. */
  method ReverseChain(a: array<byte>, last: nat, code: nat, ghost start: nat, ghost h: nat, ghost d: Done, ghost tree: Code)
    requires h >= 3 && OpenAt(a[..], start, h, d, last) && At(a[..], last + HeaderSize(d, h), tree)
    requires code == last + HeaderSize(d, h) + Size(tree) <= a.Length && code < start + 65536
    modifies a
    ensures AltsAt(a[..], start, h, Combine(d, Last(tree)))
    ensures HeaderKept(old(a[..]), a[..], start, h)
  {
    hide OpenAt, AltsAt;
    var p, n: nat := last, code - last;
    ghost var k, alts := d, Last(tree);
    ghost var was := a[..];
    OpenStart(was, start, h, d, last);
    while true
      invariant start <= p <= last && Reversing(a[..], start, h, k, p, n, alts)
      invariant Combine(k, alts) == Combine(d, Last(tree))
      invariant HeaderKept(was, a[..], start, h)
      decreases k
    {
      var prev := ReverseTurn(a, p, n, start, h, k, alts);
      if prev == 0 {
        return;
      }
      p, n := p - prev, prev;
      k, alts := k.prev, More(k.tree, alts);
    }
  }

  // ----- the state between branches -----

  /** The next branch will start at pos, behind the header at last. */
  ghost predicate Open(code: seq<byte>, start: nat, h: nat, d: Done, last: nat, pos: nat)
  {
    && h >= 3 && start + h <= |code| && last < |code|
    && OpenAt(code, start, h, d, last) && pos == last + HeaderSize(d, h)
    && (code[last] == OP_ALT <==> d.Then?)
  }

  /** The branch behind the header at last is complete and ends at end. */
  ghost predicate BranchDone(code: seq<byte>, start: nat, h: nat, d: Done, last: nat, end: nat, tree: Code)
  {
    && h >= 3 && start + h <= |code|
    && OpenAt(code, start, h, d, last)
    && At(code, last + HeaderSize(d, h), tree) && end == last + HeaderSize(d, h) + Size(tree) <= |code|
  }

  lemma {:induction false} OpenExtend(was: seq<byte>, now: seq<byte>, start: nat, h: nat, d: Done, last: nat, pos: nat, tree: Code)
    requires Open(was, start, h, d, last, pos) && pos <= |was| && Kept(was, now, pos)
    requires At(now, pos, tree)
    ensures BranchDone(now, start, h, d, last, pos + Size(tree), tree)
    ensures now[last] == was[last]
  {
    OpenKept(was, now, start, h, d, last);
    AtBound(now, pos, tree);
    assert now[last] == was[last];
  }

  lemma {:induction false} NextOpen(was: seq<byte>, now: seq<byte>, start: nat, h: nat, d: Done, last: nat, end: nat, tree: Code)
    requires BranchDone(was, start, h, d, last, end, tree) && end + 3 <= |now| && Kept(was, now, end)
    requires now[end] == OP_ALT && Get(now, end + 1) == end - last
    ensures Open(now, start, h, Then(d, tree), end, end + 3)
  {
    hide At, Same, Size, Kept;
    var p := last + HeaderSize(d, h);
    KeptLess(was, now, last + 3, end);
    OpenKept(was, now, start, h, d, last);
    TreeKept(was, now, p, end, tree);
    assert end - Get(now, end + 1) == last;
  }

  lemma KeptLess(was: seq<byte>, now: seq<byte>, n: nat, m: nat)
    requires Kept(was, now, m) && n <= m
    ensures Kept(was, now, n)
  {
  }

  lemma TreeKept(was: seq<byte>, now: seq<byte>, p: nat, end: nat, tree: Code)
    requires At(was, p, tree) && end == p + Size(tree) && Kept(was, now, end) && end <= |was|
    ensures At(now, p, tree)
  {
    hide At;
    AtShift(was, 0, end, now, 0, p, p, tree);
  }

  lemma {:induction false} OpenSize(code: seq<byte>, start: nat, h: nat, d: Done, p: nat, alts: Alts)
    requires OpenAt(code, start, h, d, p)
    ensures p + HeaderSize(d, h) + AltsSize(alts) == start + h + AltsSize(Combine(d, alts))
    decreases d
  {
    if d.Then? {
      OpenSize(code, start, h, d.prev, p - Get(code, p + 1), More(d.tree, alts));
    }
  }
}
