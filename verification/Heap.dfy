/** One block of the small-object heap: chunks with boundary tags, tiling the block. */
module Heap {

  const WORD := 0x1_0000_0000
  const BLOCK_SIZE := 0x100000
  const PAGE_SIZE := 0x1000
  const CELLS := BLOCK_SIZE / 8
  const END_SIZE := 0xFFFF_FFFF

  type u32 = n: int | 0 <= n < WORD

  /** Eight bytes of a block. In a chunk header they are the two fields; elsewhere they
      are whatever the owner of the chunk has put there. */
  datatype Cell = Cell(prev: u32, size: u32)

  /** The size without its flag bits. */
  function Mask(n: nat): nat { n - n % 8 }

  /** What a request takes with its header, rounded up. */
  function Rounded(size: nat): nat { Mask(size + 8 + 7) }

  predicate InUse(cell: Cell) { cell.size % 2 == 1 }

  lemma Eighths(k: nat, r: nat)
    requires r < 8
    ensures (8 * k + r) / 8 == k && (8 * k + r) % 8 == r
  {
    var n := 8 * k + r;
    var q := n / 8;
    assert 8 * q <= n < 8 * q + 8;
    assert q <= k && k <= q;
  }

  lemma Halves(k: nat, r: nat)
    requires r < 2
    ensures (2 * k + r) % 2 == r
  {
    var n := 2 * k + r;
    var q := n / 2;
    assert 2 * q <= n < 2 * q + 2;
    assert q <= k && k <= q;
  }

  lemma MaskFlag(n: nat)
    requires n % 8 == 0
    ensures Mask(n) == n && Mask(n + 1) == n && (n + 1) % 2 == 1 && n % 2 == 0
  {
    var k := n / 8;
    Eighths(k, 1);
    Halves(4 * k, 0);
    Halves(4 * k, 1);
    assert n == 8 * k;
  }

  lemma MaskEights(n: nat)
    ensures Mask(n) % 8 == 0 && Mask(n) <= n < Mask(n) + 8
    ensures n % 2 == 0 && n - Mask(n) <= 1 ==> n == Mask(n)
  {
    var k := n / 8;
    Eighths(k, 0);
    assert n == 8 * k + n % 8;
    Halves(4 * k, 1);
  }

  /** A request gets its bytes and a header of eight, in the fewest words. */
  lemma RoundedFits(size: nat)
    ensures size + 8 <= Rounded(size) < size + 16 && Rounded(size) % 8 == 0
    ensures Rounded(size) > PAGE_SIZE <==> size + 8 > PAGE_SIZE
  {
    MaskEights(size + 15);
    assert Rounded(size) == 8 * (Rounded(size) / 8);
  }

  /** The header after the one at c, found by the masked size. */
  function Next(cells: seq<Cell>, c: nat): nat
    requires c < |cells|
  {
    c + Mask(cells[c].size) / 8
  }

  /** From the header at c, walking by masked sizes reaches exactly the end header. Sizes
      are positive multiples of 8, and each chunk's backward size is at least 8 and no
      more than the size of the chunk before it, pred (0 for the first chunk). */
  ghost predicate Tiled(cells: seq<Cell>, c: nat, pred: nat)
    decreases |cells| - c
  {
    c < |cells| &&
    if c == |cells| - 1 then cells[c].size == END_SIZE
    else
      var s := Mask(cells[c].size);
      && s >= 8 && cells[c].size - s <= 1 && Next(cells, c) < |cells|
      && (pred > 0 ==> 8 <= cells[c].prev <= pred && cells[c].prev % 8 == 0)
      && Tiled(cells, Next(cells, c), s)
  }

  /** A well-formed block; its first cell is the block header. */
  ghost predicate Block(cells: seq<Cell>)
  {
    3 <= |cells| <= BLOCK_SIZE / 8 && cells[1].prev == 0 && Tiled(cells, 1, 0)
  }

  /** The walk from c comes by q. */
  predicate Walks(cells: seq<Cell>, c: nat, q: nat)
    decreases |cells| - c
  {
    c < |cells| && (c == q || (Next(cells, c) > c && Walks(cells, Next(cells, c), q)))
  }

  /** The size of the chunk before q on the walk from c. */
  function Before(cells: seq<Cell>, c: nat, pred: nat, q: nat): nat
    requires Walks(cells, c, q)
    decreases |cells| - c
  {
    if c == q then pred else Before(cells, Next(cells, c), Mask(cells[c].size), q)
  }

  /** There is a chunk of s bytes at q, and it is allocated. */
  ghost predicate Allocated(cells: seq<Cell>, q: nat, s: nat)
  {
    Walks(cells, 1, q) && q < |cells| - 1 && InUse(cells[q]) && Mask(cells[q].size) == s
  }

  /** There is a chunk at q, it is free and has at least s bytes. */
  ghost predicate FreeFit(cells: seq<Cell>, q: nat, s: nat)
  {
    Walks(cells, 1, q) && q < |cells| - 1 && !InUse(cells[q]) && Mask(cells[q].size) >= s
  }

  predicate Agree(was: seq<Cell>, now: seq<Cell>, lo: nat, hi: nat)
  {
    |was| == |now| && hi <= |was| && forall k :: lo <= k < hi ==> now[k] == was[k]
  }

  // ----- the walk -----

  lemma {:induction false} WalkTiled(cells: seq<Cell>, c: nat, pred: nat, q: nat)
    requires Tiled(cells, c, pred) && Walks(cells, c, q)
    ensures c <= q < |cells| && Tiled(cells, q, Before(cells, c, pred, q))
    ensures q > c ==> Before(cells, c, pred, q) >= 8 && Before(cells, c, pred, q) % 8 == 0 && q - Before(cells, c, pred, q) / 8 >= c
    decreases |cells| - c
  {
    if c != q {
      WalkTiled(cells, Next(cells, c), Mask(cells[c].size), q);
    }
  }

  /** Cells before q decide how the walk gets to q. */
  lemma {:induction false} WalkPrefix(was: seq<Cell>, now: seq<Cell>, c: nat, pred: nat, q: nat)
    requires Tiled(was, c, pred) && Walks(was, c, q) && Agree(was, now, c, q)
    ensures Walks(now, c, q) && Before(now, c, pred, q) == Before(was, c, pred, q)
    decreases |was| - c
  {
    if c != q {
      WalkTiled(was, c, pred, q);
      WalkPrefix(was, now, Next(was, c), Mask(was[c].size), q);
    }
  }

  /** A well-formed rest behind an unchanged beginning. */
  lemma {:induction false} TiledJoin(was: seq<Cell>, now: seq<Cell>, c: nat, pred: nat, q: nat)
    requires Tiled(was, c, pred) && Walks(was, c, q) && Agree(was, now, c, q)
    requires Tiled(now, q, Before(was, c, pred, q))
    ensures Tiled(now, c, pred)
    decreases |was| - c
  {
    if c != q {
      WalkTiled(was, c, pred, q);
      TiledJoin(was, now, Next(was, c), Mask(was[c].size), q);
    }
  }

  /** The walk beyond q goes through q. */
  lemma {:induction false} WalkSplits(cells: seq<Cell>, c: nat, pred: nat, q: nat, x: nat)
    requires Tiled(cells, c, pred) && Walks(cells, c, q)
    ensures x >= q ==> (Walks(cells, c, x) <==> Walks(cells, q, x))
    decreases |cells| - c
  {
    if c != q {
      WalkTiled(cells, c, pred, q);
      WalkSplits(cells, Next(cells, c), Mask(cells[c].size), q, x);
    }
  }

  /** Before q the walk is decided by the cells there. */
  lemma {:induction false} WalkBefore(was: seq<Cell>, now: seq<Cell>, c: nat, pred: nat, q: nat, x: nat)
    requires Tiled(was, c, pred) && Walks(was, c, q) && Agree(was, now, c, q) && x < q
    ensures Walks(now, c, x) <==> Walks(was, c, x)
    decreases |was| - c
  {
    if c == q {
      WalkForward(was, c, x);
      WalkForward(now, c, x);
    } else {
      WalkTiled(was, c, pred, q);
      WalkBefore(was, now, Next(was, c), Mask(was[c].size), q, x);
    }
  }

  lemma {:induction false} WalkForward(cells: seq<Cell>, c: nat, x: nat)
    ensures Walks(cells, c, x) ==> c <= x < |cells|
    decreases |cells| - c
  {
    if c < |cells| && c != x && Next(cells, c) > c {
      WalkForward(cells, Next(cells, c), x);
    }
  }

  /** From q on only sizes matter to the walk. */
  lemma {:induction false} WalkAfter(was: seq<Cell>, now: seq<Cell>, q: nat, x: nat)
    requires |was| == |now| && forall k :: q <= k < |was| ==> now[k].size == was[k].size
    ensures Walks(now, q, x) <==> Walks(was, q, x)
    decreases |was| - q
  {
    if q < |was| && q != x && Next(was, q) > q {
      WalkAfter(was, now, Next(was, q), x);
    }
  }

  /** The chunk at q may get another predecessor if its backward size fits. */
  lemma {:induction false} TiledAgain(was: seq<Cell>, now: seq<Cell>, q: nat, pred: nat, pred': nat)
    requires Tiled(was, q, pred) && Agree(was, now, q + 1, |was|) && now[q].size == was[q].size
    requires q < |was| - 1 && pred' > 0 ==> 8 <= now[q].prev <= pred' && now[q].prev % 8 == 0
    ensures Tiled(now, q, pred')
  {
    if q < |was| - 1 {
      var n := Next(was, q);
      TiledSame(was, now, n, Mask(was[q].size));
    }
  }

  lemma {:induction false} TiledSame(was: seq<Cell>, now: seq<Cell>, q: nat, pred: nat)
    requires Tiled(was, q, pred) && Agree(was, now, q, |was|)
    ensures Tiled(now, q, pred)
    decreases |was| - q
  {
    if q < |was| - 1 {
      TiledSame(was, now, Next(was, q), Mask(was[q].size));
    }
  }

  /** Chunks do not overlap. */
  lemma ChunksApart(cells: seq<Cell>, q: nat, x: nat)
    requires Block(cells) && Walks(cells, 1, q) && Walks(cells, 1, x) && q < x
    ensures q < |cells| && Next(cells, q) <= x
  {
    WalkTiled(cells, 1, 0, q);
    WalkSplits(cells, 1, 0, q, x);
    WalkForward(cells, Next(cells, q), x);
  }

  /** The sizes of all chunks of a block add up. */
  function Total(cells: seq<Cell>, c: nat): nat
    decreases |cells| - c
  {
    if c + 1 >= |cells| || Next(cells, c) <= c then 0
    else Mask(cells[c].size) + Total(cells, Next(cells, c))
  }

  lemma {:induction false} TiledTotal(cells: seq<Cell>, c: nat, pred: nat)
    requires Tiled(cells, c, pred)
    ensures Total(cells, c) == 8 * (|cells| - 1 - c)
    decreases |cells| - c
  {
    if c < |cells| - 1 {
      TiledTotal(cells, Next(cells, c), Mask(cells[c].size));
    }
  }

  /** Nothing is lost: the chunk sizes of a full block sum to its size without the block
      header and the end header. */
  lemma BlockTotal(cells: seq<Cell>)
    requires Block(cells) && |cells| == BLOCK_SIZE / 8
    ensures Total(cells, 1) == BLOCK_SIZE - 16
  {
    TiledTotal(cells, 1, 0);
  }

  // ----- cutting a chunk in two -----

  /** The chunk of whole bytes at c is cut: size bytes, now in use, and a free rest. The
      header after both gets the rest's size as its backward size. */
  function Cut(cells: seq<Cell>, c: nat, whole: u32, size: u32): (r: seq<Cell>)
    requires c + whole / 8 < |cells| && 8 <= size < whole && size % 8 == 0 && whole % 8 == 0
    ensures |r| == |cells|
  {
    var m, n := c + size / 8, c + whole / 8;
    cells[m := Cell(size, whole - size)][n := cells[n].(prev := whole - size)][c := cells[c].(size := size + 1)]
  }

  lemma CutTiled(cells: seq<Cell>, c: nat, whole: u32, size: u32, pred: nat, n: nat)
    requires c + whole / 8 < |cells| && 8 <= size < whole && size % 8 == 0 && whole % 8 == 0
    requires n == c + whole / 8 && Tiled(cells, n, whole)
    requires c < |cells| - 1 && (pred > 0 ==> 8 <= cells[c].prev <= pred && cells[c].prev % 8 == 0)
    ensures Tiled(Cut(cells, c, whole, size), c, pred)
  {
    hide Mask;
    var now, m := Cut(cells, c, whole, size), c + size / 8;
    MaskFlag(size);
    MaskFlag(whole - size);
    TiledAgain(cells, now, n, whole, whole - size);
    assert Next(now, m) == n && Next(now, c) == m;
    assert Tiled(now, m, size);
  }

  /** The walk after the cut: one more chunk. */
  lemma CutWalks(cells: seq<Cell>, c: nat, whole: u32, size: u32, x: nat)
    requires c + whole / 8 < |cells| && 8 <= size < whole && size % 8 == 0 && whole % 8 == 0 && Mask(cells[c].size) == whole
    ensures Walks(Cut(cells, c, whole, size), c, x) <==> Walks(cells, c, x) || x == c + size / 8
  {
    var now, m, n := Cut(cells, c, whole, size), c + size / 8, c + whole / 8;
    MaskFlag(size);
    MaskFlag(whole - size);
    WalkAfter(cells, now, n, x);
    assert Next(now, m) == n && Next(now, c) == m;
  }

  /** Everything promised about taking size bytes for an allocation at c: the block stays
      well formed, c is allocated with at least that much, every other allocated chunk is
      still there, no byte of one has changed, and there are no new ones. */
  ghost predicate Taken(was: seq<Cell>, now: seq<Cell>, c: nat, s: nat)
  {
    && Block(now) && |now| == |was| && Allocated(now, c, s)
    && (forall q: nat, t: nat {:trigger Allocated(now, q, t)} :: q != c ==> (Allocated(now, q, t) <==> Allocated(was, q, t)))
    && (forall q: nat, t: nat {:trigger Allocated(was, q, t)} :: q != c && Allocated(was, q, t) ==> Agree(was, now, q + 1, q + t / 8))
  }

  /** A block rewritten from the chunk at c on. */
  lemma Rejoin(was: seq<Cell>, now: seq<Cell>, c: nat, x: nat)
    requires Tiled(was, 1, 0) && Walks(was, 1, c) && Agree(was, now, 1, c) && Tiled(now, c, Before(was, 1, 0, c))
    ensures Tiled(now, 1, 0)
    ensures Walks(now, 1, x) <==> if x < c then Walks(was, 1, x) else Walks(now, c, x)
  {
    TiledJoin(was, now, 1, 0, c);
    WalkPrefix(was, now, 1, 0, c);
    WalkSplits(now, 1, 0, c, x);
    if x < c {
      WalkBefore(was, now, 1, 0, c, x);
    }
  }

  /** A chunk q is the same chunk before and after. */
  ghost predicate SameChunk(was: seq<Cell>, now: seq<Cell>, q: nat)
  {
    |was| == |now| && (Walks(now, 1, q) <==> Walks(was, 1, q)) && (Walks(was, 1, q) && q < |was| ==> now[q].size == was[q].size)
  }

  lemma SameAllocated(was: seq<Cell>, now: seq<Cell>, q: nat, t: nat)
    requires SameChunk(was, now, q)
    ensures Allocated(now, q, t) <==> Allocated(was, q, t)
  {
  }

  lemma CutChunk(was: seq<Cell>, c: nat, whole: u32, size: u32, q: nat)
    requires Block(was) && Walks(was, 1, c) && c < |was| - 1 && Mask(was[c].size) == whole
    requires 8 <= size < whole && size % 8 == 0 && c + whole / 8 < |was|
    requires q != c && q != c + size / 8 && Tiled(Cut(was, c, whole, size), c, Before(was, 1, 0, c))
    ensures SameChunk(was, Cut(was, c, whole, size), q)
  {
    assert whole % 8 == 0;
    CutSizes(was, c, whole, size, q);
    CutWalks(was, c, whole, size, q);
    hide Tiled, Mask, Cut, Walks;
    Rejoin(was, Cut(was, c, whole, size), c, q);
    WalkSplits(was, 1, 0, c, q);
  }

  lemma CutSizes(was: seq<Cell>, c: nat, whole: u32, size: u32, q: nat)
    requires c + whole / 8 < |was| && 8 <= size < whole && size % 8 == 0 && whole % 8 == 0
    requires q != c && q != c + size / 8
    ensures Agree(was, Cut(was, c, whole, size), 1, c) && (q < |was| ==> Cut(was, c, whole, size)[q].size == was[q].size)
  {
  }

  /** The new header inside the chunk was none before, and what starts there is free. */
  lemma CutRest(was: seq<Cell>, c: nat, whole: u32, size: u32, t: nat)
    requires Block(was) && Walks(was, 1, c) && c < |was| - 1 && Mask(was[c].size) == whole
    requires 8 <= size < whole && size % 8 == 0 && c + whole / 8 < |was|
    ensures !Allocated(was, c + size / 8, t) && !Allocated(Cut(was, c, whole, size), c + size / 8, t)
  {
    hide Tiled, Block;
    if Walks(was, 1, c + size / 8) {
      ChunksApart(was, c, c + size / 8);
    }
    MaskFlag(whole - size);
  }

  lemma CutFits(was: seq<Cell>, c: nat, whole: u32, size: u32)
    requires Block(was) && Walks(was, 1, c) && c < |was| - 1 && Mask(was[c].size) == whole
    requires 8 <= size < whole && size % 8 == 0
    ensures c + whole / 8 < |was| && Tiled(Cut(was, c, whole, size), c, Before(was, 1, 0, c))
  {
    WalkTiled(was, 1, 0, c);
    CutTiled(was, c, whole, size, Before(was, 1, 0, c), c + whole / 8);
  }

  lemma CutValid(was: seq<Cell>, c: nat, whole: u32, size: u32)
    requires Block(was) && Walks(was, 1, c) && c < |was| - 1 && Mask(was[c].size) == whole
    requires 8 <= size < whole && size % 8 == 0
    ensures c + whole / 8 < |was| && Tiled(Cut(was, c, whole, size), c, Before(was, 1, 0, c))
    ensures Block(Cut(was, c, whole, size)) && Allocated(Cut(was, c, whole, size), c, size)
  {
    hide Tiled, Walks, Mask;
    MaskEights(was[c].size);
    CutFits(was, c, whole, size);
    WalkForward(was, 1, c);
    Rejoin(was, Cut(was, c, whole, size), c, c);
    WalksSelf(Cut(was, c, whole, size), c);
    MaskFlag(size);
  }

  lemma WalksSelf(cells: seq<Cell>, c: nat)
    requires c < |cells|
    ensures Walks(cells, c, c)
  {
  }

  lemma CutAgrees(was: seq<Cell>, c: nat, whole: u32, size: u32)
    requires c + whole / 8 < |was| && 8 <= size < whole && size % 8 == 0 && whole % 8 == 0
    ensures Agree(was, Cut(was, c, whole, size), 0, c) && Agree(was, Cut(was, c, whole, size), c + whole / 8 + 1, |was|)
  {
  }

  /** Cutting a chunk of the block. */
  lemma CutBlock(was: seq<Cell>, c: nat, whole: u32, size: u32)
    requires Block(was) && Walks(was, 1, c) && c < |was| - 1 && Mask(was[c].size) == whole
    requires 8 <= size < whole && size % 8 == 0
    ensures c + whole / 8 < |was| && Taken(was, Cut(was, c, whole, size), c, size)
  {
    hide Cut, Block, Walks;
    CutValid(was, c, whole, size);
    var now := Cut(was, c, whole, size);
    forall q: nat, t: nat {:trigger Allocated(now, q, t)} | q != c ensures Allocated(now, q, t) <==> Allocated(was, q, t) {
      if q == c + size / 8 {
        CutRest(was, c, whole, size, t);
      } else {
        CutChunk(was, c, whole, size, q);
        SameAllocated(was, now, q, t);
      }
    }
    CutAgrees(was, c, whole, size);
    forall q: nat, t: nat {:trigger Allocated(was, q, t)} | q != c && Allocated(was, q, t) ensures Agree(was, now, q + 1, q + t / 8) {
      PayloadKept(was, now, c, c + whole / 8, q, t);
    }
  }

  /** The payload of an allocated chunk other than c, when only cells from c up to the next
      header have changed. */
  lemma PayloadKept(was: seq<Cell>, now: seq<Cell>, c: nat, n: nat, q: nat, t: nat)
    requires Block(was) && Walks(was, 1, c) && c < n && c < |was| && Allocated(was, q, t) && q != c
    requires n == Next(was, c) && Agree(was, now, 0, c) && Agree(was, now, n + 1, |was|)
    ensures Agree(was, now, q + 1, q + t / 8)
  {
    WalkTiled(was, 1, 0, q);
    if q < c {
      ChunksApart(was, q, c);
    } else {
      ChunksApart(was, c, q);
    }
  }

  // ----- taking a chunk as it is -----

  function Mark(cells: seq<Cell>, c: nat): (r: seq<Cell>)
    requires c < |cells| && cells[c].size < END_SIZE
    ensures |r| == |cells|
  {
    cells[c := cells[c].(size := cells[c].size + 1)]
  }

  lemma MarkTiled(cells: seq<Cell>, c: nat, pred: nat)
    requires Tiled(cells, c, pred) && c < |cells| - 1 && !InUse(cells[c]) && cells[c].size < END_SIZE
    ensures Tiled(Mark(cells, c), c, pred) && Next(Mark(cells, c), c) == Next(cells, c)
  {
    MaskFlag(cells[c].size);
    TiledSame(cells, Mark(cells, c), Next(cells, c), Mask(cells[c].size));
  }

  lemma MarkChunk(was: seq<Cell>, c: nat, q: nat)
    requires Block(was) && Walks(was, 1, c) && c < |was| - 1 && !InUse(was[c]) && was[c].size < END_SIZE && q != c
    ensures SameChunk(was, Mark(was, c), q)
  {
    var now := Mark(was, c);
    WalkTiled(was, 1, 0, c);
    MarkTiled(was, c, Before(was, 1, 0, c));
    Rejoin(was, now, c, q);
    WalkSplits(was, 1, 0, c, q);
    WalkAfter(was, now, Next(was, c), q);
  }

  lemma MarkValid(was: seq<Cell>, c: nat)
    requires Block(was) && Walks(was, 1, c) && c < |was| - 1 && !InUse(was[c]) && was[c].size < END_SIZE
    ensures Block(Mark(was, c)) && Allocated(Mark(was, c), c, Mask(was[c].size))
  {
    var now := Mark(was, c);
    WalkTiled(was, 1, 0, c);
    MarkTiled(was, c, Before(was, 1, 0, c));
    hide Tiled;
    Rejoin(was, now, c, c);
    MaskFlag(was[c].size);
  }

  lemma MarkBlock(was: seq<Cell>, c: nat)
    requires Block(was) && Walks(was, 1, c) && c < |was| - 1 && !InUse(was[c]) && was[c].size < END_SIZE
    ensures Taken(was, Mark(was, c), c, Mask(was[c].size))
  {
    hide SameChunk, Block, Walks;
    MarkValid(was, c);
    var now := Mark(was, c);
    forall q: nat, t: nat {:trigger Allocated(now, q, t)} | q != c ensures Allocated(now, q, t) <==> Allocated(was, q, t) {
      MarkChunk(was, c, q);
      SameAllocated(was, now, q, t);
    }
    forall q: nat, t: nat {:trigger Allocated(was, q, t)} | q != c && Allocated(was, q, t) ensures Agree(was, now, q + 1, q + t / 8) {
      FreeSize(was, c);
      PayloadKept(was, now, c, Next(was, c), q, t);
    }
  }

  // ----- first fit in one block -----

  /** A free chunk's size field is its size. */
  lemma FreeSize(cells: seq<Cell>, c: nat)
    requires Block(cells) && Walks(cells, 1, c) && c < |cells| - 1
    ensures !InUse(cells[c]) ==> cells[c].size == Mask(cells[c].size)
    ensures Mask(cells[c].size) + 8 < END_SIZE && c < Next(cells, c) < |cells|
    ensures cells[c].size != END_SIZE
  {
    hide Mask;
    WalkTiled(cells, 1, 0, c);
    MaskEights(cells[c].size);
  }

  /** The split of a chunk in place. */
  method SplitAt(cells: array<Cell>, c: nat, size: u32)
    requires c < cells.Length && 8 <= size < cells[c].size && size % 8 == 0 && cells[c].size % 8 == 0
    requires c + cells[c].size / 8 < cells.Length
    modifies cells
    ensures cells[..] == Cut(old(cells[..]), c, old(cells[c].size), size)
  {
    var n, nc := c + size / 8, c + cells[c].size / 8;
    cells[n] := Cell(size, cells[c].size - size);
    cells[c] := cells[c].(size := size + 1);
    cells[nc] := cells[nc].(prev := cells[n].size);
  }

  /** The block after size bytes have been taken at c: all of the chunk, or its first part. */
  function TakeCells(cells: seq<Cell>, c: nat, size: u32): (r: seq<Cell>)
    requires c < |cells| && cells[c].size < END_SIZE && cells[c].size % 8 == 0
    requires cells[c].size != size ==> c + cells[c].size / 8 < |cells| && 8 <= size < cells[c].size && size % 8 == 0
    ensures |r| == |cells|
  {
    if cells[c].size == size then Mark(cells, c) else Cut(cells, c, cells[c].size, size)
  }

  /** A free chunk that is large enough can be taken. */
  lemma TakeRoom(cells: seq<Cell>, c: nat, size: u32)
    requires Block(cells) && FreeFit(cells, c, size) && 8 <= size && size % 8 == 0
    ensures c < |cells| && cells[c].size < END_SIZE && cells[c].size % 8 == 0 && size <= cells[c].size
    ensures c + cells[c].size / 8 < |cells|
  {
    FreeSize(cells, c);
  }

  /** The block is what taking size bytes at c leaves of it. */
  ghost predicate TakenAt(was: seq<Cell>, now: seq<Cell>, c: nat, size: u32)
  {
    && Block(was) && FreeFit(was, c, size) && 8 <= size && size % 8 == 0
    && (TakeRoom(was, c, size); now == TakeCells(was, c, size))
  }

  /** Takes size bytes at c, a free chunk that is large enough. */
  method TakeAt(cells: array<Cell>, c: nat, size: u32)
    requires Block(cells[..]) && FreeFit(cells[..], c, size) && 8 <= size && size % 8 == 0
    modifies cells
    ensures Taken(old(cells[..]), cells[..], c, size) && TakenAt(old(cells[..]), cells[..], c, size)
  {
    ghost var was := cells[..];
    FreeSize(was, c);
    if Mask(cells[c].size) == size {
      MarkBlock(was, c);
      cells[c] := cells[c].(size := cells[c].size + 1);
    } else {
      CutBlock(was, c, was[c].size, size);
      SplitAt(cells, c, size);
    }
  }

  /** The first free chunk of the block that has room, if there is one, is used. */
  method FitBlock(cells: array<Cell>, size: u32) returns (found: bool, c: nat)
    requires Block(cells[..]) && 8 <= size && size % 8 == 0
    modifies cells
    ensures found ==> Taken(old(cells[..]), cells[..], c, size) && TakenAt(old(cells[..]), cells[..], c, size)
    ensures found ==> forall q :: 0 <= q < c ==> !FreeFit(old(cells[..]), q, size)
    ensures !found ==> cells[..] == old(cells[..]) && forall q: nat :: !FreeFit(old(cells[..]), q, size)
  {
    ghost var was := cells[..];
    c := 1;
    WalkForward(was, 1, 0);
    while cells[c].size != END_SIZE
      invariant cells[..] == was && Walks(was, 1, c) && c < cells.Length
      invariant forall q :: 0 <= q < c ==> !FreeFit(was, q, size)
      decreases cells.Length - c
    {
      WalkTiled(was, 1, 0, c);
      FreeSize(was, c);
      var csize := Mask(cells[c].size);
      if !InUse(cells[c]) && csize >= size {
        TakeAt(cells, c, size);
        found := true;
        return;
      }
      forall q | c <= q < Next(was, c) ensures !FreeFit(was, q, size) {
        NoneBetween(was, c, q, size);
      }
      StepOn(was, 1, c);
      c := c + csize / 8;
    }
    AtEnd(was, c);
    found := false;
  }

  lemma AtEnd(cells: seq<Cell>, c: nat)
    requires Block(cells) && Walks(cells, 1, c) && c < |cells| && cells[c].size == END_SIZE
    ensures c == |cells| - 1
  {
    if c < |cells| - 1 {
      FreeSize(cells, c);
    }
  }

  lemma {:induction false} StepOn(cells: seq<Cell>, from: nat, c: nat)
    requires Walks(cells, from, c) && c < |cells| && c < Next(cells, c) < |cells|
    ensures Walks(cells, from, Next(cells, c))
    decreases |cells| - from
  {
    if from != c {
      StepOn(cells, Next(cells, from), c);
    }
  }

  lemma NoneBetween(cells: seq<Cell>, c: nat, q: nat, size: nat)
    requires Block(cells) && Walks(cells, 1, c) && c < |cells| - 1 && c <= q < Next(cells, c)
    requires InUse(cells[c]) || Mask(cells[c].size) < size
    ensures !FreeFit(cells, q, size)
  {
    if c < q && Walks(cells, 1, q) {
      ChunksApart(cells, c, q);
    }
  }

  // ----- joining a chunk with the free one behind it -----

  function Join(cells: seq<Cell>, h: nat): (r: seq<Cell>)
    requires h < |cells| && Next(cells, h) < |cells| && cells[h].size + cells[Next(cells, h)].size < WORD
    ensures |r| == |cells|
  {
    cells[h := cells[h].(size := cells[h].size + cells[Next(cells, h)].size)]
  }

  /** A chunk and the free one behind it, as the walk knows them. */
  ghost predicate Joinable(cells: seq<Cell>, h: nat)
  {
    && Block(cells) && Walks(cells, 1, h) && h < |cells| - 1
    && Next(cells, h) < |cells| && !InUse(cells[Next(cells, h)])
  }

  lemma JoinArithmetic(a: nat, b: nat)
    requires b % 8 == 0
    ensures Mask(a + b) == Mask(a) + b && (a + b) % 2 == a % 2
    ensures Mask(a + b) / 8 == Mask(a) / 8 + b / 8
  {
    var k, m, h := a / 8, b / 8, a / 2;
    assert a == 8 * k + a % 8 && b == 8 * m && a == 2 * h + a % 2;
    Eighths(k + m, a % 8);
    Eighths(k, 0);
    Eighths(k + m, 0);
    Halves(h + 4 * m, a % 2);
  }

  lemma JoinSizes(cells: seq<Cell>, h: nat)
    requires Joinable(cells, h)
    ensures var n := Next(cells, h);
            && Walks(cells, 1, n) && h < n < |cells| - 1 && cells[n].size == Mask(cells[n].size) && Next(cells, n) < |cells|
            && cells[h].size + cells[n].size < END_SIZE
            && Mask(cells[h].size + cells[n].size) == Mask(cells[h].size) + cells[n].size
            && (cells[h].size + cells[n].size) % 2 == cells[h].size % 2
            && Next(Join(cells, h), h) == Next(cells, n)
  {
    hide Mask;
    MaskEights(cells[h].size);
    var n := Next(cells, h);
    FreeSize(cells, h);
    StepOn(cells, 1, h);
    AtEndInUse(cells, n);
    MaskEights(cells[n].size);
    FreeSize(cells, n);
    ChunkRoom(cells, h);
    ChunkRoom(cells, n);
    JoinArithmetic(cells[h].size, cells[n].size);
  }

  lemma AtEndInUse(cells: seq<Cell>, n: nat)
    requires Block(cells) && Walks(cells, 1, n) && n < |cells| && !InUse(cells[n])
    ensures n < |cells| - 1
  {
    WalkTiled(cells, 1, 0, n);
  }

  lemma ChunkRoom(cells: seq<Cell>, c: nat)
    requires Block(cells) && Walks(cells, 1, c) && c < |cells| - 1
    ensures cells[c].size <= BLOCK_SIZE && cells[c].size - Mask(cells[c].size) <= 1
  {
    WalkTiled(cells, 1, 0, c);
  }

  lemma JoinTiled(cells: seq<Cell>, h: nat)
    requires Joinable(cells, h)
    ensures cells[h].size + cells[Next(cells, h)].size < WORD && Tiled(Join(cells, h), h, Before(cells, 1, 0, h))
  {
    hide Before;
    JoinSizes(cells, h);
    var n, now := Next(cells, h), Join(cells, h);
    WalkTiled(cells, 1, 0, h);
    TiledAgain(cells, now, Next(cells, n), Mask(cells[n].size), Mask(now[h].size));
  }

  lemma JoinChunk(was: seq<Cell>, h: nat, q: nat, t: nat)
    requires Joinable(was, h) && q != h && was[h].size + was[Next(was, h)].size < WORD
    ensures Allocated(Join(was, h), q, t) <==> Allocated(was, q, t)
  {
    JoinSizes(was, h);
    JoinTiled(was, h);
    var n, now := Next(was, h), Join(was, h);
    Rejoin(was, now, h, q);
    WalkSplits(was, 1, 0, h, q);
    WalkAfter(was, now, Next(was, n), q);
    WalkForward(was, Next(was, n), q);
  }

  lemma JoinBlock(was: seq<Cell>, h: nat)
    requires Joinable(was, h)
    ensures was[h].size + was[Next(was, h)].size < WORD && Block(Join(was, h)) && Walks(Join(was, h), 1, h)
  {
    JoinTiled(was, h);
    Rejoin(was, Join(was, h), h, h);
  }

  // ----- cells that are no headers -----

  /** A cell that the walk does not come by may hold anything. */
  lemma {:induction false} OffWalk(was: seq<Cell>, c: nat, pred: nat, x: nat, v: Cell, q: nat)
    requires Tiled(was, c, pred) && x < |was| && !Walks(was, c, x)
    ensures Tiled(was[x := v], c, pred) && (Walks(was[x := v], c, q) <==> Walks(was, c, q))
    decreases |was| - c
  {
    if c < |was| - 1 {
      OffWalk(was, Next(was, c), Mask(was[c].size), x, v, q);
    }
  }

  lemma OffWalkBlock(was: seq<Cell>, x: nat, v: Cell, q: nat, t: nat)
    requires Block(was) && x < |was| && !Walks(was, 1, x)
    ensures Block(was[x := v]) && (Allocated(was[x := v], q, t) <==> Allocated(was, q, t))
  {
    OffWalk(was, 1, 0, x, v, q);
  }

  /** The owner of a chunk writes to its payload: nothing else is touched. */
  method UserWrite(cells: array<Cell>, c: nat, k: nat, v: Cell, ghost s: nat)
    requires Block(cells[..]) && Allocated(cells[..], c, s) && 1 <= k < s / 8 && c + k < cells.Length
    modifies cells
    ensures Block(cells[..]) && cells[..] == old(cells[..])[c + k := v]
    ensures forall q: nat, t: nat :: Allocated(cells[..], q, t) <==> Allocated(old(cells[..]), q, t)
  {
    ghost var was := cells[..];
    if Walks(was, 1, c + k) {
      ChunksApart(was, c, c + k);
    }
    cells[c + k] := v;
    forall q: nat, t: nat ensures Block(cells[..]) && (Allocated(cells[..], q, t) <==> Allocated(was, q, t)) {
      OffWalkBlock(was, c + k, v, q, t);
    }
    OffWalkBlock(was, c + k, v, 0, 0);
  }

  // ----- giving a chunk back -----

  function Release(cells: seq<Cell>, c: nat): (r: seq<Cell>)
    requires c < |cells|
    ensures |r| == |cells|
  {
    cells[c := cells[c].(size := Mask(cells[c].size))]
  }

  lemma ReleaseTiled(cells: seq<Cell>, c: nat, pred: nat)
    requires Tiled(cells, c, pred) && c < |cells| - 1
    ensures Tiled(Release(cells, c), c, pred) && Next(Release(cells, c), c) == Next(cells, c) && !InUse(Release(cells, c)[c])
  {
    MaskFlag(Mask(cells[c].size));
    TiledSame(cells, Release(cells, c), Next(cells, c), Mask(cells[c].size));
  }

  lemma ReleaseChunk(was: seq<Cell>, c: nat, q: nat)
    requires Block(was) && Walks(was, 1, c) && c < |was| - 1 && q != c
    ensures SameChunk(was, Release(was, c), q)
  {
    var now := Release(was, c);
    WalkTiled(was, 1, 0, c);
    ReleaseTiled(was, c, Before(was, 1, 0, c));
    Rejoin(was, now, c, q);
    WalkSplits(was, 1, 0, c, q);
    WalkAfter(was, now, Next(was, c), q);
  }

  lemma ReleaseBlock(was: seq<Cell>, c: nat)
    requires Block(was) && Walks(was, 1, c) && c < |was| - 1
    ensures Block(Release(was, c)) && Walks(Release(was, c), 1, c) && !InUse(Release(was, c)[c])
    ensures Next(Release(was, c), c) == Next(was, c)
  {
    WalkTiled(was, 1, 0, c);
    ReleaseTiled(was, c, Before(was, 1, 0, c));
    Rejoin(was, Release(was, c), c, c);
  }

  /** Of the allocated chunks exactly the one at c is gone. */
  ghost predicate Freed(was: seq<Cell>, now: seq<Cell>, c: nat)
  {
    && Block(now) && |now| == |was|
    && forall q: nat, t: nat {:trigger Allocated(now, q, t)} :: Allocated(now, q, t) <==> q != c && Allocated(was, q, t)
  }

  /** The chunk at c is on the walk and free, or has become part of the one before it. */
  ghost predicate FreeAt(cells: seq<Cell>, c: nat)
  {
    Block(cells) && Walks(cells, 1, c) && c < |cells| - 1 && !InUse(cells[c])
  }

  /** The free chunk at c with the one behind it, if that is free too. */
  function Forward(cells: seq<Cell>, c: nat): (r: seq<Cell>)
    requires c < |cells|
    ensures |r| == |cells|
  {
    var n := Next(cells, c);
    if n >= |cells| || InUse(cells[n]) then cells
    else cells[c := cells[c].(size := (cells[c].size + cells[n].size) % WORD)]
  }

  /** The cell that the backward size of c leads to. */
  function Back(cells: seq<Cell>, c: nat): int
    requires c < |cells|
  {
    c - cells[c].prev / 8
  }

  /** The free chunk at c joined to whatever its backward size leads to. */
  function Backward(cells: seq<Cell>, c: nat): (r: seq<Cell>)
    requires c < |cells|
    ensures |r| == |cells|
  {
    var p := Back(cells, c);
    if cells[c].prev == 0 || p < 0 || InUse(cells[p]) then cells
    else cells[p := cells[p].(size := (cells[p].size + cells[c].size) % WORD)]
  }

  /** The block after the chunk at c has been freed. */
  function FreeCells(cells: seq<Cell>, c: nat): (r: seq<Cell>)
    requires c < |cells|
    ensures |r| == |cells|
  {
    Backward(Forward(Release(cells, c), c), c)
  }

  /** Clearing the flag. */
  method ClearFlag(cells: array<Cell>, c: nat, ghost s: nat)
    requires Block(cells[..]) && Allocated(cells[..], c, s)
    modifies cells
    ensures Freed(old(cells[..]), cells[..], c) && FreeAt(cells[..], c)
    ensures cells[..] == Release(old(cells[..]), c)
  {
    ghost var was := cells[..];
    ReleaseBlock(was, c);
    cells[c] := cells[c].(size := Mask(cells[c].size));
    forall q: nat, t: nat {:trigger Allocated(cells[..], q, t)} ensures Allocated(cells[..], q, t) <==> q != c && Allocated(was, q, t) {
      if q != c {
        ReleaseChunk(was, c, q);
        SameAllocated(was, cells[..], q, t);
      }
    }
  }

  /** Joining the free chunk behind the free chunk at c: one size field changes. */
  method JoinForward(cells: array<Cell>, c: nat)
    requires FreeAt(cells[..], c)
    modifies cells
    ensures FreeAt(cells[..], c) && cells.Length == |old(cells[..])|
    ensures cells[..] == Forward(old(cells[..]), c)
    ensures forall q: nat, t: nat :: Allocated(cells[..], q, t) <==> Allocated(old(cells[..]), q, t)
  {
    hide Joinable, Block, Walks, Join, Forward;
    ghost var was := cells[..];
    ForwardStep(was, c);
    FreeSize(was, c);
    var nxt := c + cells[c].size / 8;
    if !InUse(cells[nxt]) {
      cells[c] := cells[c].(size := cells[c].size + cells[nxt].size);
    }
  }

  /** Joining forward on values: a free chunk stays free, no sum overflows, and the
      allocated chunks are the same. */
  lemma ForwardStep(was: seq<Cell>, c: nat)
    requires FreeAt(was, c)
    ensures Next(was, c) < |was| && FreeAt(Forward(was, c), c)
    ensures !InUse(was[Next(was, c)]) ==> was[c].size + was[Next(was, c)].size < WORD
    ensures Forward(was, c) == if InUse(was[Next(was, c)]) then was
                               else was[c := was[c].(size := was[c].size + was[Next(was, c)].size)]
    ensures forall q: nat, t: nat :: Allocated(Forward(was, c), q, t) <==> Allocated(was, q, t)
  {
    hide Block, Walks;
    FreeSize(was, c);
    if !InUse(was[Next(was, c)]) {
      JoinSizes(was, c);
      JoinBlock(was, c);
      assert Forward(was, c) == Join(was, c);
      forall q: nat, t: nat ensures Allocated(Join(was, c), q, t) <==> Allocated(was, q, t) {
        if q != c {
          JoinChunk(was, c, q, t);
        }
      }
    }
  }

  /** Joining the free chunk at c to what its backward size leads to. That may be inside
      the chunk before it; then a cell of that chunk changes and nothing is joined. */
  method JoinBackward(cells: array<Cell>, c: nat)
    requires FreeAt(cells[..], c)
    modifies cells
    ensures Block(cells[..]) && cells.Length == |old(cells[..])|
    ensures cells[..] == Backward(old(cells[..]), c)
    ensures forall q: nat, t: nat :: Allocated(cells[..], q, t) <==> Allocated(old(cells[..]), q, t)
  {
    hide Tiled, Walks;
    if cells[c].prev == 0 {
      return;
    }
    ghost var was := cells[..];
    ghost var h := HeaderBefore(was, c);
    var p := c - cells[c].prev / 8;
    if !InUse(cells[p]) {
      cells[p] := cells[p].(size := (cells[p].size + cells[c].size) % WORD);
      forall q: nat, t: nat ensures Block(cells[..]) && (Allocated(cells[..], q, t) <==> Allocated(was, q, t)) {
        if p == h {
          JoinBlock(was, h);
          if q != h {
            JoinChunk(was, h, q, t);
          } else {
            JoinSizes(was, h);
          }
        } else {
          OffWalkBlock(was, p, cells[p], q, t);
        }
      }
      assert Allocated(cells[..], 0, 0) <==> Allocated(was, 0, 0);
    }
  }

  /** The true header before c; the backward size leads to it or into its chunk. */
  lemma HeaderBefore(cells: seq<Cell>, c: nat) returns (h: nat)
    requires Block(cells) && Walks(cells, 1, c) && c < |cells| - 1 && cells[c].prev != 0
    ensures 1 <= h < c && Walks(cells, 1, h) && Next(cells, h) == c
    ensures h <= Back(cells, c) < c
    ensures Back(cells, c) != h ==> !Walks(cells, 1, Back(cells, c))
  {
    h := PredHeader(cells, 1, 0, c);
    WalkTiled(cells, 1, 0, c);
    var p := c - cells[c].prev / 8;
    if p != h && Walks(cells, 1, p) {
      ChunksApart(cells, h, p);
    }
  }

  lemma {:induction false} PredHeader(cells: seq<Cell>, from: nat, pred: nat, c: nat) returns (h: nat)
    requires Tiled(cells, from, pred) && Walks(cells, from, c) && c != from
    ensures from <= h < c && h < |cells| && Walks(cells, from, h) && Next(cells, h) == c
    ensures Mask(cells[h].size) == Before(cells, from, pred, c)
    decreases |cells| - from
  {
    var n := Next(cells, from);
    if n == c {
      h := from;
    } else {
      h := PredHeader(cells, n, Mask(cells[from].size), c);
    }
  }

  // ----- what freeing does to other payloads -----

  /** No byte of a live payload other than that of c has changed. */
  ghost predicate PayloadsKept(was: seq<Cell>, now: seq<Cell>, c: nat)
  {
    forall q: nat, t: nat {:trigger Allocated(was, q, t)} :: q != c && Allocated(was, q, t) ==> Agree(was, now, q + 1, q + t / 8)
  }

  /** The chunk before c is in use, and the backward size of c leads to a word inside it
      whose low bit is clear, which looks like the size of a free chunk. */
  ghost predicate Strays(cells: seq<Cell>, c: nat)
  {
    && c < |cells| && cells[c].prev != 0
    && 0 <= Back(cells, c) && !InUse(cells[Back(cells, c)])
    && exists h: nat :: UsedBefore(cells, h, c)
  }

  ghost predicate UsedBefore(cells: seq<Cell>, h: nat, c: nat)
  {
    Walks(cells, 1, h) && h < c < |cells| && InUse(cells[h]) && Next(cells, h) == c
  }

  /** The steps of freeing, as far as they matter for what is changed backward. */
  lemma FreeSteps(was: seq<Cell>, c: nat, s: nat)
    requires Block(was) && Allocated(was, c, s)
    ensures var mid := Forward(Release(was, c), c);
            && FreeAt(mid, c) && 0 < mid[c].size < WORD && mid == was[c := was[c].(size := mid[c].size)]
  {
    hide Block, Walks, Forward;
    ReleaseBlock(was, c);
    var x := Release(was, c);
    ForwardStep(x, c);
    FreeSize(Forward(x, c), c);
  }

  /** Besides the header of c at most one cell changes, and it does change. */
  lemma FreeEffect(was: seq<Cell>, c: nat, s: nat, i: nat)
    requires Block(was) && Allocated(was, c, s) && i < |was| && i != c
    ensures FreeCells(was, c)[i] == was[i] <==> !(was[c].prev != 0 && i == Back(was, c) && !InUse(was[i]))
  {
    FreeSteps(was, c, s);
    var mid := Forward(Release(was, c), c);
    if i == Back(was, c) {
      AddChanges(was[i].size, mid[c].size);
    }
  }

  lemma AddChanges(a: u32, b: u32)
    requires b > 0
    ensures (a + b) % WORD != a
  {
  }

  /** Freeing leaves every other live payload as it is exactly when the backward size does
      not stray into one. */
  lemma FreeKeeps(was: seq<Cell>, c: nat, s: nat)
    requires Block(was) && Allocated(was, c, s)
    ensures PayloadsKept(was, FreeCells(was, c), c) <==> !Strays(was, c)
  {
    if was[c].prev != 0 {
      var h := HeaderBefore(was, c);
      if Strays(was, c) {
        StrayChanges(was, c, s, h);
      } else {
        assert !InUse(was[Back(was, c)]) ==> !UsedBefore(was, h, c);
        NoStray(was, c, s, h);
      }
    } else {
      NoChange(was, c, s);
    }
  }

  lemma StrayChanges(was: seq<Cell>, c: nat, s: nat, h: nat)
    requires Block(was) && Allocated(was, c, s) && Strays(was, c)
    requires 1 <= h < c && Walks(was, 1, h) && Next(was, h) == c && h <= Back(was, c) < c
    ensures InUse(was[h]) && Allocated(was, h, Mask(was[h].size)) && h < Back(was, c) < h + Mask(was[h].size) / 8
    ensures !PayloadsKept(was, FreeCells(was, c), c)
  {
    var u: nat :| UsedBefore(was, u, c);
    if h < u {
      ChunksApart(was, h, u);
    } else if u < h {
      ChunksApart(was, u, h);
    }
    var b: nat := Back(was, c);
    FreeSize(was, h);
    FreeEffect(was, c, s, b);
    assert FreeCells(was, c)[b] != was[b];
    assert Allocated(was, h, Mask(was[h].size));
  }

  lemma NoStray(was: seq<Cell>, c: nat, s: nat, h: nat)
    requires Block(was) && Allocated(was, c, s) && 1 <= h < c && Walks(was, 1, h) && Next(was, h) == c
    requires h <= Back(was, c) < c && (InUse(was[Back(was, c)]) || !InUse(was[h]))
    ensures PayloadsKept(was, FreeCells(was, c), c)
  {
    forall q: nat, t: nat {:trigger Allocated(was, q, t)} | q != c && Allocated(was, q, t)
      ensures Agree(was, FreeCells(was, c), q + 1, q + t / 8)
    {
      FreeSize(was, q);
      forall i | q + 1 <= i < q + t / 8 ensures FreeCells(was, c)[i] == was[i] {
        PayloadCell(was, c, q, t, i);
        if i == Back(was, c) && !InUse(was[i]) {
          PayloadCell(was, h, q, t, i);
          if q < h {
            ChunksApart(was, q, h);
          } else {
            ChunksApart(was, h, q);
          }
        }
        FreeEffect(was, c, s, i);
      }
    }
  }

  lemma NoChange(was: seq<Cell>, c: nat, s: nat)
    requires Block(was) && Allocated(was, c, s) && was[c].prev == 0
    ensures PayloadsKept(was, FreeCells(was, c), c)
  {
    forall q: nat, t: nat {:trigger Allocated(was, q, t)} | q != c && Allocated(was, q, t)
      ensures Agree(was, FreeCells(was, c), q + 1, q + t / 8)
    {
      FreeSize(was, q);
      forall i | q + 1 <= i < q + t / 8 ensures FreeCells(was, c)[i] == was[i] {
        PayloadCell(was, c, q, t, i);
        FreeEffect(was, c, s, i);
      }
    }
  }

  /** A cell of a payload is no header. */
  lemma PayloadCell(cells: seq<Cell>, c: nat, q: nat, t: nat, i: nat)
    requires Block(cells) && Allocated(cells, q, t) && q < i < q + t / 8 && Walks(cells, 1, c)
    ensures i != c
  {
    if q < c {
      ChunksApart(cells, q, c);
    }
  }

  /** Frees the chunk at c. */
  method FreeChunk(cells: array<Cell>, c: nat, ghost s: nat)
    requires Block(cells[..]) && Allocated(cells[..], c, s)
    modifies cells
    ensures Freed(old(cells[..]), cells[..], c)
    ensures cells[..] == FreeCells(old(cells[..]), c)
    ensures PayloadsKept(old(cells[..]), cells[..], c) <==> !Strays(old(cells[..]), c)
  {
    FreeKeeps(cells[..], c, s);
    ClearFlag(cells, c, s);
    JoinForward(cells, c);
    JoinBackward(cells, c);
  }

  // ----- resizing a chunk in place -----

  /** The chunk at c now has s bytes: the block is well formed, the other allocated chunks
      are as they were, byte for byte, and what the chunk keeps of its payload too. */
  ghost predicate Resized(was: seq<Cell>, now: seq<Cell>, c: nat, before: nat, s: nat)
  {
    && Taken(was, now, c, s)
    && Agree(was, now, c + 1, c + (if before < s then before else s) / 8)
  }

  lemma CutResizes(was: seq<Cell>, c: nat, whole: u32, size: u32)
    requires Block(was) && Allocated(was, c, whole) && 8 <= size < whole && size % 8 == 0
    ensures c + whole / 8 < |was| && Resized(was, Cut(was, c, whole, size), c, whole, size)
  {
    CutBlock(was, c, whole, size);
  }

  /** The chunk joined with the free one behind it, the next backward size put right. */
  function Grown(cells: seq<Cell>, c: nat): (r: seq<Cell>)
    requires Joinable(cells, c)
    ensures |r| == |cells|
  {
    JoinSizes(cells, c);
    var n := Next(cells, c);
    var sum := Mask(cells[c].size) + cells[n].size;
    Join(cells, c)[Next(cells, n) := cells[Next(cells, n)].(prev := sum)]
  }

  lemma JoinTaken(was: seq<Cell>, c: nat, s: nat)
    requires Joinable(was, c) && Allocated(was, c, s)
    ensures was[c].size + was[Next(was, c)].size < WORD
    ensures Taken(was, Join(was, c), c, s + was[Next(was, c)].size) && Agree(was, Join(was, c), c + 1, |was|)
  {
    JoinSizes(was, c);
    JoinBlock(was, c);
    var now := Join(was, c);
    forall q: nat, t: nat {:trigger Allocated(now, q, t)} | q != c ensures Allocated(now, q, t) <==> Allocated(was, q, t) {
      JoinChunk(was, c, q, t);
    }
    forall q: nat, t: nat {:trigger Allocated(was, q, t)} | q != c && Allocated(was, q, t) ensures Agree(was, now, q + 1, q + t / 8) {
      PayloadKept(was, now, c, Next(was, c), q, t);
    }
  }

  /** A header's backward size may be set to the size of the chunk before it. */
  lemma SetPrevTiled(was: seq<Cell>, c: nat, n: nat, v: u32)
    requires Block(was) && Walks(was, 1, c) && c < |was| - 1 && n == Next(was, c) && v == Mask(was[c].size)
    ensures 1 < n < |was| && Tiled(was[n := was[n].(prev := v)], c, Before(was, 1, 0, c))
  {
    hide Mask;
    MaskEights(was[c].size);
    FreeSize(was, c);
    WalkTiled(was, 1, 0, c);
    var now := was[n := was[n].(prev := v)];
    TiledAgain(was, now, n, v, v);
  }

  lemma SetPrev(was: seq<Cell>, c: nat, n: nat, v: u32, q: nat)
    requires Block(was) && Walks(was, 1, c) && c < |was| - 1 && n == Next(was, c) && v == Mask(was[c].size)
    ensures n < |was| && Block(was[n := was[n].(prev := v)]) && SameChunk(was, was[n := was[n].(prev := v)], q)
  {
    SetPrevTiled(was, c, n, v);
    var now := was[n := was[n].(prev := v)];
    FreeSize(was, c);
    TiledJoin(was, now, 1, 0, c);
    WalkAfter(was, now, 1, q);
  }

  /** When only headers change, no payload does. */
  lemma HeadersOnly(was: seq<Cell>, now: seq<Cell>, q: nat, t: nat)
    requires Block(was) && |was| == |now| && Allocated(was, q, t)
    requires forall k: nat {:trigger now[k]} :: k < |was| && now[k] != was[k] ==> Walks(was, 1, k)
    ensures Agree(was, now, q + 1, q + t / 8)
  {
    WalkTiled(was, 1, 0, q);
    forall k | q + 1 <= k < q + t / 8 ensures now[k] == was[k] {
      if now[k] != was[k] {
        ChunksApart(was, q, k);
      }
    }
  }

  lemma GrownTaken(was: seq<Cell>, c: nat, s: nat)
    requires Joinable(was, c) && Allocated(was, c, s)
    ensures Resized(was, Grown(was, c), c, s, s + was[Next(was, c)].size)
  {
    JoinSizes(was, c);
    JoinTaken(was, c, s);
    var mid, now, n := Join(was, c), Grown(was, c), Next(was, c);
    var e, sum := Next(was, n), s + was[n].size;
    FreeSize(was, n);
    StepOn(was, 1, n);
    forall q: nat, t: nat {:trigger Allocated(now, q, t)} ensures Block(now) && (Allocated(now, q, t) <==> Allocated(mid, q, t)) {
      SetPrev(mid, c, e, sum, q);
      SameAllocated(mid, now, q, t);
    }
    assert Allocated(now, c, sum) <==> Allocated(mid, c, sum);
    forall q: nat, t: nat {:trigger Allocated(was, q, t)} | Allocated(was, q, t) ensures Agree(was, now, q + 1, q + t / 8) {
      HeadersOnly(was, now, q, t);
    }
  }

  lemma TakenTrans(a: seq<Cell>, b: seq<Cell>, d: seq<Cell>, c: nat, s: nat, t: nat)
    requires Taken(a, b, c, s) && Taken(b, d, c, t)
    ensures Taken(a, d, c, t)
  {
    forall q: nat, u: nat {:trigger Allocated(a, q, u)} | q != c && Allocated(a, q, u) ensures Agree(a, d, q + 1, q + u / 8) {
      assert Allocated(b, q, u);
    }
    forall q: nat, u: nat {:trigger Allocated(d, q, u)} | q != c ensures Allocated(d, q, u) <==> Allocated(a, q, u) {
      assert Allocated(b, q, u) <==> Allocated(a, q, u);
    }
  }

  function Regrown(cells: seq<Cell>, c: nat, size: u32): (r: seq<Cell>)
    requires Joinable(cells, c) && size % 8 == 0
    requires 8 <= size < Mask(cells[c].size) + cells[Next(cells, c)].size
    ensures |r| == |cells|
  {
    JoinSizes(cells, c);
    var n := Next(cells, c);
    var sum := Mask(cells[c].size) + cells[n].size;
    Cut(Join(cells, c), c, sum, size)
  }

  /** The chunk joined with the free one behind it and cut again. */
  lemma RegrownTaken(was: seq<Cell>, c: nat, s: nat, size: u32)
    requires Joinable(was, c) && Allocated(was, c, s) && size % 8 == 0
    requires 8 <= s <= size < s + was[Next(was, c)].size < WORD
    ensures Resized(was, Regrown(was, c, size), c, s, size)
  {
    hide Cut, SameChunk;
    JoinSizes(was, c);
    JoinTaken(was, c, s);
    var mid, sum := Join(was, c), s + was[Next(was, c)].size;
    CutBlock(mid, c, sum, size);
    TakenTrans(was, mid, Cut(mid, c, sum, size), c, sum, size);
    CutKeeps(mid, c, sum, size, s);
  }

  lemma CutKeeps(cells: seq<Cell>, c: nat, whole: u32, size: u32, s: nat)
    requires c + whole / 8 < |cells| && 8 <= s <= size < whole && size % 8 == 0 && whole % 8 == 0
    ensures Agree(cells, Cut(cells, c, whole, size), c + 1, c + s / 8)
  {
  }

  /** The chunk at c, of s bytes, can be made to hold size bytes where it is: it is cut, or
      the free chunk behind it has room; a chunk of a whole page stays as it is. */
  predicate FitsInPlace(cells: seq<Cell>, c: nat, s: nat, size: nat)
  {
    || (s < PAGE_SIZE && size < PAGE_SIZE &&
        (size < s || (c + s / 8 < |cells| && !InUse(cells[c + s / 8]) && size <= s + cells[c + s / 8].size)))
    || (s == PAGE_SIZE && size == PAGE_SIZE)
  }

  /** Tries to make the chunk at c, of s bytes, hold size bytes where it is: by cutting off
      the end, or by taking in the free chunk behind it. */
  method ResizeAt(cells: array<Cell>, c: nat, size: u32, ghost s: nat) returns (done: bool)
    requires Block(cells[..]) && Allocated(cells[..], c, s) && s <= PAGE_SIZE && 8 <= size && size % 8 == 0
    modifies cells
    ensures !done ==> cells[..] == old(cells[..])
    ensures done ==> size <= PAGE_SIZE && Resized(old(cells[..]), cells[..], c, s, size)
    ensures done <==> FitsInPlace(old(cells[..]), c, s, size)
  {
    hide Resized, Taken;
    ghost var was := cells[..];
    FreeSize(was, c);
    var csize := Mask(cells[c].size);
    if csize < PAGE_SIZE && size < PAGE_SIZE {
      var nc := c + csize / 8;
      if size < csize {
        CutResizes(was, c, csize, size);
        CutAt(cells, c, csize, size);
        return true;
      } else if !InUse(cells[nc]) {
        done := TakeIn(cells, c, csize, size, s);
        return;
      }
    } else if cells[c].size >= PAGE_SIZE && size >= PAGE_SIZE {
      if size < cells[c].size {
        KeepAsIs(was, c, s);
        return true;
      }
    }
    return false;
  }

  lemma KeepAsIs(was: seq<Cell>, c: nat, s: nat)
    requires Block(was) && Allocated(was, c, s)
    ensures Resized(was, was, c, s, s)
  {
    FreeSize(was, c);
    forall q: nat, t: nat {:trigger Allocated(was, q, t)} | Allocated(was, q, t) ensures Agree(was, was, q + 1, q + t / 8) {
      HeadersOnly(was, was, q, t);
    }
  }

  /** The cut of a chunk that stays in use. */
  method CutAt(cells: array<Cell>, c: nat, csize: u32, size: u32)
    requires c + csize / 8 < cells.Length && 8 <= size < csize && size % 8 == 0 && csize % 8 == 0
    modifies cells
    ensures cells[..] == Cut(old(cells[..]), c, csize, size)
  {
    var mc, nc := c + size / 8, c + csize / 8;
    cells[mc] := Cell(size, csize - size);
    cells[c] := cells[c].(size := size + 1);
    cells[nc] := cells[nc].(prev := cells[mc].size);
  }

  /** Takes in the free chunk behind, if both together have room. */
  method TakeIn(cells: array<Cell>, c: nat, csize: u32, size: u32, ghost s: nat) returns (done: bool)
    requires Block(cells[..]) && Allocated(cells[..], c, s) && csize == s <= size < PAGE_SIZE && size % 8 == 0
    requires Joinable(cells[..], c)
    modifies cells
    ensures !done ==> cells[..] == old(cells[..])
    ensures done ==> Resized(old(cells[..]), cells[..], c, s, size)
    ensures done <==> size <= s + old(cells[..])[Next(old(cells[..]), c)].size
  {
    hide Taken, Joinable, Block, Regrown, Grown;
    ghost var was := cells[..];
    FreeSize(was, c);
    JoinSizes(was, c);
    var sz := csize + cells[c + csize / 8].size;
    if sz < size {
      return false;
    }
    if size == sz {
      GrownTaken(was, c, s);
      GrowExact(cells, c, csize);
    } else {
      RegrownTaken(was, c, s, size);
      GrowCut(cells, c, csize, size);
    }
    return true;
  }

  /** Both chunks together are just right. */
  method GrowExact(cells: array<Cell>, c: nat, csize: u32)
    requires Joinable(cells[..], c) && InUse(cells[c]) && csize == Mask(cells[c].size)
    modifies cells
    ensures cells[..] == Grown(old(cells[..]), c)
  {
    hide Block, Walks;
    ghost var was := cells[..];
    JoinSizes(was, c);
    ChunkRoom(was, c);
    var nc := c + csize / 8;
    var sz := csize + cells[nc].size;
    var c3 := nc + cells[nc].size / 8;
    cells[c3] := cells[c3].(prev := sz);
    cells[c] := cells[c].(size := sz + 1);
  }

  /** What joining and cutting again come to, cell by cell. */
  lemma RegrownCells(was: seq<Cell>, c: nat, size: u32)
    requires Joinable(was, c) && size % 8 == 0 && Mask(was[c].size) <= size
    requires 8 <= size < Mask(was[c].size) + was[Next(was, c)].size
    ensures var nc := Next(was, c);
            && c < nc < |was| && c < c + size / 8 < nc + was[nc].size / 8 < |was| && Mask(was[c].size) + was[nc].size < WORD
            && var rest := Mask(was[c].size) + was[nc].size - size;
               var n := nc + was[nc].size / 8;
               Regrown(was, c, size) == was[c + size / 8 := Cell(size, rest)][n := was[n].(prev := rest)][c := was[c].(size := size + 1)]
  {
    hide Joinable;
    JoinSizes(was, c);
    var nc := Next(was, c);
    var sum := Mask(was[c].size) + was[nc].size;
    assert c + sum / 8 == nc + was[nc].size / 8;
  }

  /** There is room to spare, which becomes a free chunk. */
  method GrowCut(cells: array<Cell>, c: nat, csize: u32, size: u32)
    requires Joinable(cells[..], c) && csize == Mask(cells[c].size) && csize <= size && size % 8 == 0
    requires 8 <= size < csize + cells[Next(cells[..], c)].size
    modifies cells
    ensures cells[..] == Regrown(old(cells[..]), c, size)
  {
    hide Regrown, Block, Walks;
    RegrownCells(cells[..], c, size);
    var nc := c + csize / 8;
    var sz := csize + cells[nc].size;
    var c3, mc := nc + cells[nc].size / 8, c + size / 8;
    cells[mc] := Cell(size, sz - size);
    cells[c3] := cells[c3].(prev := cells[mc].size);
    cells[c] := cells[c].(size := size + 1);
  }
}
