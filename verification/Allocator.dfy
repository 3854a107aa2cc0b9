/** The allocator: small requests from the blocks, first fit in block order, large ones
    from the page allocator. */
module Allocator {
  import opened Heap
  import opened Stray

  /** Where a payload is: behind the header at cell c of block b, or behind the header of
      a page allocation. */
  datatype Ptr = Null | Small(b: nat, c: nat) | Page(id: nat)

  const PAGE_MASK := PAGE_SIZE - 1

  // ----- new blocks -----

  /** The block after its first chunk, of s bytes, has been taken: unlike later ones it leaves
      the end header as it was. */
  function FirstCells(s: u32): (r: seq<Cell>)
    requires 8 <= s <= PAGE_SIZE && s % 8 == 0
    ensures |r| == CELLS
  {
    Fresh()[1 := Cell(0, s + 1)][1 + s / 8 := Cell(s, BLOCK_SIZE - 16 - s)]
  }

  /** The backward size in the end header may be anything. */
  lemma EndPrev(was: seq<Cell>, v: u32, q: nat)
    requires Block(was)
    ensures var now := was[|was| - 1 := was[|was| - 1].(prev := v)]; Block(now) && SameChunk(was, now, q)
  {
    var now := was[|was| - 1 := was[|was| - 1].(prev := v)];
    EndTiled(was, now, 1, 0);
    WalkAfter(was, now, 1, q);
  }

  lemma {:induction false} EndTiled(was: seq<Cell>, now: seq<Cell>, c: nat, pred: nat)
    requires Tiled(was, c, pred) && Agree(was, now, c, |was| - 1) && now[|was| - 1].size == was[|was| - 1].size
    ensures Tiled(now, c, pred)
    decreases |was| - c
  {
    if c < |was| - 1 {
      EndTiled(was, now, Next(was, c), Mask(was[c].size));
    }
  }

  /** A block as it comes from the page allocator: one free chunk. */
  method BlockInit() returns (cells: array<Cell>)
    ensures fresh(cells) && cells[..] == Fresh() && Block(cells[..])
    ensures forall q: nat, t: nat :: !Allocated(cells[..], q, t)
  {
    cells := new Cell[CELLS](_ => Cell(0, 0));
    cells[1] := Cell(0, BLOCK_SIZE - 16);
    cells[0] := Cell(0, BLOCK_SIZE);
    cells[CELLS - 1] := Cell(BLOCK_SIZE - 16, END_SIZE);
    assert Next(cells[..], 1) == CELLS - 1;
    assert Tiled(cells[..], CELLS - 1, BLOCK_SIZE - 16);
    forall q: nat, t: nat ensures !Allocated(cells[..], q, t) {
      WalkForward(cells[..], CELLS - 1, q);
    }
  }

  /** The first chunk of a new block. The end header keeps its backward size. */
  method FirstChunk(cells: array<Cell>, size: u32)
    requires cells[..] == Fresh() && Block(cells[..]) && 8 <= size <= PAGE_SIZE && size % 8 == 0
    modifies cells
    ensures Taken(old(cells[..]), cells[..], 1, size) && cells[..] == FirstCells(size)
  {
    ghost var was := cells[..];
    MaskFlag(BLOCK_SIZE - 16);
    CutBlock(was, 1, BLOCK_SIZE - 16, size);
    ghost var mid := Cut(was, 1, BLOCK_SIZE - 16, size);
    var pc := 1 + size / 8;
    cells[pc] := Cell(size, cells[1].size - size);
    cells[1] := cells[1].(size := size + 1);
    assert cells[..] == mid[CELLS - 1 := mid[CELLS - 1].(prev := was[CELLS - 1].prev)];
    EndTaken(was, mid, cells[..], 1, size, was[CELLS - 1].prev);
  }

  lemma EndTaken(was: seq<Cell>, mid: seq<Cell>, now: seq<Cell>, c: nat, s: nat, v: u32)
    requires Block(was) && Taken(was, mid, c, s) && now == mid[|mid| - 1 := mid[|mid| - 1].(prev := v)]
    ensures Taken(was, now, c, s)
  {
    forall q: nat, t: nat {:trigger Allocated(now, q, t)} ensures Block(now) && (Allocated(now, q, t) <==> Allocated(mid, q, t)) {
      EndPrev(mid, v, q);
      SameAllocated(mid, now, q, t);
    }
    assert Allocated(now, c, s) <==> Allocated(mid, c, s);
    forall q: nat, t: nat {:trigger Allocated(was, q, t)} | q != c && Allocated(was, q, t) ensures Agree(was, now, q + 1, q + t / 8) {
      assert Agree(was, mid, q + 1, q + t / 8);
      FreeSize(was, q);
    }
  }

  /** Every allocated chunk of a block is small. */
  ghost predicate SmallOnly(cells: seq<Cell>)
  {
    forall q: nat, t: nat {:trigger Allocated(cells, q, t)} :: Allocated(cells, q, t) ==> 8 <= t <= PAGE_SIZE
  }

  lemma TakenSmall(was: seq<Cell>, now: seq<Cell>, c: nat, s: nat)
    requires SmallOnly(was) && Taken(was, now, c, s) && 8 <= s <= PAGE_SIZE
    ensures SmallOnly(now)
  {
    forall q: nat, t: nat {:trigger Allocated(now, q, t)} | Allocated(now, q, t) ensures 8 <= t <= PAGE_SIZE {
      if q != c {
        assert Allocated(was, q, t);
      }
    }
  }

  lemma FreedSmall(was: seq<Cell>, now: seq<Cell>, c: nat)
    requires SmallOnly(was) && Freed(was, now, c)
    ensures SmallOnly(now)
  {
    forall q: nat, t: nat {:trigger Allocated(now, q, t)} | Allocated(now, q, t) ensures 8 <= t <= PAGE_SIZE {
      assert Allocated(was, q, t);
    }
  }

  /** In a heap with these blocks and page allocations, p points to a live payload whose
      chunk has s bytes with the header. */
  ghost predicate LiveIn(blocks: seq<seq<Cell>>, pages: map<nat, u32>, p: Ptr, s: nat)
  {
    match p
    case Null => false
    case Small(b, c) => b < |blocks| && Allocated(blocks[b], c, s)
    case Page(id) => id in pages && pages[id] == s
  }

  /** The bytes of a payload in a block are the same. */
  ghost predicate SameBytes(was: seq<seq<Cell>>, now: seq<seq<Cell>>, p: Ptr, s: nat)
  {
    p.Small? ==> p.b < |was| && p.b < |now| && Agree(was[p.b], now[p.b], p.c + 1, p.c + s / 8)
  }

  /** Apart from p the same payloads are live, and their bytes are the same. */
  ghost predicate Undisturbed(was: seq<seq<Cell>>, wasPages: map<nat, u32>, now: seq<seq<Cell>>, nowPages: map<nat, u32>, p: Ptr)
  {
    && (forall q: Ptr, s: nat :: q != p ==> (LiveIn(now, nowPages, q, s) <==> LiveIn(was, wasPages, q, s)))
    && (forall q: Ptr, s: nat :: q != p && LiveIn(was, wasPages, q, s) ==> SameBytes(was, now, q, s))
  }

  /** Two live payloads of a block do not overlap. */
  lemma LiveApart(blocks: seq<seq<Cell>>, pages: map<nat, u32>, p: Ptr, s: nat, q: Ptr, t: nat)
    requires forall i :: 0 <= i < |blocks| ==> Block(blocks[i])
    requires LiveIn(blocks, pages, p, s) && LiveIn(blocks, pages, q, t) && p != q && p.Small? && q.Small? && p.b == q.b
    ensures p.c + s / 8 <= q.c || q.c + t / 8 <= p.c
  {
    if p.c < q.c {
      ChunksApart(blocks[p.b], p.c, q.c);
    } else {
      ChunksApart(blocks[p.b], q.c, p.c);
    }
  }

  lemma TakenUndisturbed(was: seq<seq<Cell>>, now: seq<seq<Cell>>, pages: map<nat, u32>, b: nat, c: nat, s: nat)
    requires b < |was| == |now| && Taken(was[b], now[b], c, s)
    requires forall i :: 0 <= i < |was| ==> Block(was[i])
    requires forall i :: 0 <= i < |was| && i != b ==> now[i] == was[i]
    ensures Undisturbed(was, pages, now, pages, Small(b, c))
  {
    forall q: Ptr, t: nat | q != Small(b, c)
      ensures LiveIn(now, pages, q, t) <==> LiveIn(was, pages, q, t)
      ensures LiveIn(was, pages, q, t) ==> SameBytes(was, now, q, t)
    {
      if q.Small? && q.b < |was| {
        assert q.b == b ==> (Allocated(now[b], q.c, t) <==> Allocated(was[b], q.c, t));
        if q.b != b && LiveIn(was, pages, q, t) {
          FreeSize(was[q.b], q.c);
        }
      }
    }
  }

  lemma AddedUndisturbed(was: seq<seq<Cell>>, now: seq<seq<Cell>>, pages: map<nat, u32>, s: nat)
    requires |now| == |was| + 1 && (forall i :: 0 <= i < |was| ==> now[i] == was[i] && Block(was[i]))
    requires forall q: nat, t: nat :: Allocated(now[|was|], q, t) <==> q == 1 && t == s
    ensures Undisturbed(was, pages, now, pages, Small(|was|, 1))
  {
    forall q: Ptr, t: nat | q != Small(|was|, 1)
      ensures LiveIn(now, pages, q, t) <==> LiveIn(was, pages, q, t)
      ensures LiveIn(was, pages, q, t) ==> SameBytes(was, now, q, t)
    {
      if q.Small? && q.b < |was| && LiveIn(was, pages, q, t) {
        FreeSize(was[q.b], q.c);
      }
    }
  }

  /** What a live payload holds, of a chunk of s bytes. Page allocations are in store. */
  ghost function Payload(blocks: seq<seq<Cell>>, store: map<nat, seq<Cell>>, p: Ptr, s: nat): seq<Cell>
  {
    match p
    case Null => []
    case Small(b, c) => if b < |blocks| && 1 <= s / 8 && c + s / 8 <= |blocks[b]| then blocks[b][c + 1..c + s / 8] else []
    case Page(id) => if id in store && 1 <= s / 8 <= |store[id]| then store[id][1..s / 8] else []
  }

  /** The words of a payload are copied into another chunk, one by one. */
  method CopyWords(src: array<Cell>, c: nat, dst: array<Cell>, d: nat, ghost s: nat, ghost t: nat)
    requires Block(dst[..]) && Allocated(dst[..], d, t) && 8 <= s <= t && s % 8 == 0 && t % 8 == 0 && d + t / 8 < dst.Length
    requires c + s / 8 < src.Length && src[c].size == s + 1
    requires src == dst ==> c + s / 8 <= d || d + t / 8 <= c
    modifies dst
    ensures Filled(old(dst[..]), dst[..], d, s - 8)
    ensures CopiedBytes(old(src[..]), dst[..], c, d, s)
  {
    ghost var was, into := src[..], dst[..];
    var n := src[c].size;
    var k := 1;
    while k < n / 8
      invariant 1 <= k <= s / 8 && Filled(into, dst[..], d, 8 * (k - 1))
      invariant forall i :: c <= i <= c + s / 8 && !(src == dst && i == d) ==> src[i] == was[i]
      invariant forall i {:trigger was[i]} :: c < i < c + k ==> dst[d + i - c] == was[i]
    {
      assert Allocated(dst[..], d, t);
      UserWrite(dst, d, k, src[c + k], t);
      k := k + 1;
    }
  }

  /** Copies a payload into a larger one that does not meet it. The length is taken from
      the header with its flag, so one byte of the header behind is copied too. */
  method CopyCells(src: array<Cell>, c: nat, dst: array<Cell>, d: nat, ghost s: nat, ghost t: nat)
    requires Block(dst[..]) && Allocated(dst[..], d, t) && 8 <= s < t && s % 8 == 0 && t % 8 == 0 && d + t / 8 < dst.Length
    requires c + s / 8 < src.Length && src[c].size == s + 1
    requires src == dst ==> c + s / 8 <= d || d + t / 8 <= c
    modifies dst
    ensures Filled(old(dst[..]), dst[..], d, s)
    ensures CopiedBytes(old(src[..]), dst[..], c, d, s)
  {
    ghost var into := dst[..];
    CopyWords(src, c, dst, d, s, t);
    ghost var mid := dst[..];
    var k := src[c].size / 8;
    if src == dst {
      assert mid[c] == into[c];
    }
    var cell := dst[d + k];
    assert Allocated(mid, d, t);
    UserWrite(dst, d, k, cell.(prev := LowByte(cell.prev, src[c + k].prev)), t);
  }

  /** The words src stand behind the first cell. */
  function Spliced(dst: seq<Cell>, src: seq<Cell>): (r: seq<Cell>)
    requires 1 + |src| <= |dst|
    ensures |r| == |dst| && r[1..1 + |src|] == src
  {
    dst[..1] + src + dst[1 + |src|..]
  }

  /** One more byte is copied to cell k. */
  function WithByte(dst: seq<Cell>, k: nat, from: u32): (r: seq<Cell>)
    requires 1 <= k < |dst|
    ensures |r| == |dst| && r[1..k] == dst[1..k]
  {
    dst[k := dst[k].(prev := LowByte(dst[k].prev, from))]
  }

  /** A number with its low byte replaced by that of another. */
  function LowByte(n: u32, m: u32): (r: u32) { n - n % 256 + m % 256 }

  /** It is the one byte of the four. */
  lemma LowByteIs(n: u32, m: u32)
    ensures LowByte(n, m) % 256 == m % 256 && LowByte(n, m) / 256 == n / 256
  {
    var q, r := n / 256, m % 256;
    assert n == 256 * q + n % 256 && LowByte(n, m) == 256 * q + r;
  }

  /** Copying into a chunk of the same size: the last byte goes to the header behind. The
      block survives exactly when the backward size that this leaves there is acceptable. */
  method CopyEqual(src: array<Cell>, c: nat, dst: array<Cell>, d: nat, ghost s: nat)
    requires Block(dst[..]) && Allocated(dst[..], d, s) && 8 <= s && s % 8 == 0 && d + s / 8 < dst.Length
    requires c + s / 8 < src.Length && src[c].size == s + 1
    requires src == dst ==> c + s / 8 <= d || d + s / 8 <= c
    modifies dst
    ensures CopiedBytes(old(src[..]), dst[..], c, d, s)
    ensures dst[d + s / 8] == old(dst[d + s / 8]).(prev := LowByte(old(dst[d + s / 8].prev), old(src[c + s / 8].prev)))
    ensures Block(dst[..]) <==> d + s / 8 == dst.Length - 1 || (8 <= dst[d + s / 8].prev <= s && dst[d + s / 8].prev % 8 == 0)
  {
    ghost var was, into := src[..], dst[..];
    CopyWords(src, c, dst, d, s, s);
    ghost var mid := dst[..];
    var k := src[c].size / 8;
    assert mid[d + k] == into[d + k] && src[c + k] == was[c + k];
    var cell := dst[d + k];
    dst[d + k] := cell.(prev := LowByte(cell.prev, src[c + k].prev));
    BackDecides(mid, d, s, dst[d + k].prev);
    assert dst[..] == mid[d + k := mid[d + k].(prev := dst[d + k].prev)];
  }

  /** Where the two copies of the run are, the backward size becomes larger than the chunk
      before it, and the block is no longer well formed. */
  lemma EqualBreaks()
    ensures Block(PAIR7) && Allocated(PAIR7, 36, 264) && PAIR7[1].size == 265
    ensures var v := LowByte(PAIR7[69].prev, PAIR7[34].prev); v == 504 && !Block(PAIR7[69 := PAIR7[69].(prev := v)])
  {
    hide Block, Allocated, Took, Gave, Twins;
    TwinRun();
    BackDecides(PAIR7, 36, 264, 504);
  }

  /** The backward size behind a chunk matters unless the end header is there. */
  lemma BackDecides(was: seq<Cell>, d: nat, s: nat, v: u32)
    requires Block(was) && Allocated(was, d, s)
    ensures d + s / 8 < |was|
    ensures Block(was[d + s / 8 := was[d + s / 8].(prev := v)]) <==> d + s / 8 == |was| - 1 || (8 <= v <= s && v % 8 == 0)
  {
    FreeSize(was, d);
    WalkTiled(was, 1, 0, d);
    StepOn(was, 1, d);
    var n := d + s / 8;
    var now := was[n := was[n].(prev := v)];
    if n == |was| - 1 {
      EndPrev(was, v, 1);
    } else {
      WalkTiled(was, 1, 0, n);
      if 8 <= v <= s && v % 8 == 0 {
        TiledAgain(was, now, n, s, s);
        TiledJoin(was, now, 1, 0, d);
      }
      if Block(now) {
        WalkPrefix(was, now, 1, 0, d);
        WalkTiled(now, 1, 0, d);
      }
    }
  }

  class Pool {
    /** The blocks in the order of their links. */
    var blocks: seq<array<Cell>>
    /** The size fields of the page allocations. */
    var pages: map<nat, u32>
    /** What the page allocations hold, header included. */
    var store: map<nat, seq<Cell>>
    var nextPage: nat

    ghost predicate Valid()
      reads this, blocks
    {
      && (forall i :: 0 <= i < |blocks| ==> blocks[i].Length == CELLS && Block(blocks[i][..]) && SmallOnly(blocks[i][..]))
      && (forall i, j :: 0 <= i < j < |blocks| ==> blocks[i] != blocks[j])
      && (forall id :: id in pages ==> id < nextPage && pages[id] > PAGE_SIZE && pages[id] % PAGE_SIZE == 0)
      && store.Keys == pages.Keys && (forall id :: id in pages ==> |store[id]| == pages[id] / 8)
    }

    /** p points to a live payload; its chunk has s bytes with the header. */
    ghost predicate Live(p: Ptr, s: nat)
      reads this, blocks
    {
      LiveIn(Contents(), pages, p, s)
    }

    constructor ()
      ensures Valid() && blocks == [] && pages == map[]
    {
      blocks, pages, store, nextPage := [], map[], map[], 0;
    }

    /** A large request goes to the page allocator. */
    method AllocatePages(size: nat) returns (p: Ptr)
      requires Valid() && PAGE_SIZE < size < WORD - PAGE_SIZE
      modifies this`pages, this`store, this`nextPage
      ensures Valid() && p.Page? && p.id !in old(pages)
      ensures p.id in pages && size <= pages[p.id] < size + PAGE_SIZE && pages[p.id] % PAGE_SIZE == 0
      ensures pages == old(pages)[p.id := pages[p.id]]
      ensures p.id in store && store == old(store)[p.id := store[p.id]]
    {
      var n := size + PAGE_MASK;
      n := n - n % PAGE_SIZE;
      p := Page(nextPage);
      pages := pages[nextPage := n];
      store := store[nextPage := seq(n / 8, _ => Cell(0, 0))[0 := Cell(0, n)]];
      nextPage := nextPage + 1;
    }

    /** The first block, when there is none yet. */
    method HeapInit()
      requires Valid() && blocks == []
      modifies this`blocks
      ensures Valid() && |blocks| == 1 && fresh(blocks[0])
      ensures forall q: nat, t: nat :: !Allocated(blocks[0][..], q, t)
    {
      var cells := BlockInit();
      blocks := [cells];
    }

    /** A small request: the first free chunk that fits, in block order, or else the first
        chunk of a new block. */
    method FirstFit(size: u32) returns (p: Ptr)
      requires Valid() && 8 <= size <= PAGE_SIZE && size % 8 == 0
      modifies this`blocks, blocks
      ensures Valid() && p.Small?
      ensures forall x :: x in blocks ==> x in old(blocks) || fresh(x)
      ensures p.b < |old(blocks)| ==> Fitted(old(blocks), old(Contents()), p.b, p.c, size)
      ensures p.b >= |old(blocks)| ==> Added(old(blocks), old(Contents()), p, size)
      ensures Live(p, size) && Undisturbed(old(Contents()), pages, Contents(), pages, p)
      ensures forall s: nat :: !LiveIn(old(Contents()), pages, p, s)
    {
      ghost var was := Contents();
      var b := 0;
      while b < |blocks|
        invariant 0 <= b <= |blocks| && blocks == old(blocks) && Valid() && Contents() == old(Contents())
        invariant forall i: nat, q: nat :: i < b ==> !FreeFit(old(Contents())[i], q, size)
      {
        var found, c := TryBlock(b, size);
        if found {
          TakenUndisturbed(was, Contents(), pages, b, c, size);
          return Small(b, c);
        }
        b := b + 1;
      }
      p := AddBlock(size);
      AddedUndisturbed(was, Contents(), pages, size);
    }

    /** The search in one block. */
    method TryBlock(b: nat, size: u32) returns (found: bool, c: nat)
      requires Valid() && b < |blocks| && 8 <= size <= PAGE_SIZE && size % 8 == 0
      modifies blocks[b]
      ensures Valid()
      ensures forall i :: 0 <= i < |blocks| && i != b ==> blocks[i][..] == old(Contents())[i]
      ensures !found ==> Contents() == old(Contents()) && forall q: nat :: !FreeFit(old(Contents())[b], q, size)
      ensures found ==> TakenAt(old(Contents())[b], blocks[b][..], c, size) && Taken(old(Contents())[b], blocks[b][..], c, size)
      ensures found ==> forall q :: 0 <= q < c ==> !FreeFit(old(Contents())[b], q, size)
    {
      ghost var was := blocks[b][..];
      found, c := FitBlock(blocks[b], size);
      if found {
        TakenSmall(was, blocks[b][..], c, size);
      }
    }

    /** Another block, whose first chunk is used. */
    method AddBlock(size: u32) returns (p: Ptr)
      requires Valid() && 8 <= size <= PAGE_SIZE && size % 8 == 0
      modifies this`blocks
      ensures Valid() && p == Small(|old(blocks)|, 1)
      ensures |blocks| == |old(blocks)| + 1 && blocks[..|old(blocks)|] == old(blocks) && fresh(blocks[|old(blocks)|])
      ensures forall i :: 0 <= i < |old(blocks)| ==> blocks[i][..] == old(Contents())[i]
      ensures forall q: nat, t: nat :: Allocated(blocks[p.b][..], q, t) <==> q == 1 && t == size
    {
      var cells := BlockInit();
      ghost var was := cells[..];
      FirstChunk(cells, size);
      OnlyOne(was, cells[..], size);
      p := Small(|blocks|, 1);
      blocks := blocks + [cells];
    }

    /** The payload at p has at least size bytes behind its header, and in a block less than
        eight more. */
    ghost predicate Roomy(p: Ptr, size: nat)
      reads this, blocks
    {
      exists t: nat :: Live(p, t) && size <= t - 8 && (p.Small? ==> t - 8 < size + 8)
    }

    /** What an allocation promises: a new payload of at least the requested size; no other
        live payload is disturbed; it is a page allocation exactly when the chunk is larger
        than a page; otherwise it is the first chunk that fits, or nothing fitted. */
    ghost predicate Allocation(was: seq<array<Cell>>, contents: seq<seq<Cell>>, wasPages: map<nat, u32>,
                               wasStore: map<nat, seq<Cell>>, p: Ptr, size: nat)
      requires |contents| == |was|
      reads this, blocks
    {
      && (p.Page? <==> size + 8 > PAGE_SIZE) && Roomy(p, size)
      && (p.Small? ==> Live(p, Rounded(size)) && pages == wasPages && store == wasStore)
      && (p.Page? ==> p.id in pages && pages[p.id] >= Rounded(size))
      && (p.Page? ==> p.id in store && store == wasStore[p.id := store[p.id]] && pages == wasPages[p.id := pages[p.id]])
      && (p.Small? || p.Page?)
      && OtherBlocks(contents, p)
      && (forall s: nat :: !LiveIn(contents, wasPages, p, s))
      && Undisturbed(contents, wasPages, Contents(), pages, p)
      && (p.Small? && p.b < |was| ==> Fitted(was, contents, p.b, p.c, Rounded(size)))
      && (p.Small? && p.b >= |was| ==> Unfit(contents, Rounded(size)))
    }

    /** No block has changed but that of p. */
    ghost predicate OtherBlocks(contents: seq<seq<Cell>>, p: Ptr)
      reads this, blocks
    {
      && |contents| <= |Contents()|
      && forall i {:trigger contents[i]} :: 0 <= i < |contents| && !(p.Small? && p.b == i) ==> Contents()[i] == contents[i]
    }

    /** A page allocation. */
    method AllocLarge(size: nat) returns (p: Ptr)
      requires Valid() && PAGE_SIZE < Rounded(size) < WORD - PAGE_SIZE
      modifies this`pages, this`store, this`nextPage
      ensures Valid() && Allocation(blocks, Contents(), old(pages), old(store), p, size)
    {
      ghost var wasPages := pages;
      RoundedFits(size);
      p := AllocatePages(Rounded(size));
      assert Live(p, pages[p.id] as nat);
      PagesUndisturbed(Contents(), wasPages, pages, p);
    }

    /** A chunk of a block. */
    method AllocSmall(size: nat) returns (p: Ptr)
      requires Valid() && Rounded(size) <= PAGE_SIZE
      modifies this`blocks, blocks
      ensures Valid() && Allocation(old(blocks), old(Contents()), pages, store, p, size)
      ensures forall x :: x in blocks ==> x in old(blocks) || fresh(x)
    {
      hide Undisturbed;
      RoundedFits(size);
      p := FirstFit(Rounded(size));
      assert Live(p, Rounded(size));
    }

    /** A fresh allocation. */
    method AllocMain(size: nat) returns (p: Ptr)
      requires Valid() && Rounded(size) < WORD - PAGE_SIZE
      modifies this, blocks
      ensures Valid() && Allocation(old(blocks), old(Contents()), old(pages), old(store), p, size)
      ensures forall x :: x in blocks ==> x in old(blocks) || fresh(x)
    {
      hide Undisturbed;
      ghost var was, wasPages, wasStore := Contents(), pages, store;
      if blocks == [] {
        HeapInit();
      }
      ghost var mid, midBlocks := Contents(), blocks;
      if Rounded(size) > PAGE_SIZE {
        p := AllocLarge(size);
        assert Contents() == mid;
      } else {
        p := AllocSmall(size);
      }
      assert Allocation(midBlocks, mid, wasPages, wasStore, p, size);
      if was == [] {
        StartAllocation(midBlocks, mid, wasPages, wasStore, p, size);
      }
    }

    /** An allocation from a heap just started is one from an empty heap. */
    lemma StartAllocation(mid: seq<array<Cell>>, contents: seq<seq<Cell>>, wasPages: map<nat, u32>,
                          wasStore: map<nat, seq<Cell>>, p: Ptr, size: nat)
      requires |mid| == |contents| == 1 && forall q: nat, t: nat :: !Allocated(contents[0], q, t)
      requires Allocation(mid, contents, wasPages, wasStore, p, size)
      ensures Allocation([], [], wasPages, wasStore, p, size)
    {
      hide Fitted;
      StartUndisturbed(contents, Contents(), wasPages, pages, p);
      forall s: nat ensures !LiveIn([], wasPages, p, s) {
        assert !LiveIn(contents, wasPages, p, s);
      }
    }

    method Malloc(size: nat) returns (p: Ptr)
      requires Valid() && Rounded(size) < WORD - PAGE_SIZE
      modifies this, blocks
      ensures Valid() && Allocation(old(blocks), old(Contents()), old(pages), old(store), p, size)
    {
      p := AllocMain(size);
    }

    /** The size in the header of a live payload, without flags. */
    method ChunkSize(p: Ptr, ghost s: nat) returns (n: nat)
      requires Valid() && Live(p, s)
      ensures n == s && (p.Page? <==> n > PAGE_SIZE)
    {
      if p.Page? {
        n := Mask(pages[p.id]);
      } else {
        assert Allocated(blocks[p.b][..], p.c, s);
        n := Mask(blocks[p.b][p.c].size);
      }
    }

    /** Gives a payload back to where it came from: page allocations to the page allocator,
        and only those. Afterwards exactly that payload is no longer live. The bytes of all
        others are unchanged exactly when its backward size does not stray into one. */
    method Free(p: Ptr, ghost s: nat)
      requires Valid() && (p == Null || Live(p, s))
      modifies this, blocks
      ensures Valid() && blocks == old(blocks)
      ensures forall q: Ptr, t: nat :: Live(q, t) <==> q != p && LiveIn(old(Contents()), old(pages), q, t)
      ensures p.Page? ==> pages == old(pages) - {p.id} && store == old(store) - {p.id} && Contents() == old(Contents())
      ensures !p.Page? ==> pages == old(pages) && store == old(store)
      ensures p == Null ==> Contents() == old(Contents())
      ensures p.Small? ==> Contents() == old(Contents())[p.b := FreeCells(old(Contents())[p.b], p.c)]
      ensures SamePayloads(old(Now()), Now(), p) <==> !(p.Small? && Strays(old(Contents())[p.b], p.c))
    {
      hide FreeCells, Strays;
      ghost var was := Contents();
      if p != Null {
        var n := ChunkSize(p, s);
        if n > PAGE_SIZE {
          pages, store := pages - {p.id}, store - {p.id};
        } else {
          FreeSmall(p.b, p.c, s);
          return;
        }
      }
      assert Contents() == was;
    }

    method FreeSmall(b: nat, c: nat, ghost s: nat)
      requires Valid() && Live(Small(b, c), s)
      modifies blocks
      ensures Valid()
      ensures Contents() == old(Contents())[b := FreeCells(old(Contents())[b], c)]
      ensures forall q: Ptr, t: nat :: Live(q, t) <==> q != Small(b, c) && LiveIn(old(Contents()), pages, q, t)
      ensures SamePayloads(old(Now()), Now(), Small(b, c)) <==> !Strays(old(Contents())[b], c)
    {
      ghost var was := Contents();
      FreeChunk(blocks[b], c, s);
      FreedSmall(was[b], blocks[b][..], c);
      assert forall i :: 0 <= i < |blocks| && i != b ==> Contents()[i] == was[i];
      assert Contents() == was[b := FreeCells(was[b], c)];
      FreedLive(was, Contents(), pages, b, c);
      KeptInBlock(was, pages, store, Contents(), store, b, c);
    }

    /** The owner writes eight bytes of a payload: nothing but those bytes changes. */
    method Write(p: Ptr, k: nat, v: Cell, ghost s: nat)
      requires Valid() && p.Small? && Live(p, s) && 1 <= k < s / 8 && p.c + k < CELLS
      modifies blocks[p.b]
      ensures Valid() && Contents() == old(Contents())[p.b := old(Contents())[p.b][p.c + k := v]]
      ensures forall q: Ptr, t: nat :: Live(q, t) <==> LiveIn(old(Contents()), pages, q, t)
    {
      ghost var was := Contents();
      UserWrite(blocks[p.b], p.c, k, v, s);
      assert Contents() == was[p.b := was[p.b][p.c + k := v]];
    }

    /** Tries to make a payload large enough where it is. */
    method Reuse(p: Ptr, n: u32, ghost s: nat) returns (done: bool)
      requires Valid() && Live(p, s) && 8 <= n && n % 8 == 0
      modifies blocks
      ensures Valid() && (!done ==> Contents() == old(Contents()))
      ensures done ==> Undisturbed(old(Contents()), pages, Contents(), pages, p)
      ensures done ==> Reused(old(Contents()), p, s, n)
      ensures p.Small? ==> (done <==> FitsInPlace(old(Contents())[p.b], p.c, s, n))
      ensures p.Page? ==> (done <==> PAGE_SIZE <= n < s)
    {
      ghost var was := Contents();
      if p.Page? {
        SelfUndisturbed(was, pages, p);
        done := pages[p.id] >= PAGE_SIZE && n >= PAGE_SIZE && n < pages[p.id];
      } else {
        assert Allocated(blocks[p.b][..], p.c, s);
        done := ResizeAt(blocks[p.b], p.c, n, s);
        assert forall i :: 0 <= i < |blocks| && i != p.b ==> Contents()[i] == was[i];
        if done {
          TakenSmall(was[p.b], blocks[p.b][..], p.c, n);
          TakenUndisturbed(was, Contents(), pages, p.b, p.c, n);
        } else {
          assert Contents() == was;
        }
      }
    }

    /** The payload at p, of a chunk of s bytes, now has room for n, and what it keeps of
        its bytes is unchanged. */
    ghost predicate Reused(was: seq<seq<Cell>>, p: Ptr, s: nat, n: nat)
      reads this, blocks
    {
      match p
      case Null => false
      case Small(b, c) =>
        Live(p, n) && n <= PAGE_SIZE && b < |was| && Agree(was[b], Contents()[b], c + 1, c + (if s < n then s else n) / 8)
      case Page(_) => Live(p, s) && n < s
    }

    /** A payload is resized: in place, which is done whenever there is room, or moved to a
        larger chunk, which gets its contents. Where a payload would have to move without
        growing, the copy runs over the end of the new one; such calls are not allowed. */
    method Realloc(p: Ptr, size: nat, ghost s: nat) returns (r: Ptr)
      requires Valid() && (p == Null || Live(p, s)) && Rounded(size) < WORD - PAGE_SIZE
      requires p.Small? ==> Rounded(size) > s || FitsInPlace(Contents()[p.b], p.c, s, Rounded(size))
      requires p.Page? ==> Rounded(size) >= PAGE_SIZE
      modifies this, blocks
      ensures Valid() && r != Null
      ensures p.Small? ==> (r == p <==> FitsInPlace(old(Contents())[p.b], p.c, s, Rounded(size)))
      ensures p.Page? ==> (r == p <==> Rounded(size) < s)
      ensures p != Null && r == p ==> Reused(old(Contents()), p, s, Rounded(size)) && pages == old(pages) && store == old(store)
      ensures p != Null && r == p ==> Undisturbed(old(Contents()), old(pages), Contents(), pages, p)
      ensures r != p ==> MovedTo(old(Now()), Now(), p, s, r, Rounded(size))
      ensures Roomy(r, size)
    {
      RoundedFits(size);
      if p != Null {
        var done := Reuse(p, Rounded(size), s);
        if done {
          return p;
        }
      }
      r := Move(p, size, s);
    }

    /** A new payload, with what the old one held, which is freed. */
    method Move(p: Ptr, size: nat, ghost s: nat) returns (r: Ptr)
      requires Valid() && (p == Null || Live(p, s)) && Rounded(size) < WORD - PAGE_SIZE
      requires p.Small? ==> Rounded(size) > s
      requires p.Page? ==> Rounded(size) >= s
      modifies this, blocks
      ensures Valid() && r != Null && r != p && Roomy(r, size)
      ensures MovedTo(old(Now()), Now(), p, s, r, Rounded(size))
    {
      hide Copied, Payload, SamePayloads, MovedTo, Undisturbed, LiveIn, Strays, FreeCells, Chosen;
      ghost var was := Now();
      ghost var t;
      r, t := MoveCopy(p, size, s);
      assert forall i :: 0 <= i < |blocks| ==> blocks[i] in old(blocks) || fresh(blocks[i]);
      ghost var now := Now();
      SmallRoom(p, s);
      Free(p, s);
      ghost var end := Now();
      forall q: Ptr, u: nat ensures LiveIn(end.blocks, end.pages, q, u) <==> q != p && LiveIn(now.blocks, now.pages, q, u) {
        assert Live(q, u) == LiveIn(end.blocks, end.pages, q, u);
      }
      MoveEnds(was, now, end, p, s, r, t, Rounded(size));
      RoundedFits(size);
      assert Live(r, t);
    }

    /** The allocation and the copy. */
    method MoveCopy(p: Ptr, size: nat, ghost s: nat) returns (r: Ptr, ghost t: nat)
      requires Valid() && (p == Null || Live(p, s)) && Rounded(size) < WORD - PAGE_SIZE
      requires p.Small? ==> Rounded(size) > s
      requires p.Page? ==> Rounded(size) >= s
      modifies this, blocks
      ensures Valid() && r != Null && r != p && Live(r, t) && t >= Rounded(size) && (p != Null ==> Live(p, s))
      ensures r.Small? ==> t == Rounded(size)
      ensures forall x :: x in blocks ==> x in old(blocks) || fresh(x)
      ensures forall u: nat :: !LiveIn(old(Contents()), old(pages), r, u)
      ensures forall q: Ptr, u: nat :: q != r ==> (Live(q, u) <==> LiveIn(old(Contents()), old(pages), q, u))
      ensures SamePayloads(old(Now()), Now(), r)
      ensures p != Null ==> Payload(Contents(), store, r, s) == Payload(old(Contents()), old(store), p, s)
      ensures p.Small? ==> Copied(old(Now()), Now(), p, s, r, Rounded(size))
      ensures Chosen(old(Contents()), r, Rounded(size))
    {
      hide SamePayloads, Payload, Copied, Placed, Filled, CopyTo, Undisturbed, LiveIn, Chosen;
      ghost var was := Now();
      OldBounds(p, s);
      r, t := AllocFor(p, size, s);
      assert forall i :: 0 <= i < |blocks| ==> blocks[i] in old(blocks) || fresh(blocks[i]);
      ghost var mid := Now();
      SourceKept(was, mid, p, s, r);
      CopyPayload(p, r, s, t);
      CopyLives(mid, Now(), p, s, r);
      KeptByCopy(was, mid, Now(), p, s, r, t);
      if p.Small? {
        CopyReady(was, mid, Now(), p, s, r, Rounded(size));
      }
    }

    lemma SmallRoom(p: Ptr, s: nat)
      requires Valid() && (p == Null || Live(p, s))
      ensures p.Small? ==> p.b < |Contents()| && p.c < |Contents()[p.b]|
    {
      if p.Small? {
        assert Allocated(Contents()[p.b], p.c, s);
      }
    }

    lemma OldBounds(p: Ptr, s: nat)
      requires Valid() && (p == Null || Live(p, s))
      ensures Blocks(Contents()) && (p.Small? ==> p.b < |blocks| && 8 <= s && s % 8 == 0)
    {
      if p.Small? {
        assert Allocated(Contents()[p.b], p.c, s);
        ChunkBounds(Contents()[p.b], p.c, s);
      }
    }

    /** The allocation, in terms of payloads. */
    method AllocFor(p: Ptr, size: nat, ghost s: nat) returns (r: Ptr, ghost t: nat)
      requires Valid() && (p == Null || Live(p, s)) && Rounded(size) < WORD - PAGE_SIZE
      requires p.Page? ==> Rounded(size) >= s
      modifies this, blocks
      ensures Valid() && r != Null && r != p && Live(r, t) && t >= Rounded(size) && (p != Null ==> Live(p, s))
      ensures r.Small? ==> t == Rounded(size)
      ensures p.Page? ==> r.Page?
      ensures forall x :: x in blocks ==> x in old(blocks) || fresh(x)
      ensures forall u: nat :: !LiveIn(old(Contents()), old(pages), r, u)
      ensures forall q: Ptr, u: nat :: q != r ==> (Live(q, u) <==> LiveIn(old(Contents()), old(pages), q, u))
      ensures SamePayloads(old(Now()), Now(), r) && Blocks(Contents())
      ensures p.Small? ==> Placed(old(Contents()), Contents(), p, r, Rounded(size))
      ensures Chosen(old(Contents()), r, Rounded(size))
    {
      hide SamePayloads, Payload;
      ghost var was := Now();
      r := AllocMain(size);
      assert forall i :: 0 <= i < |blocks| ==> blocks[i] in old(blocks) || fresh(blocks[i]);
      t := if r.Small? then Rounded(size) else pages[r.id] as nat;
      assert Live(r, t) && (p != Null ==> Live(p, s) && r != p);
      assert Blocks(was.blocks) && Blocks(Contents());
      KeptByAlloc(was, Now(), r);
    }

    /** Copies a payload into a larger one. */
    method CopyPayload(p: Ptr, r: Ptr, ghost s: nat, ghost t: nat)
      requires Valid() && p != r && Live(r, t) && (p != Null ==> Live(p, s))
      requires p.Small? ==> s < t
      requires p.Page? ==> r.Page? && s <= t
      modifies blocks, this`store
      ensures Valid() && CopyTo(old(Now()), Now(), p, s, r)
      ensures p != Null ==> Payload(Contents(), store, r, s) == Payload(old(Contents()), old(store), p, s)
    {
      if p.Small? && r.Small? {
        CopySmall(p, r, s, t);
      } else if p != Null {
        CopyLarge(p, r, s, t);
      }
    }

    /** From one chunk of a block to another. */
    method CopySmall(p: Ptr, r: Ptr, ghost s: nat, ghost t: nat)
      requires Valid() && p.Small? && r.Small? && p != r && Live(p, s) && Live(r, t) && s < t
      modifies blocks
      ensures Valid() && Contents() == old(Contents())[r.b := Contents()[r.b]]
      ensures Filled(old(Contents())[r.b], Contents()[r.b], r.c, s)
      ensures Payload(Contents(), store, r, s) == Payload(old(Contents()), store, p, s)
    {
      hide Valid, Filled, CopiedBytes;
      ghost var was := Contents();
      CopyChunk(p, r, s, t);
      CopiedSlices(was[p.b], Contents()[r.b], p.c, r.c, s);
    }

    method CopyChunk(p: Ptr, r: Ptr, ghost s: nat, ghost t: nat)
      requires Valid() && p.Small? && r.Small? && p != r && Live(p, s) && Live(r, t) && s < t
      modifies blocks
      ensures Valid() && Contents() == old(Contents())[r.b := Contents()[r.b]]
      ensures 8 <= s && p.c + s / 8 <= |old(Contents())[p.b]| && r.c + s / 8 <= |Contents()[r.b]|
      ensures Filled(old(Contents())[r.b], Contents()[r.b], r.c, s)
      ensures CopiedBytes(old(Contents())[p.b], Contents()[r.b], p.c, r.c, s)
    {
      ghost var was := Contents();
      ChunkBounds(was[p.b], p.c, s);
      ChunkBounds(was[r.b], r.c, t);
      if p.b == r.b {
        LiveApart(was, pages, p, s, r, t);
      }
      CopyCells(blocks[p.b], p.c, blocks[r.b], r.c, s, t);
      assert forall i :: 0 <= i < |blocks| && i != r.b ==> Contents()[i] == was[i];
      FilledSmall(was[r.b], Contents()[r.b], r.c, s);
    }

    /** Into a page allocation. The length of a block's chunk is taken with its flag, so one
        byte of the header behind is copied too. */
    method CopyLarge(p: Ptr, r: Ptr, ghost s: nat, ghost t: nat)
      requires Valid() && p != Null && r.Page? && p != r && Live(p, s) && Live(r, t) && s <= t && (p.Small? ==> s < t)
      modifies this`store
      ensures Valid() && r.id in store && store == old(store)[r.id := store[r.id]]
      ensures Payload(Contents(), store, r, s) == Payload(Contents(), old(store), p, s)
    {
      hide Tiled, Walks;
      var dst := store[r.id];
      if p.Page? {
        var src := store[p.id];
        store := store[r.id := Spliced(dst, src[1..pages[p.id] / 8])];
      } else {
        SmallSource(p, s);
        var src, c := blocks[p.b], p.c;
        var k := src[c].size / 8;
        store := store[r.id := WithByte(Spliced(dst, src[c + 1..c + k]), k, src[c + k].prev)];
      }
    }

    lemma SmallSource(p: Ptr, s: nat)
      requires Valid() && p.Small? && Live(p, s)
      ensures p.b < |blocks| && p.c + s / 8 < blocks[p.b].Length && blocks[p.b][p.c].size == s + 1 && s % 8 == 0 && s >= 8
    {
      assert Allocated(Contents()[p.b], p.c, s);
      ChunkBounds(Contents()[p.b], p.c, s);
    }

    /** All that the heap holds. */
    ghost function Now(): Snap
      reads this, blocks
    {
      Snap(Contents(), pages, store)
    }

    /** What the blocks hold. */
    ghost function Contents(): seq<seq<Cell>>
      reads this, blocks
    {
      seq(|blocks|, i requires 0 <= i < |blocks| reads this, blocks => blocks[i][..])
    }

    /** The chunk at c of block b was the first that fits, and has been taken. */
    ghost predicate Fitted(was: seq<array<Cell>>, contents: seq<seq<Cell>>, b: nat, c: nat, size: u32)
      requires |contents| == |was|
      reads this, blocks
    {
      && blocks == was && b < |was|
      && TakenAt(contents[b], blocks[b][..], c, size) && Taken(contents[b], blocks[b][..], c, size)
      && (forall q :: 0 <= q < c ==> !FreeFit(contents[b], q, size))
      && (forall i: nat, q: nat :: i < b ==> !FreeFit(contents[i], q, size))
      && (forall i :: 0 <= i < |was| && i != b ==> blocks[i][..] == contents[i])
    }

    /** Nothing fitted; a block was added whose only allocated chunk is the new one. */
    ghost predicate Added(was: seq<array<Cell>>, contents: seq<seq<Cell>>, p: Ptr, size: nat)
      requires |contents| == |was|
      reads this, blocks
    {
      && |blocks| == |was| + 1 && blocks[..|was|] == was && p == Small(|was|, 1)
      && Unfit(contents, size)
      && (forall i :: 0 <= i < |was| ==> blocks[i][..] == contents[i])
      && (forall q: nat, t: nat :: Allocated(blocks[|was|][..], q, t) <==> q == 1 && t == size)
    }
  }

  /** When of a block only what is freed at c has changed, the other payloads are judged
      by that block alone. */
  lemma KeptInBlock(was: seq<seq<Cell>>, wasPages: map<nat, u32>, wasStore: map<nat, seq<Cell>>,
                    now: seq<seq<Cell>>, nowStore: map<nat, seq<Cell>>, b: nat, c: nat)
    requires b < |was| <= |now| && |now[b]| == |was[b]| && Block(was[b])
    requires forall q: Ptr, t: nat {:trigger LiveIn(was, wasPages, q, t)} :: LiveIn(was, wasPages, q, t) && !(q.Small? && q.b == b) ==>
               Payload(now, nowStore, q, t) == Payload(was, wasStore, q, t)
    ensures (forall q: Ptr, t: nat {:trigger LiveIn(was, wasPages, q, t)} :: q != Small(b, c) && LiveIn(was, wasPages, q, t) ==>
               Payload(now, nowStore, q, t) == Payload(was, wasStore, q, t))
            <==> PayloadsKept(was[b], now[b], c)
  {
    hide Agree, Walks, Tiled;
    forall q: nat, t: nat {:trigger Allocated(was[b], q, t)} | Allocated(was[b], q, t)
      ensures Payload(now, nowStore, Small(b, q), t) == Payload(was, wasStore, Small(b, q), t) <==> Agree(was[b], now[b], q + 1, q + t / 8)
    {
      ChunkBounds(was[b], q, t);
      SlicesAgree(was[b], now[b], q + 1, q + t / 8);
    }
    forall q: nat, t: nat {:trigger Allocated(was[b], q, t)} ensures Allocated(was[b], q, t) <==> LiveIn(was, wasPages, Small(b, q), t) {
    }
  }

  lemma SlicesAgree(was: seq<Cell>, now: seq<Cell>, lo: nat, hi: nat)
    requires lo <= hi <= |was| == |now|
    ensures was[lo..hi] == now[lo..hi] <==> Agree(was, now, lo, hi)
  {
    if was[lo..hi] == now[lo..hi] {
      forall k | lo <= k < hi ensures now[k] == was[k] {
        assert now[lo..hi][k - lo] == was[lo..hi][k - lo];
      }
    }
  }

  lemma CopiedSlices(was: seq<Cell>, now: seq<Cell>, c: nat, d: nat, s: nat)
    requires CopiedBytes(was, now, c, d, s) && s >= 8
    ensures now[d + 1..d + s / 8] == was[c + 1..c + s / 8]
  {
    forall k {:trigger was[c + 1..c + s / 8][k]} | 0 <= k < s / 8 - 1 ensures now[d + 1..d + s / 8][k] == was[c + 1..c + s / 8][k] {
      assert now[d + (c + 1 + k) - c] == was[c + 1 + k];
    }
  }

  lemma SlicesCopied(was: seq<Cell>, now: seq<Cell>, c: nat, d: nat, s: nat)
    requires s >= 8 && c + s / 8 <= |was| && d + s / 8 <= |now| && now[d + 1..d + s / 8] == was[c + 1..c + s / 8]
    ensures CopiedBytes(was, now, c, d, s)
  {
    forall i {:trigger was[i]} | c < i < c + s / 8 ensures now[d + i - c] == was[i] {
      assert now[d + 1..d + s / 8][i - c - 1] == was[c + 1..c + s / 8][i - c - 1];
    }
  }

  /** A heap: its blocks, the sizes of its page allocations and what they hold. */
  datatype Snap = Snap(blocks: seq<seq<Cell>>, pages: map<nat, u32>, store: map<nat, seq<Cell>>)

  /** Payloads other than that of r are as they were. */
  ghost predicate SamePayloads(was: Snap, now: Snap, r: Ptr)
  {
    forall q: Ptr, t: nat {:trigger LiveIn(was.blocks, was.pages, q, t)} :: q != r && LiveIn(was.blocks, was.pages, q, t) ==>
      Payload(now.blocks, now.store, q, t) == Payload(was.blocks, was.store, q, t)
  }

  /** A payload in a block has been copied to r and not been freed yet: where both are in
      one block, that block has gone through the states of a move; otherwise the block of
      the old payload is as it was. */
  ghost predicate Copied(was: Snap, now: Snap, p: Ptr, s: nat, r: Ptr, n: nat)
  {
    && p.Small? && p.b < |was.blocks| <= |now.blocks| && |now.blocks[p.b]| == |was.blocks[p.b]|
    && Block(was.blocks[p.b]) && Allocated(was.blocks[p.b], p.c, s)
    && SamePayloads(was, now, r) && (forall t: nat :: !LiveIn(was.blocks, was.pages, r, t))
    && Payload(now.blocks, now.store, r, s) == Payload(was.blocks, was.store, p, s)
    && (if r.Small? && r.b == p.b
        then n < WORD && exists mid: seq<Cell> :: Moving(was.blocks[p.b], mid, now.blocks[p.b], p.c, s, r.c, n)
        else now.blocks[p.b] == was.blocks[p.b])
  }

  ghost function AfterFree(now: Snap, p: Ptr): Snap
    requires p.Small? && p.b < |now.blocks| && p.c < |now.blocks[p.b]|
  {
    now.(blocks := now.blocks[p.b := FreeCells(now.blocks[p.b], p.c)])
  }

  /** Giving back a page allocation, or nothing, touches no other payload. */
  lemma PageFreed(was: Snap, now: Snap, end: Snap, p: Ptr, r: Ptr, s: nat)
    requires !p.Small? && p != r && SamePayloads(was, now, r) && (forall t: nat :: !LiveIn(was.blocks, was.pages, r, t))
    requires end.blocks == now.blocks && end.store == if p.Page? then now.store - {p.id} else now.store
    ensures SamePayloads(was, end, p)
    ensures Payload(end.blocks, end.store, r, s) == Payload(now.blocks, now.store, r, s)
  {
    forall q: Ptr, t: nat {:trigger LiveIn(was.blocks, was.pages, q, t)} | q != p && LiveIn(was.blocks, was.pages, q, t)
      ensures Payload(end.blocks, end.store, q, t) == Payload(was.blocks, was.store, q, t)
    {
      assert q != r;
    }
  }

  /** Every block is well formed. */
  ghost predicate Blocks(blocks: seq<seq<Cell>>)
  {
    forall i {:trigger blocks[i]} :: 0 <= i < |blocks| ==> Block(blocks[i])
  }

  /** An allocation keeps payloads. */
  lemma KeptByAlloc(was: Snap, now: Snap, r: Ptr)
    requires Blocks(was.blocks) && Undisturbed(was.blocks, was.pages, now.blocks, now.pages, r)
    requires now.store == was.store || (r.Page? && r.id in now.store && now.store == was.store[r.id := now.store[r.id]])
    ensures SamePayloads(was, now, r)
  {
    forall q: Ptr, t: nat {:trigger LiveIn(was.blocks, was.pages, q, t)} | q != r && LiveIn(was.blocks, was.pages, q, t)
      ensures Payload(now.blocks, now.store, q, t) == Payload(was.blocks, was.store, q, t)
    {
      assert SameBytes(was.blocks, now.blocks, q, t);
      if q.Small? {
        ChunkBounds(was.blocks[q.b], q.c, t);
        SlicesAgree(was.blocks[q.b], now.blocks[q.b], q.c + 1, q.c + t / 8);
      }
    }
  }

  /** What the copy of a payload of s bytes to r may have changed: cells of r's chunk, or
      what the page allocation holds. */
  ghost predicate CopyTo(was: Snap, now: Snap, p: Ptr, s: nat, r: Ptr)
  {
    if r.Small? && p.Small? then
      && r.b < |was.blocks| == |now.blocks| && now == was.(blocks := was.blocks[r.b := now.blocks[r.b]])
      && Filled(was.blocks[r.b], now.blocks[r.b], r.c, s)
    else
      now == was || (r.Page? && r.id in now.store && now == was.(store := was.store[r.id := now.store[r.id]]))
  }

  /** The copy leaves the same payloads live. */
  lemma CopyLives(mid: Snap, now: Snap, p: Ptr, s: nat, r: Ptr)
    requires CopyTo(mid, now, p, s, r)
    ensures forall q: Ptr, u: nat :: LiveIn(now.blocks, now.pages, q, u) <==> LiveIn(mid.blocks, mid.pages, q, u)
  {
    forall q: Ptr, u: nat ensures LiveIn(now.blocks, now.pages, q, u) <==> LiveIn(mid.blocks, mid.pages, q, u) {
      if q.Small? && q.b < |mid.blocks| {
        assert Allocated(now.blocks[q.b], q.c, u) <==> Allocated(mid.blocks[q.b], q.c, u);
      }
    }
  }

  /** And so does the copy. */
  lemma KeptByCopy(was: Snap, mid: Snap, now: Snap, p: Ptr, s: nat, r: Ptr, t: nat)
    requires Blocks(mid.blocks) && SamePayloads(was, mid, r) && LiveIn(mid.blocks, mid.pages, r, t) && (p.Small? ==> s < t && s % 8 == 0)
    requires forall q: Ptr, u: nat {:trigger LiveIn(mid.blocks, mid.pages, q, u)} ::
               q != r ==> (LiveIn(mid.blocks, mid.pages, q, u) <==> LiveIn(was.blocks, was.pages, q, u))
    requires CopyTo(mid, now, p, s, r)
    ensures SamePayloads(was, now, r)
  {
    forall q: Ptr, u: nat {:trigger LiveIn(was.blocks, was.pages, q, u)} | q != r && LiveIn(was.blocks, was.pages, q, u)
      ensures Payload(now.blocks, now.store, q, u) == Payload(was.blocks, was.store, q, u)
    {
      assert LiveIn(mid.blocks, mid.pages, q, u);
      if p.Small? && r.Small? && q.Small? && q.b == r.b {
        FilledSpares(mid.blocks[r.b], now.blocks[r.b], r.c, s, t, q.c, u);
      }
    }
  }

  lemma FilledSpares(was: seq<Cell>, now: seq<Cell>, d: nat, s: nat, t: nat, q: nat, u: nat)
    requires Block(was) && Allocated(was, d, t) && s < t && s % 8 == 0 && Filled(was, now, d, s) && Allocated(was, q, u) && q != d
    ensures q + u / 8 <= |was| == |now| && 1 <= u / 8 && now[q + 1..q + u / 8] == was[q + 1..q + u / 8]
  {
    ChunkBounds(was, q, u);
    ChunkBounds(was, d, t);
    if q < d {
      ChunksApart(was, q, d);
    } else {
      ChunksApart(was, d, q);
    }
    SlicesAgree(was, now, q + 1, q + u / 8);
  }

  /** Where the new payload is: in the block of p, of which n bytes have been taken, or
      elsewhere. */
  ghost predicate Placed(was: seq<seq<Cell>>, mid: seq<seq<Cell>>, p: Ptr, r: Ptr, n: nat)
    requires p.Small?
  {
    && p.b < |was| <= |mid|
    && if r.Small? && r.b == p.b then n < WORD && TakenAt(was[p.b], mid[p.b], r.c, n) && Taken(was[p.b], mid[p.b], r.c, n)
       else mid[p.b] == was[p.b]
  }

  /** The payload to be copied has not changed. */
  lemma SourceKept(was: Snap, mid: Snap, p: Ptr, s: nat, r: Ptr)
    requires SamePayloads(was, mid, r) && p != r && (p != Null ==> LiveIn(was.blocks, was.pages, p, s))
    ensures p != Null ==> Payload(mid.blocks, mid.store, p, s) == Payload(was.blocks, was.store, p, s)
  {
    hide Payload;
  }

  /** After the copy a payload of a block is ready to be freed. */
  lemma CopyReady(was: Snap, mid: Snap, now: Snap, p: Ptr, s: nat, r: Ptr, n: nat)
    requires p.Small? && LiveIn(was.blocks, was.pages, p, s) && Blocks(was.blocks) && p != r && 8 <= s < n && s % 8 == 0
    requires SamePayloads(was, now, r) && (forall t: nat :: !LiveIn(was.blocks, was.pages, r, t))
    requires CopyTo(mid, now, p, s, r) && Payload(now.blocks, now.store, r, s) == Payload(was.blocks, was.store, p, s)
    requires Placed(was.blocks, mid.blocks, p, r, n)
    ensures Copied(was, now, p, s, r, n)
  {
    hide SamePayloads, Payload, Taken, TakenAt, Filled;
    if r.Small? && r.b == p.b {
      TakenLength(was.blocks[p.b], mid.blocks[p.b], r.c, n);
      FilledLength(mid.blocks[p.b], now.blocks[p.b], r.c, s);
      assert Moving(was.blocks[p.b], mid.blocks[p.b], now.blocks[p.b], p.c, s, r.c, n);
    }
  }

  lemma TakenLength(was: seq<Cell>, now: seq<Cell>, c: nat, s: nat)
    requires Taken(was, now, c, s)
    ensures |now| == |was|
  {
  }

  lemma FilledLength(was: seq<Cell>, now: seq<Cell>, d: nat, s: nat)
    requires Filled(was, now, d, s)
    ensures |now| == |was|
  {
  }

  /** What becomes of the other payloads. */
  lemma MoveSpares(was: Snap, now: Snap, p: Ptr, s: nat, r: Ptr, n: nat)
    requires Copied(was, now, p, s, r, n)
    ensures p.c < |now.blocks[p.b]| && (SamePayloads(was, AfterFree(now, p), p) <==> !Strays(was.blocks[p.b], p.c))
  {
    var b, c := p.b, p.c;
    var end := AfterFree(now, p);
    forall q: Ptr, t: nat {:trigger LiveIn(was.blocks, was.pages, q, t)} | LiveIn(was.blocks, was.pages, q, t) && !(q.Small? && q.b == b)
      ensures Payload(end.blocks, end.store, q, t) == Payload(was.blocks, was.store, q, t)
    {
      assert q != r;
    }
    KeptInBlock(was.blocks, was.pages, was.store, end.blocks, end.store, b, c);
    if r.Small? && r.b == b {
      var mid: seq<Cell> :| Moving(was.blocks[b], mid, now.blocks[b], c, s, r.c, n);
      MoveKeeps(was.blocks[b], mid, now.blocks[b], c, s, r.c, n);
    } else {
      FreeKeeps(was.blocks[b], c, s);
    }
  }

  /** What becomes of the copy. */
  lemma MoveLands(was: Snap, now: Snap, p: Ptr, s: nat, r: Ptr, n: nat)
    requires Copied(was, now, p, s, r, n)
    ensures p.c < |now.blocks[p.b]|
    ensures Payload(AfterFree(now, p).blocks, now.store, r, s) == Payload(was.blocks, was.store, p, s) <==>
            !(r.Small? && r.b == p.b && Overwritten(was.blocks[p.b], p.c, s, r.c, n))
  {
    hide Moving, FreeCells, Overwritten, SamePayloads, Block;
    var b, c := p.b, p.c;
    var w, x := was.blocks[b], now.blocks[b];
    ChunkBounds(w, c, s);
    if r.Small? && r.b == b {
      var mid: seq<Cell> :| Moving(w, mid, x, c, s, r.c, n);
      LandsInBlock(w, mid, x, c, s, r.c, n);
    }
  }

  /** The same for the one block that both payloads are in. */
  lemma LandsInBlock(was: seq<Cell>, mid: seq<Cell>, now: seq<Cell>, c: nat, s: nat, d: nat, n: u32)
    requires Moving(was, mid, now, c, s, d, n)
    ensures c + s / 8 <= |was| && d + s / 8 <= |now| == |was| && 1 <= s / 8
    ensures now[d + 1..d + s / 8] == was[c + 1..c + s / 8] ==>
              (FreeCells(now, c)[d + 1..d + s / 8] == was[c + 1..c + s / 8] <==> !Overwritten(was, c, s, d, n))
  {
    hide Moving, Overwritten, FreeCells;
    MoveBounds(was, mid, now, c, s, d, n);
    if now[d + 1..d + s / 8] == was[c + 1..c + s / 8] {
      SlicesCopied(was, now, c, d, s);
      MoveCarries(was, mid, now, c, s, d, n);
      var f := FreeCells(now, c);
      if CopiedBytes(was, f, c, d, s) {
        CopiedSlices(was, f, c, d, s);
      }
      if f[d + 1..d + s / 8] == was[c + 1..c + s / 8] {
        SlicesCopied(was, f, c, d, s);
      }
    }
  }

  lemma MoveBounds(was: seq<Cell>, mid: seq<Cell>, now: seq<Cell>, c: nat, s: nat, d: nat, n: u32)
    requires Moving(was, mid, now, c, s, d, n)
    ensures c + s / 8 <= |was| && d + s / 8 <= |now| == |was| && c < |was| && s >= 8
  {
    StillThere(was, mid, now, c, s, d, n);
    FreeSize(was, c);
    FreeSize(now, d);
  }

  /** The first free chunk with room for n bytes, in block order, is at c of block b. */
  ghost predicate FitsFirst(blocks: seq<seq<Cell>>, b: nat, c: nat, n: nat)
  {
    && b < |blocks| && FreeFit(blocks[b], c, n)
    && (forall q :: 0 <= q < c ==> !FreeFit(blocks[b], q, n))
    && (forall i: nat, q: nat :: i < b ==> !FreeFit(blocks[i], q, n))
  }

  /** No free chunk has room. */
  ghost predicate Unfit(blocks: seq<seq<Cell>>, n: nat)
  {
    forall i: nat, q: nat :: i < |blocks| ==> !FreeFit(blocks[i], q, n)
  }

  /** Where an allocation of n bytes goes, as far as it can be known before. */
  ghost predicate Chosen(was: seq<seq<Cell>>, r: Ptr, n: nat)
  {
    && (r.Page? <==> n > PAGE_SIZE) && r != Null
    && (r.Small? ==> if r.b < |was| then FitsFirst(was, r.b, r.c, n) else Unfit(was, n))
  }

  /** Whether moving p, of s bytes, to a chunk of n bytes loses part of its contents. That is
      when the first chunk that fits ends where p's begins, and p's backward size leads to a
      word of the copy there whose low bit is clear. */
  ghost predicate Clobbered(was: seq<seq<Cell>>, p: Ptr, s: nat, n: nat)
  {
    && p.Small? && n <= PAGE_SIZE && p.b < |was| && n / 8 <= p.c
    && FitsFirst(was, p.b, p.c - n / 8, n) && Overwritten(was[p.b], p.c, s, p.c - n / 8, n)
  }

  /** There is a heap, which a few calls lead to, where that happens. */
  lemma LostContents()
    ensures Clobbered([JOINED], Small(0, 5), 24, 32)
  {
    hide Overwritten, FreeFit;
    LostRun();
  }

  /** That is the case exactly when the copy at the chosen place is overwritten. */
  lemma ChosenClobbers(was: seq<seq<Cell>>, p: Ptr, s: nat, r: Ptr, n: nat)
    requires Chosen(was, r, n) && p.Small? && p.b < |was|
    ensures Clobbered(was, p, s, n) <==> r.Small? && r.b == p.b && Overwritten(was[p.b], p.c, s, r.c, n)
  {
    if Clobbered(was, p, s, n) {
      var d := p.c - n / 8;
      assert FreeFit(was[p.b], d, n);
      assert r.b < |was|;
      assert FreeFit(was[r.b], r.c, n);
    }
  }

  /** p has moved to r, a new payload in the first chunk that fits: p is gone, and all others
      are still live. The bytes of the others are as they were exactly when the backward
      size of p did not stray, and r starts with what p held exactly when the move does not
      lose part of it. Both conditions are about the heap before the move. */
  ghost predicate MovedTo(was: Snap, now: Snap, p: Ptr, s: nat, r: Ptr, n: nat)
  {
    && Chosen(was.blocks, r, n)
    && (forall t: nat :: !LiveIn(was.blocks, was.pages, r, t))
    && (exists t: nat :: t >= n && LiveIn(now.blocks, now.pages, r, t))
    && (forall q: Ptr, t: nat :: q != r ==> (LiveIn(now.blocks, now.pages, q, t) <==> q != p && LiveIn(was.blocks, was.pages, q, t)))
    && (SamePayloads(was, now, p) <==> !(p.Small? && p.b < |was.blocks| && Strays(was.blocks[p.b], p.c)))
    && (p != Null ==> (Payload(now.blocks, now.store, r, s) == Payload(was.blocks, was.store, p, s) <==> !Clobbered(was.blocks, p, s, n)))
  }

  /** The end of a move: now is before the old payload is freed, end after that. */
  lemma MoveEnds(was: Snap, now: Snap, end: Snap, p: Ptr, s: nat, r: Ptr, t: nat, n: nat)
    requires p != r && LiveIn(now.blocks, now.pages, r, t) && t >= n && Chosen(was.blocks, r, n)
    requires forall u: nat :: !LiveIn(was.blocks, was.pages, r, u)
    requires forall q: Ptr, u: nat :: q != r ==> (LiveIn(now.blocks, now.pages, q, u) <==> LiveIn(was.blocks, was.pages, q, u))
    requires forall q: Ptr, u: nat :: LiveIn(end.blocks, end.pages, q, u) <==> q != p && LiveIn(now.blocks, now.pages, q, u)
    requires SamePayloads(was, now, r)
    requires p != Null ==> Payload(now.blocks, now.store, r, s) == Payload(was.blocks, was.store, p, s)
    requires p.Small? ==> Copied(was, now, p, s, r, n) && p.c < |now.blocks[p.b]| && end.store == now.store
    requires p.Small? ==> end.blocks == now.blocks[p.b := FreeCells(now.blocks[p.b], p.c)]
    requires !p.Small? ==> end.blocks == now.blocks && end.store == if p.Page? then now.store - {p.id} else now.store
    ensures MovedTo(was, end, p, s, r, n)
  {
    hide Payload, SamePayloads, Overwritten, Strays, LiveIn, FreeCells, Chosen, FitsFirst;
    assert LiveIn(end.blocks, end.pages, r, t);
    if p.Small? {
      MoveSpares(was, now, p, s, r, n);
      MoveLands(was, now, p, s, r, n);
      ChosenClobbers(was.blocks, p, s, r, n);
      SameStore(was, AfterFree(now, p), end, p);
    } else {
      PageFreed(was, now, end, p, r, s);
    }
  }

  /** Page sizes do not matter to payloads. */
  lemma SameStore(was: Snap, now: Snap, end: Snap, p: Ptr)
    requires end.blocks == now.blocks && end.store == now.store
    ensures SamePayloads(was, end, p) <==> SamePayloads(was, now, p)
  {
    hide Payload, LiveIn;
  }

  lemma FilledSmall(was: seq<Cell>, now: seq<Cell>, d: nat, s: nat)
    requires SmallOnly(was) && Filled(was, now, d, s)
    ensures SmallOnly(now)
  {
    forall q: nat, t: nat {:trigger Allocated(now, q, t)} | Allocated(now, q, t) ensures 8 <= t <= PAGE_SIZE {
      assert Allocated(was, q, t);
    }
  }

  lemma FreedLive(was: seq<seq<Cell>>, now: seq<seq<Cell>>, pages: map<nat, u32>, b: nat, c: nat)
    requires b < |was| == |now| && Freed(was[b], now[b], c)
    requires forall i :: 0 <= i < |was| && i != b ==> now[i] == was[i]
    ensures forall q: Ptr, t: nat :: LiveIn(now, pages, q, t) <==> q != Small(b, c) && LiveIn(was, pages, q, t)
  {
    forall q: Ptr, t: nat ensures LiveIn(now, pages, q, t) <==> q != Small(b, c) && LiveIn(was, pages, q, t) {
      if q.Small? && q.b == b {
        assert Allocated(now[b], q.c, t) <==> q.c != c && Allocated(was[b], q.c, t);
      }
    }
  }

  lemma PagesUndisturbed(was: seq<seq<Cell>>, wasPages: map<nat, u32>, pages: map<nat, u32>, p: Ptr)
    requires p.Page? && p.id in pages && pages == wasPages[p.id := pages[p.id]]
    requires forall i :: 0 <= i < |was| ==> Block(was[i])
    ensures Undisturbed(was, wasPages, was, pages, p)
  {
    forall q: Ptr, t: nat | LiveIn(was, wasPages, q, t) ensures SameBytes(was, was, q, t) {
      if q.Small? {
        FreeSize(was[q.b], q.c);
      }
    }
  }

  lemma StartUndisturbed(mid: seq<seq<Cell>>, now: seq<seq<Cell>>, wasPages: map<nat, u32>, pages: map<nat, u32>, p: Ptr)
    requires |mid| == 1 && (forall q: nat, t: nat :: !Allocated(mid[0], q, t))
    requires Undisturbed(mid, wasPages, now, pages, p)
    ensures Undisturbed([], wasPages, now, pages, p)
  {
    forall q: Ptr, t: nat ensures LiveIn(mid, wasPages, q, t) <==> LiveIn([], wasPages, q, t) {
    }
  }

  lemma ChunkBounds(cells: seq<Cell>, c: nat, s: nat)
    requires Block(cells) && Allocated(cells, c, s)
    ensures s % 8 == 0 && s >= 8 && c + s / 8 < |cells| && cells[c].size == s + 1
  {
    FreeSize(cells, c);
    ChunkRoom(cells, c);
  }

  lemma SelfUndisturbed(was: seq<seq<Cell>>, pages: map<nat, u32>, p: Ptr)
    requires forall i :: 0 <= i < |was| ==> Block(was[i])
    ensures Undisturbed(was, pages, was, pages, p)
  {
    forall q: Ptr, t: nat | LiveIn(was, pages, q, t) ensures SameBytes(was, was, q, t) {
      if q.Small? {
        FreeSize(was[q.b], q.c);
      }
    }
  }

  lemma OnlyOne(was: seq<Cell>, now: seq<Cell>, size: nat)
    requires Taken(was, now, 1, size) && forall q: nat, t: nat :: !Allocated(was, q, t)
    ensures forall q: nat, t: nat :: Allocated(now, q, t) <==> q == 1 && t == size
  {
  }
}
