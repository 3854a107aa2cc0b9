/** Freeing a chunk whose backward size is stale: a run of the allocator that gets there,
    and what becomes of a payload that was moved just before. */
module Stray {
  import opened Heap

  // ----- runs of the allocator -----

  const Z := Cell(0, 0)

  /** A block as it comes from the page allocator: one free chunk. */
  function Fresh(): (r: seq<Cell>)
    ensures |r| == CELLS
  {
    seq(CELLS, _ => Z)[0 := Cell(0, BLOCK_SIZE)][1 := Cell(0, BLOCK_SIZE - 16)][CELLS - 1 := Cell(BLOCK_SIZE - 16, END_SIZE)]
  }

  /** n bytes are taken at c, the first chunk that fits. */
  ghost predicate Took(was: seq<Cell>, now: seq<Cell>, c: nat, n: u32)
  {
    TakenAt(was, now, c, n) && forall q :: 0 <= q < c ==> !FreeFit(was, q, n)
  }

  /** The chunk at c, of s bytes, is freed. */
  ghost predicate Gave(was: seq<Cell>, now: seq<Cell>, c: nat, s: nat)
  {
    Block(was) && Allocated(was, c, s) && now == FreeCells(was, c)
  }

  /** The headers of a block whose first chunks have 16, 16, 24 and 16 bytes; e is the
      backward size of the end header. All payloads are zero. */
  function Quad(h1: Cell, h3: Cell, h5: Cell, h8: Cell, h10: Cell, e: u32): (r: seq<Cell>)
    ensures |r| == CELLS
  {
    Fresh()[1 := h1][3 := h3][5 := h5][8 := h8][10 := h10][CELLS - 1 := Cell(e, END_SIZE)]
  }

  const FREE := BLOCK_SIZE - 88
  const TAKEN1: seq<Cell> := Quad(Cell(0, 17), Cell(16, FREE + 56), Z, Z, Z, FREE + 56)
  const TAKEN2: seq<Cell> := Quad(Cell(0, 17), Cell(16, 17), Cell(16, FREE + 40), Z, Z, FREE + 40)
  const TAKEN3: seq<Cell> := Quad(Cell(0, 17), Cell(16, 17), Cell(16, 25), Cell(24, FREE + 16), Z, FREE + 16)
  const TAKEN4: seq<Cell> := Quad(Cell(0, 17), Cell(16, 17), Cell(16, 25), Cell(24, 17), Cell(16, FREE), FREE)
  const FREED: seq<Cell> := Quad(Cell(0, 17), Cell(16, 16), Cell(16, 25), Cell(24, 17), Cell(16, FREE), FREE)

  /** The first two chunks have become one, which the third one does not know. */
  const JOINED: seq<Cell> := Quad(Cell(0, 32), Cell(16, 16), Cell(16, 25), Cell(24, 17), Cell(16, FREE), FREE)

  /** The joined chunk is in use again, and its owner has cleared its second word. */
  const CLEARED: seq<Cell> := Quad(Cell(0, 33), Z, Cell(16, 25), Cell(24, 17), Cell(16, FREE), FREE)

  lemma FirstTwo()
    ensures Block(Fresh()) && Block(TAKEN1) && Walks(TAKEN1, 1, 3)
  {
    assert Tiled(Fresh(), CELLS - 1, BLOCK_SIZE - 16);
    assert Tiled(TAKEN1, CELLS - 1, FREE + 56) && Tiled(TAKEN1, 3, 16);
  }

  lemma LastTwo()
    ensures Block(TAKEN2) && Walks(TAKEN2, 1, 5) && Block(TAKEN3) && Walks(TAKEN3, 1, 8)
  {
    assert Tiled(TAKEN2, CELLS - 1, FREE + 40) && Tiled(TAKEN2, 5, 16) && Tiled(TAKEN2, 3, 16);
    assert Walks(TAKEN2, 3, 5);
    assert Tiled(TAKEN3, CELLS - 1, FREE + 16) && Tiled(TAKEN3, 8, 24) && Tiled(TAKEN3, 5, 16) && Tiled(TAKEN3, 3, 16);
    assert Walks(TAKEN3, 5, 8) && Walks(TAKEN3, 3, 8);
  }

  /** No chunk before c fits. */
  ghost predicate NoneUnder(cells: seq<Cell>, c: nat, n: nat)
  {
    Block(cells) && Walks(cells, 1, c) && forall q :: 0 <= q < c ==> !FreeFit(cells, q, n)
  }

  lemma NoneAtFirst(cells: seq<Cell>, n: nat)
    requires Block(cells)
    ensures NoneUnder(cells, 1, n)
  {
    WalkForward(cells, 1, 0);
  }

  /** On to the next chunk, h being the header of one that is in use. */
  lemma NoneNext(cells: seq<Cell>, c: nat, h: Cell, n: nat)
    requires NoneUnder(cells, c, n) && c < |cells| - 1 && cells[c] == h && (InUse(h) || Mask(h.size) < n)
    ensures NoneUnder(cells, c + Mask(h.size) / 8, n)
  {
    hide Block, Walks;
    FreeSize(cells, c);
    StepOn(cells, 1, c);
    forall q | c <= q < Next(cells, c) ensures !FreeFit(cells, q, n) {
      NoneBetween(cells, c, q, n);
    }
  }

  /** The run up to four chunks. */
  lemma QuadTakes()
    ensures Took(Fresh(), TAKEN1, 1, 16) && Took(TAKEN1, TAKEN2, 3, 16) && Took(TAKEN2, TAKEN3, 5, 24) && Took(TAKEN3, TAKEN4, 8, 16)
  {
    hide Tiled, Walks, Block, Quad, Cut, NoneUnder;
    FirstTwo();
    LastTwo();
    QuadCells();
    FreshUnder(16);
    TookAt(Fresh(), 1, 16, BLOCK_SIZE - 16);
    QuadUnder(TAKEN1, 3, 16);
    QuadUnder(TAKEN2, 5, 24);
    QuadUnder(TAKEN3, 8, 16);
    TookAt(TAKEN1, 3, 16, FREE + 56);
    TookAt(TAKEN2, 5, 24, FREE + 40);
    TookAt(TAKEN3, 8, 16, FREE + 16);
  }

  /** The first chunks are in use. */
  lemma QuadUnder(cells: seq<Cell>, c: nat, n: nat)
    requires Block(cells) && |cells| == CELLS && (c == 3 || c == 5 || c == 8) && cells[1] == Cell(0, 17)
    requires c >= 5 ==> cells[3] == Cell(16, 17)
    requires c == 8 ==> cells[5] == Cell(16, 25)
    ensures NoneUnder(cells, c, n)
  {
    hide Block, NoneUnder;
    NoneAtFirst(cells, n);
    NoneNext(cells, 1, Cell(0, 17), n);
    if c >= 5 {
      NoneNext(cells, 3, Cell(16, 17), n);
    }
    if c == 8 {
      NoneNext(cells, 5, Cell(16, 25), n);
    }
  }

  lemma TookAt(was: seq<Cell>, c: nat, n: u32, size: u32)
    requires NoneUnder(was, c, n) && c < |was| - 1 && was[c].size == size && size % 8 == 0 && 8 <= n < size && n % 8 == 0
    ensures c + size / 8 < |was| && Took(was, Cut(was, c, size, n), c, n)
  {
    hide Tiled, Walks, Cut;
    FreeSize(was, c);
    TakeRoom(was, c, n);
  }

  lemma QuadCells()
    ensures TAKEN1[1] == TAKEN2[1] == TAKEN3[1] == Cell(0, 17) && TAKEN2[3] == TAKEN3[3] == Cell(16, 17) && TAKEN3[5] == Cell(16, 25)
    ensures TAKEN1[3] == Cell(16, FREE + 56) && TAKEN2[5] == Cell(16, FREE + 40) && TAKEN3[8] == Cell(24, FREE + 16)
    ensures Fresh()[1] == Cell(0, BLOCK_SIZE - 16) && Cut(Fresh(), 1, BLOCK_SIZE - 16, 16) == TAKEN1
    ensures Cut(TAKEN1, 3, FREE + 56, 16) == TAKEN2 && Cut(TAKEN2, 5, FREE + 40, 24) == TAKEN3 && Cut(TAKEN3, 8, FREE + 16, 16) == TAKEN4
  {
  }

  /** The second and the first are freed. */
  lemma QuadJoins()
    ensures Gave(TAKEN4, FREED, 3, 16) && Gave(FREED, JOINED, 1, 16)
  {
    FourAllocated();
    FirstAllocated();
    assert Release(TAKEN4, 3) == FREED && Forward(FREED, 3) == FREED && Backward(FREED, 3) == FREED;
    assert Release(FREED, 1) == FREED[1 := Cell(0, 16)];
    assert Forward(FREED[1 := Cell(0, 16)], 1) == JOINED && Backward(JOINED, 1) == JOINED;
  }

  lemma FourAllocated()
    ensures Block(TAKEN4) && Allocated(TAKEN4, 3, 16)
  {
    assert Tiled(TAKEN4, CELLS - 1, FREE) && Tiled(TAKEN4, 10, 16) && Tiled(TAKEN4, 8, 24) && Tiled(TAKEN4, 5, 16) && Tiled(TAKEN4, 3, 16);
  }

  lemma FirstAllocated()
    ensures Block(FREED) && Allocated(FREED, 1, 16)
  {
    assert Tiled(FREED, CELLS - 1, FREE) && Tiled(FREED, 10, 16) && Tiled(FREED, 8, 24) && Tiled(FREED, 5, 16) && Tiled(FREED, 3, 16);
  }

  /** The joined chunk is free and the first that fits 32 bytes. */
  lemma JoinedChunks()
    ensures Block(JOINED) && Allocated(JOINED, 5, 24) && FreeFit(JOINED, 1, 32)
    ensures forall q :: 0 <= q < 1 ==> !FreeFit(JOINED, q, 32)
  {
    assert Tiled(JOINED, CELLS - 1, FREE) && Tiled(JOINED, 10, 16) && Tiled(JOINED, 8, 24) && Tiled(JOINED, 5, 16);
    assert Next(JOINED, 1) == 5 && Walks(JOINED, 5, 5);
    NoneAtFirst(JOINED, 32);
  }

  lemma ClearedChunks()
    ensures Block(CLEARED) && Allocated(CLEARED, 1, 32) && Allocated(CLEARED, 5, 24) && UsedBefore(CLEARED, 1, 5)
  {
    assert Tiled(CLEARED, CELLS - 1, FREE) && Tiled(CLEARED, 10, 16) && Tiled(CLEARED, 8, 24) && Tiled(CLEARED, 5, 16);
    assert Next(CLEARED, 1) == 5 && Walks(CLEARED, 5, 5);
  }

  lemma ClearedFreed()
    ensures CLEARED[3] == Z && FreeCells(CLEARED, 5)[3] == Cell(0, 24)
  {
    assert Release(CLEARED, 5) == CLEARED[5 := Cell(16, 24)];
    assert Forward(Release(CLEARED, 5), 5) == Release(CLEARED, 5);
  }

  /** A run on a new block: 16, 16, 24 and 16 bytes are taken, the second and the first are
      freed, 32 bytes are taken, where the two were, and their owner clears a word. The chunk
      of 32 bytes is live then, and freeing the third one overwrites that word. */
  lemma StrayRun()
    ensures Took(Fresh(), TAKEN1, 1, 16) && Took(TAKEN1, TAKEN2, 3, 16) && Took(TAKEN2, TAKEN3, 5, 24) && Took(TAKEN3, TAKEN4, 8, 16)
    ensures Gave(TAKEN4, FREED, 3, 16) && Gave(FREED, JOINED, 1, 16)
    ensures Took(JOINED, Mark(JOINED, 1), 1, 32) && CLEARED == Mark(JOINED, 1)[3 := Z]
    ensures Block(CLEARED) && Allocated(CLEARED, 1, 32) && Allocated(CLEARED, 5, 24) && Strays(CLEARED, 5)
    ensures CLEARED[3] == Z && FreeCells(CLEARED, 5)[3] == Cell(0, 24)
  {
    hide Block, Walks, Tiled, Took, Gave, FreeCells;
    QuadTakes();
    QuadJoins();
    JoinedTaken();
    ClearedChunks();
    ClearedFreed();
  }

  lemma JoinedTaken()
    ensures Took(JOINED, Mark(JOINED, 1), 1, 32) && CLEARED == Mark(JOINED, 1)[3 := Z]
  {
    hide Block, Walks, Tiled;
    JoinedChunks();
    TakeRoom(JOINED, 1, 32);
  }


  // ----- a payload that moves within its block -----

  /** The block after n bytes at d have been taken and the first s of them filled: only
      cells behind d have changed once more. */
  ghost predicate Filled(mid: seq<Cell>, now: seq<Cell>, d: nat, s: nat)
  {
    && Block(now) && |now| == |mid|
    && (forall q: nat, t: nat {:trigger Allocated(now, q, t)} :: Allocated(now, q, t) <==> Allocated(mid, q, t))
    && forall i {:trigger now[i]} :: 0 <= i < |mid| && !(d < i <= d + s / 8) ==> now[i] == mid[i]
  }

  /** A chunk of s bytes at c, and the larger new one at d that its payload is copied to. */
  ghost predicate Moving(was: seq<Cell>, mid: seq<Cell>, now: seq<Cell>, c: nat, s: nat, d: nat, n: u32)
  {
    && Block(was) && Allocated(was, c, s) && 8 <= s < n && s % 8 == 0
    && TakenAt(was, mid, d, n) && Taken(was, mid, d, n) && Filled(mid, now, d, s)
  }

  /** Taking a chunk leaves alone the header behind a live one. */
  lemma HeaderKept(was: seq<Cell>, mid: seq<Cell>, d: nat, n: u32, q: nat, t: nat, c: nat, s: nat)
    requires TakenAt(was, mid, d, n) && Allocated(was, q, t) && Allocated(was, c, s) && q + t / 8 == c
    ensures mid[c] == was[c]
  {
    TakeRoom(was, d, n);
    FreeSize(was, q);
    if was[d].size != n {
      CutRest(was, d, was[d].size, n, s);
      if c == Next(was, d) {
        if q < d {
          ChunksApart(was, q, d);
        } else {
          ChunksApart(was, d, q);
        }
      }
    }
  }

  /** A chunk taken directly before a live one has used up its free chunk. */
  lemma TakenBefore(was: seq<Cell>, mid: seq<Cell>, d: nat, n: u32, c: nat, s: nat)
    requires TakenAt(was, mid, d, n) && Taken(was, mid, d, n) && Allocated(was, c, s) && d + n / 8 == c
    ensures mid[c] == was[c]
  {
    TakeRoom(was, d, n);
    if was[d].size != n {
      CutRest(was, d, was[d].size, n, s);
    }
  }

  /** The new payload lies behind d, before any other chunk. */
  lemma NotFilled(was: seq<Cell>, mid: seq<Cell>, now: seq<Cell>, c: nat, s: nat, d: nat, n: u32, q: nat, t: nat, i: nat)
    requires Moving(was, mid, now, c, s, d, n) && Allocated(was, q, t) && q <= i < q + t / 8
    ensures i < |mid| && now[i] == mid[i]
  {
    TakeRoom(was, d, n);
    assert Allocated(mid, q, t) && Allocated(mid, d, n);
    FreeSize(mid, q);
    FreeSize(mid, d);
    if q < d {
      ChunksApart(mid, q, d);
    } else {
      ChunksApart(mid, d, q);
    }
  }

  /** The payload of a live chunk before anything is freed. */
  lemma PayloadSame(was: seq<Cell>, mid: seq<Cell>, now: seq<Cell>, c: nat, s: nat, d: nat, n: u32, q: nat, t: nat, i: nat)
    requires Moving(was, mid, now, c, s, d, n) && Allocated(was, q, t) && q < i < q + t / 8
    ensures i < |was| == |now| && now[i] == was[i]
  {
    NotFilled(was, mid, now, c, s, d, n, q, t, i);
    assert q != d && Agree(was, mid, q + 1, q + t / 8);
  }

  lemma StillThere(was: seq<Cell>, mid: seq<Cell>, now: seq<Cell>, c: nat, s: nat, d: nat, n: u32)
    requires Moving(was, mid, now, c, s, d, n)
    ensures Allocated(now, c, s) && Allocated(now, d, n) && c != d && |now| == |was| && now[c] == mid[c]
  {
    assert Allocated(mid, c, s) && Allocated(mid, d, n);
    FreeSize(was, c);
    NotFilled(was, mid, now, c, s, d, n, c, s, c);
  }

  /** If the backward size of c leads into the live chunk q, it led there before the move
      as well. */
  lemma LedBefore(was: seq<Cell>, mid: seq<Cell>, now: seq<Cell>, c: nat, s: nat, d: nat, n: u32, q: nat, t: nat, i: nat)
    requires Moving(was, mid, now, c, s, d, n) && Allocated(was, q, t) && q != c && q < i < q + t / 8
    requires c < |now| && now[c].prev != 0 && i == Back(now, c) && !InUse(now[i])
    ensures Strays(was, c)
  {
    StillThere(was, mid, now, c, s, d, n);
    assert Allocated(mid, q, t) && Allocated(now, q, t);
    LeadsInto(now, c, s, q, t, i);
    HeaderKept(was, mid, d, n, q, t, c, s);
    PayloadSame(was, mid, now, c, s, d, n, q, t, i);
    FreeSize(was, q);
    assert UsedBefore(was, q, c);
  }

  /** What the backward size leads into is the chunk before. */
  lemma LeadsInto(cells: seq<Cell>, c: nat, s: nat, q: nat, t: nat, i: nat)
    requires Block(cells) && Allocated(cells, c, s) && Allocated(cells, q, t) && q != c && q < i < q + t / 8
    requires cells[c].prev != 0 && i == Back(cells, c)
    ensures q + t / 8 == c
  {
    var h := HeaderBefore(cells, c);
    if q < h {
      ChunksApart(cells, q, h);
    } else if h < q {
      ChunksApart(cells, h, q);
    }
  }

  /** Freeing the old chunk after the move leaves every other live payload as it was before
      the move exactly when its backward size did not stray then. */
  lemma MoveKeeps(was: seq<Cell>, mid: seq<Cell>, now: seq<Cell>, c: nat, s: nat, d: nat, n: u32)
    requires Moving(was, mid, now, c, s, d, n)
    ensures c < |now| && (PayloadsKept(was, FreeCells(now, c), c) <==> !Strays(was, c))
  {
    StillThere(was, mid, now, c, s, d, n);
    if Strays(was, c) {
      MoveStrays(was, mid, now, c, s, d, n);
    } else {
      forall q: nat, t: nat {:trigger Allocated(was, q, t)} | q != c && Allocated(was, q, t)
        ensures Agree(was, FreeCells(now, c), q + 1, q + t / 8)
      {
        FreeSize(was, q);
        forall i | q + 1 <= i < q + t / 8 ensures FreeCells(now, c)[i] == was[i] {
          PayloadSame(was, mid, now, c, s, d, n, q, t, i);
          PayloadCell(was, c, q, t, i);
          if now[c].prev != 0 && i == Back(now, c) && !InUse(now[i]) {
            LedBefore(was, mid, now, c, s, d, n, q, t, i);
          }
          FreeEffect(now, c, s, i);
        }
      }
    }
  }

  lemma MoveStrays(was: seq<Cell>, mid: seq<Cell>, now: seq<Cell>, c: nat, s: nat, d: nat, n: u32)
    requires Moving(was, mid, now, c, s, d, n) && Strays(was, c)
    ensures c < |now| && !PayloadsKept(was, FreeCells(now, c), c)
  {
    StillThere(was, mid, now, c, s, d, n);
    var h := HeaderBefore(was, c);
    StrayChanges(was, c, s, h);
    var t, b: nat := Mask(was[h].size), Back(was, c);
    HeaderKept(was, mid, d, n, h, t, c, s);
    PayloadSame(was, mid, now, c, s, d, n, h, t, b);
    FreeEffect(now, c, s, b);
    assert FreeCells(now, c)[b] != was[b] && Allocated(was, h, t);
  }

  /** The chunk taken at d ends where c begins, and the backward size of c leads to a word
      of what has been copied there whose low bit is clear. */
  ghost predicate Overwritten(was: seq<Cell>, c: nat, s: nat, d: nat, n: nat)
  {
    && d + n / 8 == c < |was| && c + s / 8 <= |was| && was[c].prev != 0
    && d < Back(was, c) < d + s / 8 && !InUse(was[c + Back(was, c) - d])
  }

  /** The payload of the chunk at c, of s bytes, stands at d. */
  ghost predicate CopiedBytes(was: seq<Cell>, now: seq<Cell>, c: nat, d: nat, s: nat)
  {
    c + s / 8 <= |was| && d + s / 8 <= |now| && forall i {:trigger was[i]} :: c < i < c + s / 8 ==> now[d + i - c] == was[i]
  }

  /** The new payload keeps what was copied to it exactly when freeing the old one does not
      overwrite it. */
  lemma MoveCarries(was: seq<Cell>, mid: seq<Cell>, now: seq<Cell>, c: nat, s: nat, d: nat, n: u32)
    requires Moving(was, mid, now, c, s, d, n) && CopiedBytes(was, now, c, d, s)
    ensures c < |now| && (CopiedBytes(was, FreeCells(now, c), c, d, s) <==> !Overwritten(was, c, s, d, n))
  {
    StillThere(was, mid, now, c, s, d, n);
    FreeSize(now, d);
    if Overwritten(was, c, s, d, n) {
      TakenBefore(was, mid, d, n, c, s);
      var b: nat := Back(was, c);
      FreeEffect(now, c, s, b);
      assert now[b] == was[c + b - d];
      assert FreeCells(now, c)[d + (c + b - d) - c] != was[c + b - d];
    } else {
      forall i {:trigger was[i]} | c < i < c + s / 8 ensures FreeCells(now, c)[d + i - c] == was[i] {
        CarriedCell(was, mid, now, c, s, d, n, i);
      }
    }
  }

  lemma CarriedCell(was: seq<Cell>, mid: seq<Cell>, now: seq<Cell>, c: nat, s: nat, d: nat, n: u32, i: nat)
    requires Moving(was, mid, now, c, s, d, n) && CopiedBytes(was, now, c, d, s)
    requires !Overwritten(was, c, s, d, n) && c < i < c + s / 8
    ensures c < |now| && i < |was| && d + i - c < |now| && FreeCells(now, c)[d + i - c] == was[i]
  {
    StillThere(was, mid, now, c, s, d, n);
    FreeSize(now, d);
    var x := d + i - c;
    PayloadCell(now, c, d, n, x);
    if now[c].prev != 0 && x == Back(now, c) {
      LeadsInto(now, c, s, d, n, x);
      TakenBefore(was, mid, d, n, c, s);
    }
    FreeEffect(now, c, s, x);
  }

  /** So where the backward size leads to the header before, as it does until a chunk is
      freed, nothing is overwritten. */
  lemma ExactCarries(was: seq<Cell>, c: nat, s: nat, d: nat, n: nat)
    requires Block(was) && Allocated(was, c, s) && FreeFit(was, d, n)
    requires was[c].prev != 0 ==> 0 <= Back(was, c) && Walks(was, 1, Back(was, c))
    ensures !Overwritten(was, c, s, d, n) && !Strays(was, c)
  {
    hide Block;
    if was[c].prev != 0 {
      var h := HeaderBefore(was, c);
      if Strays(was, c) {
        StrayChanges(was, c, s, h);
      }
      if d < h {
        ChunksApart(was, d, h);
      }
    }
  }

  // ----- a move that loses part of what it copied -----

  /** The joined block after the payload of the third chunk, and the byte behind it, have been
      copied to a new chunk of 32 bytes. */
  const COPIED: seq<Cell> := CLEARED[4 := Cell(24, 0)]

  lemma CopyMoves()
    ensures Moving(JOINED, Mark(JOINED, 1), COPIED, 5, 24, 1, 32) && CopiedBytes(JOINED, COPIED, 5, 1, 24)
  {
    hide Block, Walks, Tiled, Allocated;
    JoinedChunks();
    JoinedTaken();
    MarkBlock(JOINED, 1);
    var mid := Mark(JOINED, 1);
    OffHeader(mid, 1, 3);
    OffHeader(mid, 1, 4);
    forall q: nat, t: nat {:trigger Allocated(COPIED, q, t)} ensures Block(COPIED) && (Allocated(COPIED, q, t) <==> Allocated(mid, q, t)) {
      OffWalkBlock(mid, 3, Z, q, t);
      OffHeader(mid[3 := Z], 1, 4);
      OffWalkBlock(mid[3 := Z], 4, Cell(24, 0), q, t);
    }
    assert Allocated(COPIED, 1, 32) <==> Allocated(mid, 1, 32);
  }

  /** There is no header inside a chunk. */
  lemma OffHeader(cells: seq<Cell>, c: nat, x: nat)
    requires Block(cells) && Walks(cells, 1, c) && c < x < |cells| && c < |cells| - 1 && x < Next(cells, c)
    ensures !Walks(cells, 1, x)
  {
    if Walks(cells, 1, x) {
      ChunksApart(cells, c, x);
    }
  }

  /** In the joined block the third chunk cannot grow to 32 bytes where it is. The first free
      chunk that fits is the one before it, and moving there turns the second word of its
      contents, which was zero, into its old size. */
  lemma LostRun()
    ensures Block(JOINED) && Allocated(JOINED, 5, 24) && !FitsInPlace(JOINED, 5, 24, 32)
    ensures FreeFit(JOINED, 1, 32) && (forall q :: 0 <= q < 1 ==> !FreeFit(JOINED, q, 32)) && Overwritten(JOINED, 5, 24, 1, 32)
    ensures Moving(JOINED, Mark(JOINED, 1), COPIED, 5, 24, 1, 32) && CopiedBytes(JOINED, COPIED, 5, 1, 24)
    ensures JOINED[7] == Z && FreeCells(COPIED, 5)[3] == Cell(0, 24) && !CopiedBytes(JOINED, FreeCells(COPIED, 5), 5, 1, 24)
  {
    hide Block, Walks, Tiled, Moving;
    JoinedChunks();
    CopyMoves();
    MoveCarries(JOINED, Mark(JOINED, 1), COPIED, 5, 24, 1, 32);
    assert Release(COPIED, 5) == COPIED[5 := Cell(16, 24)];
    assert Forward(Release(COPIED, 5), 5) == Release(COPIED, 5);
  }

  // ----- a copy of equal size that breaks the block -----

  /** A block after 16, 248 and 16 bytes have been taken, the second and the first freed, and
      264 bytes taken where they were, and once more behind the others. */
  function Twins(h1: Cell, h3: Cell, h34: Cell, h36: Cell, h69: Cell, e: u32): (r: seq<Cell>)
    ensures |r| == CELLS
  {
    Fresh()[1 := h1][3 := h3][34 := h34][36 := h36][69 := h69][CELLS - 1 := Cell(e, END_SIZE)]
  }

  const ROOM := BLOCK_SIZE - 560
  const PAIR1: seq<Cell> := Twins(Cell(0, 17), Cell(16, ROOM + 528), Z, Z, Z, ROOM + 528)
  const PAIR2: seq<Cell> := Twins(Cell(0, 17), Cell(16, 249), Cell(248, ROOM + 280), Z, Z, ROOM + 280)
  const PAIR3: seq<Cell> := Twins(Cell(0, 17), Cell(16, 249), Cell(248, 17), Cell(16, ROOM + 264), Z, ROOM + 264)
  const PAIR4: seq<Cell> := Twins(Cell(0, 17), Cell(16, 248), Cell(248, 17), Cell(16, ROOM + 264), Z, ROOM + 264)
  const PAIR5: seq<Cell> := Twins(Cell(0, 264), Cell(16, 248), Cell(248, 17), Cell(16, ROOM + 264), Z, ROOM + 264)
  const PAIR6: seq<Cell> := Twins(Cell(0, 265), Cell(16, 248), Cell(248, 17), Cell(16, ROOM + 264), Z, ROOM + 264)
  const PAIR7: seq<Cell> := Twins(Cell(0, 265), Cell(16, 248), Cell(248, 17), Cell(16, 265), Cell(264, ROOM), ROOM)

  lemma TwinsCut()
    ensures Block(PAIR1) && Walks(PAIR1, 1, 3) && Block(PAIR2) && Walks(PAIR2, 1, 34)
  {
    assert Tiled(PAIR1, CELLS - 1, ROOM + 528) && Tiled(PAIR1, 3, 16);
    assert Tiled(PAIR2, CELLS - 1, ROOM + 280) && Tiled(PAIR2, 34, 248) && Tiled(PAIR2, 3, 16) && Walks(PAIR2, 3, 34);
  }

  lemma TwinsFreed()
    ensures Block(PAIR3) && Allocated(PAIR3, 3, 248) && Block(PAIR4) && Allocated(PAIR4, 1, 16)
  {
    assert Tiled(PAIR3, CELLS - 1, ROOM + 264) && Tiled(PAIR3, 36, 16) && Tiled(PAIR3, 34, 248) && Tiled(PAIR3, 3, 16);
    assert Tiled(PAIR4, CELLS - 1, ROOM + 264) && Tiled(PAIR4, 36, 16) && Tiled(PAIR4, 34, 248) && Tiled(PAIR4, 3, 16);
  }

  lemma TwinChunks()
    ensures Block(PAIR5) && FreeFit(PAIR5, 1, 264) && Block(PAIR6) && Allocated(PAIR6, 1, 264) && Walks(PAIR6, 1, 36)
    ensures Walks(PAIR6, 1, 34) && Block(PAIR7) && Allocated(PAIR7, 1, 264) && Allocated(PAIR7, 36, 264)
  {
    assert Tiled(PAIR5, CELLS - 1, ROOM + 264) && Tiled(PAIR5, 36, 16) && Tiled(PAIR5, 34, 264);
    assert Tiled(PAIR6, CELLS - 1, ROOM + 264) && Tiled(PAIR6, 36, 16) && Tiled(PAIR6, 34, 264);
    assert Walks(PAIR6, 34, 36) && Walks(PAIR6, 34, 34) && Next(PAIR6, 1) == 34;
    assert Tiled(PAIR7, CELLS - 1, ROOM) && Tiled(PAIR7, 69, 264) && Tiled(PAIR7, 36, 16) && Tiled(PAIR7, 34, 264);
    assert Walks(PAIR7, 36, 36) && Walks(PAIR7, 34, 36) && Next(PAIR7, 1) == 34;
  }

  lemma TwinCells()
    ensures PAIR7[34].prev == 248 && PAIR7[69].prev == 264 && PAIR7[1].size == 265
    ensures PAIR1[3] == Cell(16, ROOM + 528) && PAIR2[34] == Cell(248, ROOM + 280) && PAIR6[36] == Cell(16, ROOM + 264)
    ensures PAIR1[1] == PAIR2[1] == Cell(0, 17) && PAIR2[3] == Cell(16, 249) && PAIR6[1] == Cell(0, 265) && PAIR6[34] == Cell(248, 17)
    ensures Cut(PAIR1, 3, ROOM + 528, 248) == PAIR2 && Cut(PAIR2, 34, ROOM + 280, 16) == PAIR3 && Cut(PAIR6, 36, ROOM + 264, 264) == PAIR7
    ensures PAIR5[1] == Cell(0, 264) && Mark(PAIR5, 1) == PAIR6
    ensures Fresh()[1] == Cell(0, BLOCK_SIZE - 16) && Cut(Fresh(), 1, BLOCK_SIZE - 16, 16) == PAIR1
  {
  }

  lemma TwinFrees()
    ensures Gave(PAIR3, PAIR4, 3, 248) && Gave(PAIR4, PAIR5, 1, 16)
  {
    TwinsCut();
    TwinsFreed();
    assert Release(PAIR3, 3) == PAIR4 && Forward(PAIR4, 3) == PAIR4 && Backward(PAIR4, 3) == PAIR4;
    assert Release(PAIR4, 1) == PAIR4[1 := Cell(0, 16)];
    assert Forward(PAIR4[1 := Cell(0, 16)], 1) == PAIR5 && Backward(PAIR5, 1) == PAIR5;
  }

  /** The headers up to c are those of chunks in use. */
  lemma TwinUnder()
    ensures NoneUnder(PAIR1, 3, 248) && NoneUnder(PAIR2, 34, 16) && NoneUnder(PAIR5, 1, 264) && NoneUnder(PAIR6, 36, 264)
  {
    hide Block, Walks, Tiled, Twins, NoneUnder;
    TwinsCut();
    TwinsFreed();
    TwinChunks();
    TwinCells();
    NoneAtFirst(PAIR1, 248);
    NoneNext(PAIR1, 1, Cell(0, 17), 248);
    NoneAtFirst(PAIR2, 16);
    NoneNext(PAIR2, 1, Cell(0, 17), 16);
    NoneNext(PAIR2, 3, Cell(16, 249), 16);
    NoneAtFirst(PAIR5, 264);
    NoneAtFirst(PAIR6, 264);
    NoneNext(PAIR6, 1, Cell(0, 265), 264);
    NoneNext(PAIR6, 34, Cell(248, 17), 264);
  }

  /** A run that ends with a chunk of 264 bytes that cannot stay where it is when it is resized
      to its own size, and with its new place; both headers behind have their backward size. */
  lemma TwinRun()
    ensures Took(Fresh(), PAIR1, 1, 16) && Took(PAIR1, PAIR2, 3, 248) && Took(PAIR2, PAIR3, 34, 16)
    ensures Gave(PAIR3, PAIR4, 3, 248) && Gave(PAIR4, PAIR5, 1, 16) && Took(PAIR5, PAIR6, 1, 264)
    ensures Block(PAIR6) && Allocated(PAIR6, 1, 264) && !FitsInPlace(PAIR6, 1, 264, 264) && Took(PAIR6, PAIR7, 36, 264)
    ensures Block(PAIR7) && Allocated(PAIR7, 1, 264) && Allocated(PAIR7, 36, 264) && PAIR7[34].prev == 248 && PAIR7[69].prev == 264 && PAIR7[1].size == 265
  {
    hide Block, Walks, Tiled, Took, Gave, Twins;
    TwinTakes();
    TwinFrees();
    TwinChunks();
    TwinCells();
  }

  lemma TwinTakes()
    ensures Took(Fresh(), PAIR1, 1, 16) && Took(PAIR1, PAIR2, 3, 248) && Took(PAIR2, PAIR3, 34, 16)
    ensures Took(PAIR5, PAIR6, 1, 264) && Took(PAIR6, PAIR7, 36, 264)
  {
    hide Block, Walks, Tiled, NoneUnder, Cut, Took, Twins;
    TwinChunks();
    TwinCells();
    TwinUnder();
    FreshUnder(16);
    TookAt(Fresh(), 1, 16, BLOCK_SIZE - 16);
    TookAt(PAIR1, 3, 248, ROOM + 528);
    TookAt(PAIR2, 34, 16, ROOM + 280);
    TookAt(PAIR6, 36, 264, ROOM + 264);
    TookAll(PAIR5, 1, 264);
  }

  lemma FreshUnder(n: nat)
    ensures NoneUnder(Fresh(), 1, n)
  {
    FirstTwo();
    LastTwo();
    NoneAtFirst(Fresh(), n);
  }

  lemma TookAll(was: seq<Cell>, c: nat, n: u32)
    requires NoneUnder(was, c, n) && FreeFit(was, c, n) && was[c].size == n && 8 <= n && n % 8 == 0
    ensures n < END_SIZE && Took(was, Mark(was, c), c, n)
  {
    hide Tiled, Walks;
    TakeRoom(was, c, n);
  }
}
