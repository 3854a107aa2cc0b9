/** Two implementations of the pseudo-random generator of Appendix A.2.4 of ANSI X9.31,
    one over fixed buffers and one over immutable strings, and the stream both produce.
    AES is any function from a key and a block to a block. */
module Prng {
  import opened Arithmetic
  import opened Opcodes

  const BLOCK_SIZE := 16

  type block = s: seq<byte> | |s| == 16 witness seq(16, _ => 0)
  type Cipher = (block, block) -> block

  // ----- bytes -----

  function XorBits(a: nat, b: nat, n: nat): nat
  {
    if n == 0 then 0 else (if a % 2 != b % 2 then 1 else 0) + 2 * XorBits(a / 2, b / 2, n - 1)
  }

  function Power2(n: nat): nat { if n == 0 then 1 else 2 * Power2(n - 1) }

  lemma {:induction false} XorBound(a: nat, b: nat, n: nat)
    ensures XorBits(a, b, n) < Power2(n)
    decreases n
  {
    if n > 0 {
      XorBound(a / 2, b / 2, n - 1);
    }
  }

  lemma {:induction false} XorSwap(a: nat, b: nat, n: nat)
    ensures XorBits(a, b, n) == XorBits(b, a, n)
    decreases n
  {
    if n > 0 {
      XorSwap(a / 2, b / 2, n - 1);
    }
  }

  /** Exclusive or of two bytes. */
  function XorByte(a: byte, b: byte): byte
  {
    XorBound(a, b, 8);
    assert Power2(8) == 256;
    XorBits(a, b, 8)
  }

  function Xor(a: block, b: block): block
  {
    seq(16, i requires 0 <= i < 16 => XorByte(a[i], b[i]))
  }

  lemma XorCommutes(a: block, b: block)
    ensures Xor(a, b) == Xor(b, a)
  {
    forall i | 0 <= i < 16 ensures XorByte(a[i], b[i]) == XorByte(b[i], a[i]) {
      XorSwap(a[i], b[i], 8);
    }
  }

  // ----- it is the exclusive or -----

  /** Bit k of a number. */
  predicate IsSet(n: nat, k: nat)
    requires Power2(k) > 0
  {
    (n / Power2(k)) % 2 == 1
  }

  lemma {:induction false} PowerPositive(k: nat)
    ensures Power2(k) > 0
    decreases k
  {
    if k > 0 {
      PowerPositive(k - 1);
    }
  }

  lemma {:induction false} XorBit(a: nat, b: nat, n: nat, k: nat)
    requires k < n
    ensures Power2(k) > 0 && (IsSet(XorBits(a, b, n), k) <==> IsSet(a, k) != IsSet(b, k))
    decreases n
  {
    PowerPositive(k);
    if k > 0 {
      var x := XorBits(a, b, n);
      XorBit(a / 2, b / 2, n - 1, k - 1);
      Halved(x, Power2(k - 1));
      Halved(a, Power2(k - 1));
      Halved(b, Power2(k - 1));
      assert x / 2 == XorBits(a / 2, b / 2, n - 1);
    }
  }

  /** Each bit is set when it is set in one of the two bytes and not in the other. */
  lemma XorByteBit(a: byte, b: byte, k: nat)
    requires k < 8
    ensures Power2(k) > 0 && (IsSet(XorByte(a, b), k) <==> IsSet(a, k) != IsSet(b, k))
  {
    XorBit(a, b, 8, k);
  }

  lemma {:induction false} XorBitsBack(a: nat, b: nat, n: nat)
    requires a < Power2(n)
    ensures XorBits(XorBits(a, b, n), b, n) == a
    decreases n
  {
    if n > 0 {
      XorBitsBack(a / 2, b / 2, n - 1);
    }
  }

  /** Adding the same block again gives the first one back. */
  lemma XorBack(a: block, b: block)
    ensures Xor(Xor(a, b), b) == a
  {
    forall i | 0 <= i < 16 ensures XorByte(XorByte(a[i], b[i]), b[i]) == a[i] {
      assert Power2(8) == 256;
      XorBitsBack(a[i], b[i], 8);
    }
  }

  // ----- the date/time vector as a number -----

  /** The number that the bytes write in base 256, most significant first. */
  function Value(dt: seq<byte>): nat
  {
    if dt == [] then 0 else 256 * Value(dt[..|dt| - 1]) + dt[|dt| - 1]
  }

  function Power256(n: nat): nat { if n == 0 then 1 else 256 * Power256(n - 1) }

  /** The vector for the next block. */
  function Succ(dt: seq<byte>): (r: seq<byte>)
    ensures |r| == |dt|
  {
    if dt == [] then []
    else if dt[|dt| - 1] < 255 then dt[..|dt| - 1] + [dt[|dt| - 1] + 1]
    else Succ(dt[..|dt| - 1]) + [0]
  }

  /** It is the next number, wrapping to zero after the last. */
  lemma {:induction false} SuccIsNext(dt: seq<byte>)
    ensures Value(dt) < Power256(|dt|)
    ensures Value(Succ(dt)) == if Value(dt) + 1 == Power256(|dt|) then 0 else Value(dt) + 1
    decreases dt
  {
    if dt != [] {
      var rest, last := dt[..|dt| - 1], dt[|dt| - 1];
      SuccIsNext(rest);
      var s := Succ(dt);
      assert s[..|s| - 1] == if last < 255 then rest else Succ(rest);
    }
  }

  /** The largest number is the one all of whose bytes are 255. */
  lemma {:induction false} FullIsLast(dt: seq<byte>)
    requires forall i :: 0 <= i < |dt| ==> dt[i] == 255
    ensures Value(dt) + 1 == Power256(|dt|)
    decreases dt
  {
    if dt != [] {
      FullIsLast(dt[..|dt| - 1]);
    }
  }

  // ----- the stream -----

  /** The secret vector and the date/time vector. */
  datatype State = State(v: block, dt: block)

  /** One iteration of the generator: the random block and the state after it. */
  function Random(aes: Cipher, key: block, st: State): block
  {
    aes(key, Xor(aes(key, st.dt), st.v))
  }

  function NextState(aes: Cipher, key: block, st: State): State
  {
    State(aes(key, Xor(Random(aes, key, st), aes(key, st.dt))), Succ(st.dt))
  }

  /** The state after n iterations. */
  function StateAt(aes: Cipher, key: block, st: State, n: nat): State
    decreases n
  {
    if n == 0 then st else StateAt(aes, key, NextState(aes, key, st), n - 1)
  }

  /** The k-th byte of the stream of blocks. */
  function StreamByte(aes: Cipher, key: block, st: State, k: nat): byte
  {
    Random(aes, key, StateAt(aes, key, st, k / 16))[k % 16]
  }

  /** A generator at rest: bytes of the last block not yet handed out, and the state. */
  datatype Rest = Rest(pending: seq<byte>, st: State)

  function Serve(aes: Cipher, key: block, r: Rest, n: nat): (out: (seq<byte>, Rest))
    requires |r.pending| <= 16
    ensures |out.0| == n && |out.1.pending| <= 16
    decreases n, 16 - |r.pending|
  {
    if n <= |r.pending| then (r.pending[..n], Rest(r.pending[n..], r.st))
    else
      var more := Serve(aes, key, Rest(Random(aes, key, r.st), NextState(aes, key, r.st)), n - |r.pending|);
      (r.pending + more.0, more.1)
  }

  /** The number of blocks a request takes. */
  function BlocksFor(r: Rest, n: nat): nat
  {
    if n <= |r.pending| then 0 else (n - |r.pending| + 15) / 16
  }

  lemma {:induction false} StateStep(aes: Cipher, key: block, st: State, n: nat)
    ensures StateAt(aes, key, st, n + 1) == NextState(aes, key, StateAt(aes, key, st, n))
    decreases n
  {
    if n > 0 {
      StateStep(aes, key, NextState(aes, key, st), n - 1);
    }
  }

  /** The date/time vector grows by exactly one per block, up to 2^128 - 1. */
  lemma {:induction false} DateGrows(aes: Cipher, key: block, st: State, n: nat)
    requires Value(st.dt) + n < Power256(16)
    ensures Value(StateAt(aes, key, st, n).dt) == Value(st.dt) + n
    decreases n
  {
    if n > 0 {
      SuccIsNext(st.dt);
      DateGrows(aes, key, NextState(aes, key, st), n - 1);
    }
  }

  /** At rest in block i with j bytes of it handed out. */
  function Holding(aes: Cipher, key: block, st: State, i: nat, j: nat): Rest
    requires j <= 16
  {
    Rest(Random(aes, key, StateAt(aes, key, st, i))[j..], StateAt(aes, key, st, i + 1))
  }

  /** At rest after the first pos bytes of the stream. */
  function RestAt(aes: Cipher, key: block, st: State, pos: nat): (r: Rest)
    ensures |r.pending| <= 16
  {
    if pos == 0 then Rest([], st) else Holding(aes, key, st, (pos - 1) / 16, (pos - 1) % 16 + 1)
  }

  function Slice(aes: Cipher, key: block, st: State, pos: nat, n: nat): seq<byte>
  {
    seq<byte>(n, k requires 0 <= k < n => StreamByte(aes, key, st, pos + k))
  }

  lemma SliceJoin(aes: Cipher, key: block, st: State, pos: nat, n: nat, m: nat)
    ensures Slice(aes, key, st, pos, n) + Slice(aes, key, st, pos + n, m) == Slice(aes, key, st, pos, n + m)
  {
  }

  /** A slice inside one block. */
  lemma BlockSlice(aes: Cipher, key: block, st: State, i: nat, j: nat, n: nat)
    requires j + n <= 16
    ensures Slice(aes, key, st, 16 * i + j, n) == Random(aes, key, StateAt(aes, key, st, i))[j..j + n]
  {
    var pos, b := 16 * i + j, Random(aes, key, StateAt(aes, key, st, i));
    forall k {:trigger b[j..j + n][k]} | 0 <= k < n ensures b[j..j + n][k] == StreamByte(aes, key, st, pos + k) {
      assert (pos + k) / 16 == i && (pos + k) % 16 == j + k;
    }
  }

  lemma RestHolding(aes: Cipher, key: block, st: State, i: nat, j: nat)
    requires 0 < j <= 16
    ensures RestAt(aes, key, st, 16 * i + j) == Holding(aes, key, st, i, j)
  {
    assert (16 * i + j - 1) / 16 == i && (16 * i + j - 1) % 16 == j - 1;
  }

  lemma {:induction false} ServeHolding(aes: Cipher, key: block, st: State, i: nat, j: nat, n: nat)
    requires j <= 16 && (j == 0 ==> n > 0)
    ensures Serve(aes, key, Holding(aes, key, st, i, j), n) ==
            (Slice(aes, key, st, 16 * i + j, n), RestAt(aes, key, st, 16 * i + j + n))
    decreases n, j
  {
    hide Slice, StateAt, RestAt;
    var r, pos := Holding(aes, key, st, i, j), 16 * i + j;
    var b := Random(aes, key, StateAt(aes, key, st, i));
    if n <= 16 - j {
      BlockSlice(aes, key, st, i, j, n);
      RestHolding(aes, key, st, i, j + n);
      assert b[j..][..n] == b[j..j + n] && b[j..][n..] == b[j + n..];
    } else {
      var m := n - (16 - j);
      StateStep(aes, key, st, i + 1);
      var full := Holding(aes, key, st, i + 1, 0);
      assert full == Rest(Random(aes, key, r.st), NextState(aes, key, r.st));
      ServeHolding(aes, key, st, i + 1, 0, m);
      BlockSlice(aes, key, st, i, j, 16 - j);
      SliceJoin(aes, key, st, pos, 16 - j, m);
      assert b[j..] == b[j..16];
    }
  }

  /** A request gets the next slice of the stream, whatever was asked for before. */
  lemma ServeSlices(aes: Cipher, key: block, st: State, pos: nat, n: nat)
    ensures Serve(aes, key, RestAt(aes, key, st, pos), n) == (Slice(aes, key, st, pos, n), RestAt(aes, key, st, pos + n))
  {
    if pos > 0 {
      ServeHolding(aes, key, st, (pos - 1) / 16, (pos - 1) % 16 + 1, n);
    } else if n > 0 {
      ServeHolding(aes, key, st, 0, 0, n);
      ServeFirst(aes, key, st, n);
    } else {
      var none: seq<byte> := [];
      assert none[..0] == none && none[0..] == none && Slice(aes, key, st, 0, 0) == none;
    }
  }

  lemma ServeFirst(aes: Cipher, key: block, st: State, n: nat)
    requires n > 0
    ensures Serve(aes, key, Rest([], st), n) == Serve(aes, key, Holding(aes, key, st, 0, 0), n)
  {
    var full := Holding(aes, key, st, 0, 0);
    assert StateAt(aes, key, st, 1) == NextState(aes, key, st) by {
      StateStep(aes, key, st, 0);
    }
    assert full == Rest(Random(aes, key, st), NextState(aes, key, st));
    var (out, next) := Serve(aes, key, full, n);
    assert [] + out == out;
  }

  /** The answers to a series of requests. */
  function Answers(aes: Cipher, key: block, r: Rest, sizes: seq<nat>): seq<seq<byte>>
    requires |r.pending| <= 16
    decreases sizes
  {
    if sizes == [] then []
    else
      var (out, next) := Serve(aes, key, r, sizes[0]);
      [out] + Answers(aes, key, next, sizes[1..])
  }

  function Joined(answers: seq<seq<byte>>): seq<byte>
  {
    if answers == [] then [] else answers[0] + Joined(answers[1..])
  }

  function Sum(sizes: seq<nat>): nat
  {
    if sizes == [] then 0 else sizes[0] + Sum(sizes[1..])
  }

  /** However the requests are cut, the answers joined are the same stretch of the stream. */
  lemma {:induction false} ChunkingIsInvisible(aes: Cipher, key: block, st: State, pos: nat, sizes: seq<nat>)
    ensures Joined(Answers(aes, key, RestAt(aes, key, st, pos), sizes)) == Slice(aes, key, st, pos, Sum(sizes))
    decreases sizes
  {
    if sizes != [] {
      ServeSlices(aes, key, st, pos, sizes[0]);
      ChunkingIsInvisible(aes, key, st, pos + sizes[0], sizes[1..]);
      SliceJoin(aes, key, st, pos, sizes[0], Sum(sizes[1..]));
    }
  }

  // ----- a request half served -----

  /** out has been handed out; what is left of the request, served from r, completes the
      answer to n bytes from start. */
  ghost predicate Halfway(aes: Cipher, key: block, start: Rest, n: nat, out: seq<byte>, r: Rest)
  {
    && |start.pending| <= 16 && |r.pending| <= 16 && |out| <= n
    && var rest := Serve(aes, key, r, n - |out|); Serve(aes, key, start, n) == (out + rest.0, rest.1)
  }

  lemma HalfwayByte(aes: Cipher, key: block, start: Rest, n: nat, out: seq<byte>, r: Rest)
    requires Halfway(aes, key, start, n, out, r) && |out| < n && r.pending != []
    ensures Halfway(aes, key, start, n, out + [r.pending[0]], Rest(r.pending[1..], r.st))
  {
    ServePart(aes, key, r, n - |out|, 1);
    var rest := Serve(aes, key, Rest(r.pending[1..], r.st), n - |out| - 1);
    assert r.pending[..1] == [r.pending[0]];
    assert out + ([r.pending[0]] + rest.0) == out + [r.pending[0]] + rest.0;
  }

  lemma HalfwayBlock(aes: Cipher, key: block, start: Rest, n: nat, out: seq<byte>, r: Rest)
    requires Halfway(aes, key, start, n, out, r) && |out| < n && r.pending == []
    ensures Halfway(aes, key, start, n, out, Rest(Random(aes, key, r.st), NextState(aes, key, r.st)))
  {
    var more := Serve(aes, key, Rest(Random(aes, key, r.st), NextState(aes, key, r.st)), n - |out|);
    assert r.pending + more.0 == more.0;
  }

  lemma HalfwayDone(aes: Cipher, key: block, start: Rest, n: nat, out: seq<byte>, r: Rest)
    requires Halfway(aes, key, start, n, out, r) && |out| == n
    ensures Serve(aes, key, start, n) == (out, r)
  {
    assert r.pending[..0] == [] && r.pending[0..] == r.pending && out + [] == out;
  }

  lemma HalfwayStart(aes: Cipher, key: block, start: Rest, n: nat)
    requires |start.pending| <= 16
    ensures Halfway(aes, key, start, n, [], start)
  {
    var all := Serve(aes, key, start, n);
    assert [] + all.0 == all.0;
  }

  /** Part of the pending bytes may be handed out first. */
  lemma ServePart(aes: Cipher, key: block, r: Rest, n: nat, c: nat)
    requires c <= n && c <= |r.pending| <= 16
    ensures Serve(aes, key, r, n) ==
            var rest := Serve(aes, key, Rest(r.pending[c..], r.st), n - c); (r.pending[..c] + rest.0, rest.1)
  {
    if n <= |r.pending| {
      assert r.pending[..n] == r.pending[..c] + r.pending[c..][..n - c] && r.pending[n..] == r.pending[c..][n - c..];
    } else {
      var more := Serve(aes, key, Rest(Random(aes, key, r.st), NextState(aes, key, r.st)), n - |r.pending|);
      assert r.pending[..c] + (r.pending[c..] + more.0) == r.pending + more.0;
    }
  }

  // ----- over fixed buffers -----

  /** A seed is the secret vector, the key and the date/time vector. */
  type seed48 = s: seq<byte> | |s| == 48 witness seq(48, _ => 0)

  /** With a byte below 255 the number is not the last one. */
  lemma {:induction false} NotLast(dt: seq<byte>, i: nat)
    requires i < |dt| && dt[i] < 255
    ensures Value(dt) + 1 < Power256(|dt|)
    decreases |dt|
  {
    if i < |dt| - 1 {
      NotLast(dt[..|dt| - 1], i);
    } else {
      SuccIsNext(dt[..|dt| - 1]);
    }
  }

  /** The carry has run through the last n bytes, all of which were 255. */
  lemma {:induction false} SuccCarry(dt: seq<byte>, n: nat)
    requires n < |dt| && dt[|dt| - 1 - n] < 255 && forall i :: |dt| - n <= i < |dt| ==> dt[i] == 255
    ensures Succ(dt) == dt[..|dt| - 1 - n] + [dt[|dt| - 1 - n] + 1] + seq(n, _ => 0)
    decreases n
  {
    if n > 0 {
      SuccCarry(dt[..|dt| - 1], n - 1);
      assert dt[..|dt| - 1][..|dt| - 1 - n] == dt[..|dt| - 1 - n];
      assert seq(n, _ => 0 as byte) == seq(n - 1, _ => 0 as byte) + [0];
    }
  }

  lemma NewBlock(r: Rest, n: nat, b: block, st: State)
    requires r.pending == [] && n > 0
    ensures BlocksFor(r, n) == 1 + BlocksFor(Rest(b, st), n)
  {
  }

  lemma NoBlocks(r: Rest)
    ensures BlocksFor(r, 0) == 0
  {
  }

  class Generator {
    const aes: Cipher
    const vec: array<byte>
    const key: array<byte>
    const datetime: array<byte>
    const intermediate: array<byte>
    const randomData: array<byte>
    var randomIdx: nat

    ghost predicate Valid()
      reads this, vec, key, datetime, intermediate, randomData
    {
      && vec.Length == key.Length == datetime.Length == intermediate.Length == randomData.Length == 16
      && vec != key && vec != datetime && vec != intermediate && vec != randomData && key != datetime
      && key != intermediate && key != randomData && datetime != intermediate && datetime != randomData && intermediate != randomData
      && randomIdx <= 16
    }

    ghost function AtRest(): (r: Rest)
      requires Valid()
      reads this, vec, key, datetime, intermediate, randomData
      ensures |r.pending| <= 16
    {
      Rest(randomData[randomIdx..], State(vec[..], datetime[..]))
    }

    constructor (aes: Cipher, seed: seed48)
      ensures Valid() && this.aes == aes && key[..] == seed[16..32]
      ensures AtRest() == RestAt(aes, seed[16..32], State(seed[..16], seed[32..]), 0)
      ensures fresh(vec) && fresh(key) && fresh(datetime) && fresh(intermediate) && fresh(randomData)
    {
      this.aes := aes;
      vec := new byte[16](i requires 0 <= i < 16 => seed[i]);
      key := new byte[16](i requires 0 <= i < 16 => seed[16 + i]);
      datetime := new byte[16](i requires 0 <= i < 16 => seed[32 + i]);
      intermediate := new byte[16](_ => 0);
      randomData := new byte[16](_ => 0);
      randomIdx := BLOCK_SIZE;
    }

    /** A block of random data replaces the one that has been used up. When the date/time
        counter wraps, the loop over it goes on at index 255, outside of the generator. */
    method GenBlock() returns (inside: bool)
      requires Valid()
      modifies this`randomIdx, vec, datetime, intermediate, randomData
      ensures Valid() && randomIdx == 0 && (inside <==> Value(old(datetime[..])) + 1 < Power256(16))
      ensures AtRest() == Rest(Random(aes, key[..], old(AtRest().st)), NextState(aes, key[..], old(AtRest().st)))
    {
      Store(intermediate, aes(key[..], datetime[..]));
      Store(randomData, aes(key[..], Xor(intermediate[..], vec[..])));
      randomIdx := 0;
      XorCommutes(intermediate[..], randomData[..]);
      Store(vec, aes(key[..], Xor(intermediate[..], randomData[..])));
      inside := Increment();
    }

    method Store(buf: array<byte>, b: block)
      requires buf.Length == 16
      modifies buf
      ensures buf[..] == b
    {
      forall i | 0 <= i < 16 {
        buf[i] := b[i];
      }
    }

    /** The date/time counter, with its carry, and whether the carry has ended in it. */
    method Increment() returns (inside: bool)
      requires Valid()
      modifies datetime
      ensures datetime[..] == Succ(old(datetime[..])) && (inside <==> Value(old(datetime[..])) + 1 < Power256(16))
    {
      hide Succ, Value, Power256;
      ghost var was := datetime[..];
      var i := BLOCK_SIZE - 1;
      while i >= 0
        invariant -1 <= i < 16
        invariant forall k :: 0 <= k <= i ==> datetime[k] == was[k]
        invariant forall k :: i < k < 16 ==> datetime[k] == 0 && was[k] == 255
        decreases i
      {
        datetime[i] := (datetime[i] as int + 1) % 256;
        if datetime[i] != 0 {
          SuccCarry(was, 15 - i);
          NotLast(was, i);
          return true;
        }
        i := i - 1;
      }
      SuccFull(was);
      FullIsLast(was);
      return false;
    }

    /** Fills a buffer with the next bytes of the stream. The loop over the date/time counter
        stays inside exactly when the counter does not wrap. */
    method GetBytes(len: nat, buf: array<byte>) returns (inside: bool)
      requires Valid() && buf.Length == len
      requires buf != vec && buf != key && buf != datetime && buf != intermediate && buf != randomData
      modifies this`randomIdx, vec, datetime, intermediate, randomData, buf
      ensures Valid() && key[..] == old(key[..])
      ensures (buf[..], AtRest()) == Serve(aes, key[..], old(AtRest()), len)
      ensures inside <==> Value(old(datetime[..])) + BlocksFor(old(AtRest()), len) < Power256(16)
    {
      hide Halfway, Serve, Value, Power256, BlocksFor;
      var bufIdx := 0;
      inside := true;
      ghost var start, last := AtRest(), Value(datetime[..]) + BlocksFor(AtRest(), len);
      HalfwayStart(aes, key[..], start, len);
      while bufIdx < len
        invariant 0 <= bufIdx <= len && Valid() && key[..] == old(key[..])
        invariant if inside then Value(datetime[..]) + BlocksFor(AtRest(), len - bufIdx) == last else last >= Power256(16)
        invariant Halfway(aes, key[..], start, len, buf[..bufIdx], AtRest())
        decreases len - bufIdx
      {
        if randomIdx >= BLOCK_SIZE {
          HalfwayBlock(aes, key[..], start, len, buf[..bufIdx], AtRest());
          SuccIsNext(datetime[..]);
          NewBlock(AtRest(), len - bufIdx, Random(aes, key[..], AtRest().st), NextState(aes, key[..], AtRest().st));
          var here := GenBlock();
          inside := inside && here;
        }
        bufIdx := CopyOut(len, buf, bufIdx, start);
      }
      HalfwayDone(aes, key[..], start, len, buf[..bufIdx], AtRest());
      assert buf[..bufIdx] == buf[..];
      SuccIsNext(datetime[..]);
      NoBlocks(AtRest());
    }

    /** Copies until the block or the request is used up. */
    method CopyOut(len: nat, buf: array<byte>, from: nat, ghost start: Rest) returns (bufIdx: nat)
      requires Valid() && buf.Length == len && from < len && randomIdx < 16
      requires buf != vec && buf != key && buf != datetime && buf != intermediate && buf != randomData
      requires Halfway(aes, key[..], start, len, buf[..from], AtRest())
      modifies this`randomIdx, buf
      ensures Valid() && from < bufIdx <= len
      ensures BlocksFor(AtRest(), len - bufIdx) == old(BlocksFor(AtRest(), len - from))
      ensures Halfway(aes, key[..], start, len, buf[..bufIdx], AtRest())
    {
      bufIdx := from;
      while randomIdx < BLOCK_SIZE && bufIdx < len
        invariant Valid() && from <= bufIdx <= len && (bufIdx == from ==> randomIdx < 16)
        invariant BlocksFor(AtRest(), len - bufIdx) == old(BlocksFor(AtRest(), len - from))
        invariant Halfway(aes, key[..], start, len, buf[..bufIdx], AtRest())
        decreases len - bufIdx
      {
        ghost var r, out := AtRest(), buf[..bufIdx];
        HalfwayByte(aes, key[..], start, len, out, r);
        buf[bufIdx] := randomData[randomIdx];
        randomIdx := randomIdx + 1;
        bufIdx := bufIdx + 1;
        assert buf[..bufIdx] == out + [r.pending[0]];
        assert AtRest() == Rest(r.pending[1..], r.st);
      }
    }
  }

  // ----- over immutable strings -----

  class StringGenerator {
    const aes: Cipher
    const key: block
    var randomData: seq<byte>
    var v: block
    var dt: block
    var i: block

    ghost predicate Valid()
      reads this
    {
      |randomData| <= 16
    }

    ghost function AtRest(): (r: Rest)
      reads this
    {
      Rest(randomData, State(v, dt))
    }

    constructor (aes: Cipher, seed: seed48)
      ensures Valid() && this.aes == aes && key == seed[16..32]
      ensures AtRest() == RestAt(aes, seed[16..32], State(seed[..16], seed[32..]), 0)
    {
      this.aes := aes;
      v, key, dt := seed[0..16], seed[16..32], seed[32..48];
      randomData := [];
      i := seq(16, _ => 0);
    }

    /** The next block. */
    method GetBlock()
      requires Valid()
      modifies this
      ensures Valid() && |randomData| == 16
      ensures AtRest() == Rest(Random(aes, key, old(AtRest().st)), NextState(aes, key, old(AtRest().st)))
    {
      i := aes(key, dt);
      randomData := aes(key, Xor(i, v));
      v := aes(key, Xor(randomData, i));
      Increment();
    }

    method Increment()
      modifies this`dt
      ensures dt == Succ(old(dt))
    {
      ghost var was := dt;
      var k := BLOCK_SIZE - 1;
      while k >= 0
        invariant -1 <= k < 16 && |dt| == 16
        invariant forall j :: 0 <= j <= k ==> dt[j] == was[j]
        invariant forall j :: k < j < 16 ==> dt[j] == 0 && was[j] == 255
        decreases k
      {
        var out: byte := (dt[k] as int + 1) % 256;
        dt := dt[..k] + [out] + dt[k + 1..];
        if out != 0 {
          SuccCarry(was, 15 - k);
          return;
        }
        k := k - 1;
      }
      SuccFull(was);
    }

    /** The next bytes of the stream. */
    method Get(size: nat) returns (result: seq<byte>)
      requires Valid() && size > 0
      modifies this
      ensures Valid() && (result, AtRest()) == Serve(aes, key, old(AtRest()), size)
    {
      result := [];
      ghost var start := AtRest();
      HalfwayStart(aes, key, start, size);
      while |result| < size
        invariant Valid() && Halfway(aes, key, start, size, result, AtRest())
        decreases size - |result|
      {
        var need := size - |result|;
        if |randomData| == 0 {
          HalfwayBlock(aes, key, start, size, result, AtRest());
          GetBlock();
        }
        var n := if need < |randomData| then need else |randomData|;
        HalfwayPart(aes, key, start, size, result, AtRest(), n);
        result := result + randomData[..n];
        randomData := randomData[n..];
      }
      HalfwayDone(aes, key, start, size, result, AtRest());
    }
  }

  lemma HalfwayPart(aes: Cipher, key: block, start: Rest, n: nat, out: seq<byte>, r: Rest, c: nat)
    requires Halfway(aes, key, start, n, out, r) && c <= n - |out| && c <= |r.pending|
    ensures Halfway(aes, key, start, n, out + r.pending[..c], Rest(r.pending[c..], r.st))
  {
    ServePart(aes, key, r, n - |out|, c);
    var rest := Serve(aes, key, Rest(r.pending[c..], r.st), n - |out| - c);
    assert out + (r.pending[..c] + rest.0) == out + r.pending[..c] + rest.0;
  }

  lemma {:induction false} SuccFull(dt: seq<byte>)
    requires forall j :: 0 <= j < |dt| ==> dt[j] == 255
    ensures |Succ(dt)| == |dt| && forall j :: 0 <= j < |dt| ==> Succ(dt)[j] == 0
    decreases dt
  {
    if dt != [] {
      SuccFull(dt[..|dt| - 1]);
    }
  }

  /** After pos bytes the date/time vector has grown by the number of blocks begun. */
  lemma DateAfter(aes: Cipher, key: block, st: State, pos: nat)
    requires Value(st.dt) + (pos + 15) / 16 < Power256(16)
    ensures Value(RestAt(aes, key, st, pos).st.dt) == Value(st.dt) + (pos + 15) / 16
  {
    if pos > 0 {
      assert (pos - 1) / 16 + 1 == (pos + 15) / 16;
      DateGrows(aes, key, st, (pos - 1) / 16 + 1);
    }
  }
}
