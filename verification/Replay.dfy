/** Reading a challenge's output through a pipe that another thread fills byte by byte.
    A schedule says how many bytes the producer appends before each look at the pipe; every
    interleaving of the two threads is some schedule. */
module Replay {
  import opened Opcodes

  const CR := 13
  const LF := 10
  const CHUNK := 4096

  predicate NoCR(s: seq<byte>) { CR !in s }

  /** delim stands at position i. */
  predicate IsAt(delim: seq<byte>, s: seq<byte>, i: nat)
  {
    i + |delim| <= |s| && s[i..i + |delim|] == delim
  }

  /** Where delim first stands, or -1. */
  function Find(delim: seq<byte>, s: seq<byte>): (i: int)
    ensures i >= 0 ==> IsAt(delim, s, i) && forall j: nat :: j < i ==> !IsAt(delim, s, j)
    ensures i < 0 ==> forall j: nat :: !IsAt(delim, s, j)
  {
    FindFrom(delim, s, 0)
  }

  function FindFrom(delim: seq<byte>, s: seq<byte>, from: nat): (i: int)
    requires from <= |s| + 1 && forall j: nat :: j < from ==> !IsAt(delim, s, j)
    ensures i >= 0 ==> IsAt(delim, s, i) && forall j: nat :: j < i ==> !IsAt(delim, s, j)
    ensures i < 0 ==> forall j: nat :: !IsAt(delim, s, j)
    decreases |s| + 1 - from
  {
    if from > |s| then -1
    else if IsAt(delim, s, from) then from
    else FindFrom(delim, s, from + 1)
  }

  /** The first place does not depend on what follows. */
  lemma FindPrefix(delim: seq<byte>, s: seq<byte>, more: seq<byte>)
    requires Find(delim, s) >= 0
    ensures Find(delim, s + more) == Find(delim, s)
  {
    var all, i := s + more, Find(delim, s);
    assert all[i..i + |delim|] == s[i..i + |delim|];
    forall j: nat | j < i ensures !IsAt(delim, all, j) {
      assert !IsAt(delim, s, j);
      assert all[j..j + |delim|] == s[j..j + |delim|];
    }
    assert IsAt(delim, all, i);
  }

  /** The end of the first delimiter: it is the first in the part up to there too. */
  method DelimEnd(delim: seq<byte>, s: seq<byte>) returns (depth: nat)
    requires Find(delim, s) >= 0
    ensures depth == Find(delim, s) + |delim| <= |s| && Find(delim, s[..depth]) + |delim| == depth
  {
    depth := Find(delim, s) + |delim|;
    ghost var i, part := depth - |delim|, s[..depth];
    assert part[i..i + |delim|] == s[i..i + |delim|];
    assert IsAt(delim, part, i);
    FindPrefix(delim, part, s[depth..]);
    assert part + s[depth..] == s;
  }

  // ----- what reads should return -----

  datatype Read = Length(n: nat) | Delim(delim: seq<byte>)

  /** How many of the bytes ahead a read takes, or -1 if it cannot complete. */
  function Takes(r: Read, ahead: seq<byte>): (n: int)
    ensures n <= |ahead|
  {
    match r
    case Length(n) => if n <= |ahead| then n else -1
    case Delim(delim) => var i := Find(delim, ahead); if i < 0 then -1 else i + |delim|
  }

  /** The results of a series of reads. */
  function Expected(ahead: seq<byte>, script: seq<Read>): seq<seq<byte>>
    decreases script
  {
    if script == [] then []
    else
      var n := Takes(script[0], ahead);
      if n < 0 then [] else [ahead[..n]] + Expected(ahead[n..], script[1..])
  }

  /** What a read takes depends on no bytes behind it. */
  lemma TakesPrefix(r: Read, part: seq<byte>, more: seq<byte>)
    ensures 0 <= Takes(r, part) ==> Takes(r, part + more) == Takes(r, part)
    ensures 0 <= Takes(r, part + more) <= |part| ==> Takes(r, part) == Takes(r, part + more)
  {
    if r.Delim? {
      var all, i := part + more, Find(r.delim, part + more);
      if Find(r.delim, part) >= 0 {
        FindPrefix(r.delim, part, more);
      } else if 0 <= i && i + |r.delim| <= |part| {
        assert part[i..i + |r.delim|] == all[i..i + |r.delim|];
        assert IsAt(r.delim, part, i);
      }
    }
  }

  /** data is all that a read takes. */
  predicate Whole(r: Read, data: seq<byte>) { Takes(r, data) == |data| }

  function Joined(results: seq<seq<byte>>): seq<byte>
  {
    if results == [] then [] else results[0] + Joined(results[1..])
  }

  lemma {:induction false} JoinedMore(results: seq<seq<byte>>, data: seq<byte>)
    ensures Joined(results + [data]) == Joined(results) + data
    decreases results
  {
    if results == [] {
      assert results + [data] == [data] && [data][1..] == [];
    } else {
      assert (results + [data])[1..] == results[1..] + [data];
      JoinedMore(results[1..], data);
    }
  }

  predicate AllWhole(script: seq<Read>, results: seq<seq<byte>>)
  {
    |results| <= |script| && forall i :: 0 <= i < |results| ==> Whole(script[i], results[i])
  }

  /** The results of a series of reads are fixed read by read: whatever comes behind them,
      the series returns them and then what its rest returns there. */
  lemma {:induction false} ExpectedGrows(script: seq<Read>, results: seq<seq<byte>>, tail: seq<byte>)
    requires AllWhole(script, results)
    ensures Expected(Joined(results) + tail, script) == results + Expected(tail, script[|results|..])
    decreases results
  {
    hide Takes;
    if results == [] {
      assert Joined(results) + tail == tail && script[0..] == script;
    } else {
      var data, rest, script' := results[0], results[1..], script[1..];
      assert Whole(script[0], data);
      assert Joined(results) + tail == data + (Joined(rest) + tail);
      TakesPrefix(script[0], data, Joined(rest) + tail);
      forall i | 0 <= i < |rest| ensures Whole(script'[i], rest[i]) {
        assert Whole(script[i + 1], results[i + 1]);
      }
      ExpectedGrows(script', rest, tail);
      assert script'[|rest|..] == script[|results|..];
      assert results == [data] + rest;
    }
  }

  lemma {:induction false} ExpectedMono(ahead: seq<byte>, more: seq<byte>, script: seq<Read>)
    ensures Expected(ahead, script) <= Expected(ahead + more, script) && |Expected(ahead, script)| <= |script|
    decreases script
  {
    hide Takes;
    if script != [] && Takes(script[0], ahead) >= 0 {
      var n := Takes(script[0], ahead);
      TakesPrefix(script[0], ahead, more);
      assert (ahead + more)[..n] == ahead[..n] && (ahead + more)[n..] == ahead[n..] + more;
      ExpectedMono(ahead[n..], more, script[1..]);
    }
  }

  // ----- carriage returns -----

  /** A stretch of output as it is handed out: each CR that stands in front of an LF is left
      out. */
  function Turned(raw: seq<byte>): seq<byte>
  {
    if raw == [] then []
    else if |raw| >= 2 && raw[0] == CR && raw[1] == LF then Turned(raw[1..])
    else [raw[0]] + Turned(raw[1..])
  }

  lemma {:induction false} TurnedLess(raw: seq<byte>)
    ensures |Turned(raw)| <= |raw| && (raw != [] ==> Turned(raw) != [] && Turned(raw)[|Turned(raw)| - 1] == raw[|raw| - 1])
    ensures NoCR(raw) ==> Turned(raw) == raw
    decreases raw
  {
    if raw != [] {
      TurnedLess(raw[1..]);
    }
  }

  /** One byte more: an LF takes the place of a CR in front of it. */
  lemma {:induction false} TurnedMore(raw: seq<byte>, b: byte)
    ensures var t := Turned(raw);
            Turned(raw + [b]) == if b == LF && t != [] && t[|t| - 1] == CR then t[..|t| - 1] + [LF] else t + [b]
    decreases raw
  {
    if raw == [] {
      assert raw + [b] == [b] && [b][1..] == [];
    } else {
      var rest := raw[1..];
      assert (raw + [b])[1..] == rest + [b];
      TurnedLess(raw);
      TurnedLess(rest);
      TurnedMore(rest, b);
      if rest != [] {
        assert (raw + [b])[1] == rest[0];
        TurnedStep(raw);
        TurnedStep(raw + [b]);
      } else {
        assert raw + [b] == [raw[0], b];
      }
    }
  }

  lemma TurnedStep(raw: seq<byte>)
    requires |raw| >= 2
    ensures Turned(raw) == if raw[0] == CR && raw[1] == LF then Turned(raw[1..]) else [raw[0]] + Turned(raw[1..])
  {
  }

  /** The first k bytes of the pipe have been handed out in one go. */
  ghost predicate Chunk(was: seq<byte>, res: seq<byte>, now: seq<byte>)
  {
    exists k: nat :: 0 < k <= |was| && now == was[k..] && res == Turned(was[..k])
  }

  /** Of what was in the pipe, some was handed out as got, in one go or several. */
  ghost predicate Delivered(was: seq<byte>, got: seq<byte>, now: seq<byte>)
    decreases |was|
  {
    || (got == [] && now == was)
    || (exists k: nat {:trigger was[..k]} :: 0 < k <= |was| && Turned(was[..k]) <= got && Delivered(was[k..], got[|Turned(was[..k])|..], now))
  }

  lemma {:induction false} DeliveredTwice(was: seq<byte>, got: seq<byte>, mid: seq<byte>, more: seq<byte>, now: seq<byte>)
    requires Delivered(was, got, mid) && Delivered(mid, more, now)
    ensures Delivered(was, got + more, now)
    decreases |was|
  {
    hide Turned;
    if got == [] && mid == was {
      assert got + more == more;
    } else {
      var k: nat :| 0 < k <= |was| && Turned(was[..k]) <= got && Delivered(was[k..], got[|Turned(was[..k])|..], mid);
      var n := |Turned(was[..k])|;
      DeliveredTwice(was[k..], got[n..], mid, more, now);
      assert (got + more)[n..] == got[n..] + more;
    }
  }

  lemma DeliveredMore(was: seq<byte>, got: seq<byte>, mid: seq<byte>, res: seq<byte>, now: seq<byte>)
    requires Delivered(was, got, mid) && Chunk(mid, res, now)
    ensures Delivered(was, got + res, now)
  {
    var k: nat :| 0 < k <= |mid| && now == mid[k..] && res == Turned(mid[..k]);
    assert res[|res|..] == [];
    NothingYet(now);
    assert Delivered(mid, res, now);
    DeliveredTwice(was, got, mid, res, now);
  }

  lemma FirstPiece(was: seq<byte>, got: seq<byte>, now: seq<byte>) returns (k: nat)
    requires Delivered(was, got, now) && !(got == [] && now == was)
    ensures 0 < k <= |was| && Turned(was[..k]) <= got && Delivered(was[k..], got[|Turned(was[..k])|..], now)
  {
    k :| 0 < k <= |was| && Turned(was[..k]) <= got && Delivered(was[k..], got[|Turned(was[..k])|..], now);
  }

  lemma NoCRIn(s: seq<byte>, k: nat)
    requires k <= |s|
    ensures NoCR(s) ==> NoCR(s[..k]) && NoCR(s[k..])
  {
  }

  /** The first of several pieces, and what is known of those behind it. */
  lemma Pieces(was: seq<byte>, k: nat, out: seq<byte>, more: seq<byte>, now: seq<byte>)
    requires k <= |was| && out == Turned(was[..k]) && (NoCR(was[k..]) ==> more + now == was[k..])
    ensures NoCR(was) ==> out + more + now == was
  {
    NoCRIn(was, k);
    TurnedLess(was[..k]);
    if NoCR(was) {
      hide NoCR, Turned;
      assert out + more + now == out + (more + now);
      assert was == was[..k] + was[k..];
    }
  }

  /** Nothing is lost without carriage returns. */
  lemma {:induction false} DeliveredLess(was: seq<byte>, got: seq<byte>, now: seq<byte>)
    requires Delivered(was, got, now)
    ensures NoCR(was) ==> got + now == was
    decreases |was|
  {
    if !(got == [] && now == was) {
      var k := FirstPiece(was, got, now);
      hide Delivered, Turned, NoCR;
      var n := |Turned(was[..k])|;
      DeliveredLess(was[k..], got[n..], now);
      Pieces(was, k, got[..n], got[n..], now);
      assert got == got[..n] + got[n..];
    }
  }

  lemma ChunkLess(was: seq<byte>, res: seq<byte>, now: seq<byte>)
    requires Chunk(was, res, now)
    ensures res != [] && |now| < |was|
  {
    var k: nat :| 0 < k <= |was| && now == was[k..] && res == Turned(was[..k]);
    TurnedLess(was[..k]);
  }

  lemma NothingYet(was: seq<byte>)
    ensures Delivered(was, [], was)
  {
  }

  /** What a series of reads returns: the results that the bytes handed out so far determine,
      got of them behind those that were in the buffer; left are still in the pipe. */
  ghost predicate DeterminedBy(buffer: seq<byte>, pipe: seq<byte>, got: seq<byte>, left: seq<byte>,
                               script: seq<Read>, results: seq<seq<byte>>)
  {
    Delivered(pipe, got, left) && results == Expected(buffer + got, script)
  }

  /** A read that never completes leaves only what has not been written. */
  ghost predicate Determined(buffer: seq<byte>, pipe: seq<byte>, output: seq<byte>, script: seq<Read>, results: seq<seq<byte>>)
  {
    exists got: seq<byte>, left: seq<byte> ::
      DeterminedBy(buffer, pipe, got, left, script, results) && (|results| < |script| ==> left == output)
  }

  /** Without carriage returns the output alone determines the results, and they are the first
      of those that all of it would give. */
  lemma OutputDetermines(buffer: seq<byte>, pipe: seq<byte>, output: seq<byte>, script: seq<Read>, results: seq<seq<byte>>)
    requires Determined(buffer, pipe, output, script, results) && NoCR(pipe)
    ensures results <= Expected(buffer + pipe, script)
    ensures |results| < |script| ==> |output| <= |pipe| && results == Expected(buffer + pipe[..|pipe| - |output|], script)
  {
    hide Takes, Expected, Delivered, NoCR;
    var got, left :| DeterminedBy(buffer, pipe, got, left, script, results) && (|results| < |script| ==> left == output);
    DeliveredLess(pipe, got, left);
    ExpectedMono(buffer + got, left, script);
    assert buffer + got + left == buffer + pipe;
    assert pipe[..|pipe| - |left|] == got;
  }

  /** A series that has come to its end, or to a read for which the bytes got are not
      enough. */
  lemma SeriesEnds(buffer: seq<byte>, pipe: seq<byte>, got: seq<byte>, left: seq<byte>, output: seq<byte>,
                   script: seq<Read>, results: seq<seq<byte>>, ahead: seq<byte>)
    requires AllWhole(script, results) && Delivered(pipe, got, left) && buffer + got == Joined(results) + ahead
    requires |results| == |script| || (Takes(script[|results|], ahead) < 0 && left == output)
    ensures Determined(buffer, pipe, output, script, results)
  {
    hide Takes, Delivered;
    ExpectedGrows(script, results, ahead);
    assert Expected(ahead, script[|results|..]) == [];
    assert DeterminedBy(buffer, pipe, got, left, script, results);
  }

  class Throw {
    var readBuffer: seq<byte>
    var pipeBuf: seq<byte>
    var pipeRaw: seq<byte>
    /** What the challenge has still to write. */
    var output: seq<byte>
    var schedule: seq<nat>

    /** Everything that has not been taken out of the pipe, in order. */
    ghost function InPipe(): seq<byte>
      reads this
    {
      pipeRaw + output
    }

    /** Between calls the pipe buffer is empty: whatever is taken out of the pipe is
        returned. */
    ghost predicate Valid()
      reads this
    {
      pipeBuf == []
    }

    constructor (output: seq<byte>, schedule: seq<nat>)
      ensures Valid() && InPipe() == output && readBuffer == []
    {
      this.output, this.schedule := output, schedule;
      readBuffer, pipeBuf, pipeRaw := [], [], [];
    }

    /** The producer's turn. */
    method Produce()
      modifies this`pipeRaw, this`output, this`schedule
      ensures InPipe() == old(InPipe()) && |pipeRaw| + |output| == |old(pipeRaw)| + |old(output)|
      ensures |pipeRaw| >= |old(pipeRaw)|
      ensures |schedule| == if old(schedule) == [] then 0 else |old(schedule)| - 1
    {
      if schedule != [] {
        var n := schedule[0];
        schedule := schedule[1..];
        while n > 0 && output != []
          invariant pipeRaw + output == old(pipeRaw + output) && |pipeRaw| >= |old(pipeRaw)|
          invariant schedule == old(schedule)[1..]
          decreases n
        {
          assert output == [output[0]] + output[1..];
          pipeRaw, output := pipeRaw + [output[0]], output[1..];
          n := n - 1;
        }
        assert |pipeRaw + output| == |pipeRaw| + |output|;
      }
    }

    /** Waits for data, then takes up to size bytes. When the schedule ends while nothing
        has arrived the call does not return, which ok == false stands for. */
    method ReadFromProc(size: nat) returns (ok: bool, res: seq<byte>)
      requires size > 0 && Valid()
      modifies this`pipeRaw, this`output, this`schedule, this`pipeBuf
      ensures Valid() && |output| <= |old(output)|
      ensures ok ==> |res| <= size && Chunk(old(InPipe()), res, InPipe())
      ensures !ok ==> schedule == [] && res == [] && old(InPipe()) == InPipe() == output
    {
      res := [];
      ghost var was := InPipe();
      while |pipeRaw| == 0
        invariant InPipe() == was && Valid() && |output| <= |old(output)|
        decreases |schedule|
      {
        if schedule == [] {
          assert InPipe() == [] + output == output;
          return false, [];
        }
        Produce();
      }
      Fill(size);
      res, pipeBuf := pipeBuf[..if size < |pipeBuf| then size else |pipeBuf|], pipeBuf[if size < |pipeBuf| then size else |pipeBuf|..];
      ok := true;
    }

    /** Moves bytes from the pipe into the buffer, turning CR LF into LF. */
    method Fill(size: nat)
      requires size > 0 && pipeRaw != []
      modifies this`pipeRaw, this`output, this`schedule, this`pipeBuf
      requires Valid()
      ensures 0 < |pipeBuf| <= size && |output| <= |old(output)|
      ensures Chunk(old(InPipe()), pipeBuf, InPipe())
    {
      ghost var was, k: nat := InPipe(), 0;
      while |pipeBuf| < size && |pipeRaw| != 0
        invariant |pipeBuf| <= size && |output| <= |old(output)|
        invariant k <= |was| && InPipe() == was[k..] && pipeBuf == Turned(was[..k])
        invariant k == 0 ==> pipeRaw != []
        decreases |pipeRaw| + |output|
      {
        ghost var rest := InPipe();
        assert was[k] == rest[0] == pipeRaw[0] && was[..k + 1] == was[..k] + [was[k]];
        TakeByte(was[..k]);
        assert InPipe() == rest[1..] == was[k + 1..];
        Produce();
        k := k + 1;
      }
      TurnedLess(was[..k]);
    }

    method TakeByte(ghost taken: seq<byte>)
      requires pipeRaw != [] && pipeBuf == Turned(taken)
      modifies this`pipeRaw, this`pipeBuf
      ensures pipeBuf == Turned(taken + [old(pipeRaw)[0]]) && pipeRaw == old(pipeRaw)[1..]
      ensures |pipeBuf| <= |old(pipeBuf)| + 1
    {
      TurnedMore(taken, pipeRaw[0]);
      pipeBuf, pipeRaw := pipeBuf + [pipeRaw[0]], pipeRaw[1..];
      var n := |pipeBuf|;
      if n >= 2 && pipeBuf[n - 2] == CR && pipeBuf[n - 1] == LF {
        pipeBuf := pipeBuf[..n - 2] + [LF];
      }
    }

    /** A read of a given length. */
    method ReadLen(readLen: nat) returns (ok: bool, data: seq<byte>)
      requires Valid()
      modifies this
      ensures Valid() && |output| <= |old(output)|
      ensures ok ==> Completed(old(readBuffer), old(InPipe()), Length(readLen), data)
      ensures !ok ==> Stuck(old(readBuffer), old(InPipe()), Length(readLen))
    {
      hide Delivered, Chunk;
      ghost var pipe, got := InPipe(), [];
      NothingYet(pipe);
      if |readBuffer| >= readLen {
        ghost var was := readBuffer;
        data, readBuffer := readBuffer[..readLen], readBuffer[readLen..];
        assert was + got == data + readBuffer;
        return true, data;
      }
      data := readBuffer;
      while |data| < readLen
        invariant Valid() && |output| <= |old(output)| && data == old(readBuffer) + got && Delivered(pipe, got, InPipe())
        decreases |InPipe()|
      {
        var left := readLen - |data|;
        ghost var mid := InPipe();
        var more, dataRead := ReadFromProc(if left > CHUNK then left else CHUNK);
        if !more {
          assert Takes(Length(readLen), old(readBuffer) + got) < 0;
          return false, [];
        }
        ChunkLess(mid, dataRead, InPipe());
        if |dataRead| == 0 {
          // The receive failed.
          assert false;
        }
        DeliveredMore(pipe, got, mid, dataRead, InPipe());
        data, got := data + dataRead, got + dataRead;
      }
      readBuffer, data := data[readLen..], data[..readLen];
      assert data + readBuffer == old(readBuffer) + got;
      return true, data;
    }

    /** A read up to and including a delimiter. */
    method ReadDelim(delim: seq<byte>) returns (ok: bool, data: seq<byte>)
      requires Valid()
      modifies this
      ensures Valid() && |output| <= |old(output)|
      ensures ok ==> Completed(old(readBuffer), old(InPipe()), Delim(delim), data)
      ensures !ok ==> Stuck(old(readBuffer), old(InPipe()), Delim(delim))
    {
      hide Delivered, Chunk, FindFrom, IsAt;
      ghost var pipe, got := InPipe(), [];
      NothingYet(pipe);
      while Find(delim, readBuffer) < 0
        invariant Valid() && |output| <= |old(output)| && readBuffer == old(readBuffer) + got && Delivered(pipe, got, InPipe())
        decreases |InPipe()|
      {
        ghost var mid := InPipe();
        var more, dataRead := ReadFromProc(CHUNK);
        if !more {
          assert Takes(Delim(delim), old(readBuffer) + got) < 0;
          return false, [];
        }
        ChunkLess(mid, dataRead, InPipe());
        if |dataRead| == 0 {
          // The receive failed.
          assert false;
        }
        DeliveredMore(pipe, got, mid, dataRead, InPipe());
        readBuffer, got := readBuffer + dataRead, got + dataRead;
      }
      var depth := DelimEnd(delim, readBuffer);
      data, readBuffer := readBuffer[..depth], readBuffer[depth..];
      assert data + readBuffer == old(readBuffer) + got;
      return true, data;
    }

    /** A read completes with all that it takes. What was in the buffer and what was handed out
        since are this and what is in the buffer now. */
    ghost predicate Completed(buffer: seq<byte>, pipe: seq<byte>, r: Read, data: seq<byte>)
      reads this
    {
      Whole(r, data) && exists got: seq<byte> :: Delivered(pipe, got, InPipe()) && buffer + got == data + readBuffer
    }

    /** A read that never completes: the producer's turns are over, and what it has written
        is not enough. */
    ghost predicate Stuck(buffer: seq<byte>, pipe: seq<byte>, r: Read)
      reads this
    {
      schedule == [] && exists got: seq<byte> :: Delivered(pipe, got, output) && Takes(r, buffer + got) < 0
    }

    /** The results so far and what is ahead of the next read. */
    ghost predicate Reading(buffer: seq<byte>, pipe: seq<byte>, got: seq<byte>, script: seq<Read>, results: seq<seq<byte>>)
      reads this
    {
      AllWhole(script, results) && Delivered(pipe, got, InPipe()) && buffer + got == Joined(results) + readBuffer
    }

    /** The next read of a series. */
    method ReadNext(script: seq<Read>, results: seq<seq<byte>>, ghost buffer: seq<byte>, ghost pipe: seq<byte>, ghost got: seq<byte>)
      returns (ok: bool, data: seq<byte>, ghost now: seq<byte>)
      requires Valid() && |results| < |script| && Reading(buffer, pipe, got, script, results)
      modifies this
      ensures Valid()
      ensures ok ==> Reading(buffer, pipe, now, script, results + [data])
      ensures !ok ==> schedule == [] && Determined(buffer, pipe, output, script, results)
    {
      hide Takes, Delivered, Determined;
      var r := script[|results|];
      ghost var rest, mid := readBuffer, InPipe();
      if r.Length? {
        ok, data := ReadLen(r.n);
      } else {
        ok, data := ReadDelim(r.delim);
      }
      if ok {
        ghost var more :| Delivered(mid, more, InPipe()) && rest + more == data + readBuffer;
        now := got + more;
        DeliveredTwice(pipe, got, mid, more, InPipe());
        JoinedMore(results, data);
        assert buffer + now == (buffer + got) + more == Joined(results) + (rest + more) == Joined(results + [data]) + readBuffer;
      } else {
        ghost var more :| Delivered(mid, more, output) && Takes(r, rest + more) < 0;
        now := got + more;
        DeliveredTwice(pipe, got, mid, more, output);
        assert buffer + now == (buffer + got) + more == Joined(results) + (rest + more);
        SeriesEnds(buffer, pipe, now, output, output, script, results, rest + more);
      }
    }

    /** A whole series of reads, up to the first that does not complete. Whatever the
        schedule, the results are those that the bytes handed out determine, each CR in front
        of an LF left out that was taken from the pipe together with it, and the series stops
        early only when the bytes written are not enough for more. */
    method ReadAll(script: seq<Read>) returns (completed: bool, results: seq<seq<byte>>)
      requires Valid()
      modifies this
      ensures |results| <= |script| && (completed <==> |results| == |script|)
      ensures !completed ==> schedule == []
      ensures Determined(old(readBuffer), old(InPipe()), output, script, results)
      ensures NoCR(old(InPipe())) ==> results <= Expected(old(readBuffer + InPipe()), script)
      ensures NoCR(old(InPipe())) && !completed ==>
                && |output| <= |old(InPipe())|
                && results == Expected(old(readBuffer) + old(InPipe())[..|old(InPipe())| - |output|], script)
    {
      hide Determined, Takes, Delivered;
      ghost var buffer, pipe, got := readBuffer, InPipe(), [];
      NothingYet(pipe);
      results := [];
      assert buffer + got == Joined(results) + readBuffer;
      while |results| < |script|
        invariant |results| <= |script| && Valid() && Reading(buffer, pipe, got, script, results)
        decreases |script| - |results|
      {
        var ok, data;
        ok, data, got := ReadNext(script, results, buffer, pipe, got);
        if !ok {
          if NoCR(pipe) {
            OutputDetermines(buffer, pipe, output, script, results);
          }
          return false, results;
        }
        results := results + [data];
      }
      SeriesEnds(buffer, pipe, got, InPipe(), output, script, results, readBuffer);
      if NoCR(pipe) {
        OutputDetermines(buffer, pipe, output, script, results);
      }
      completed := true;
    }
  }
}
