/** Opcode numbers, item lengths and the two-byte link fields of the 8-bit
    library (LINK_SIZE and IMM2_SIZE are both 2). */
module Opcodes {

  type byte = b: int | 0 <= b < 256
  type u16 = n: int | 0 <= n < 65536
  type pos16 = n: int | 0 < n < 65536 witness 1

  const OP_END := 0
  const OP_SOD := 1
  const OP_NOT_DIGIT := 6
  const OP_DIGIT := 7
  const OP_NOT_WHITESPACE := 8
  const OP_WHITESPACE := 9
  const OP_NOT_WORDCHAR := 10
  const OP_WORDCHAR := 11
  const OP_ANY := 12
  const OP_ALLANY := 13
  const OP_EOD := 24
  const OP_DOLL := 25
  const OP_CIRC := 27
  const OP_CHAR := 29
  const OP_CHARI := 30
  const OP_NOT := 31
  const OP_NOTI := 32
  const OP_STAR := 33
  const OP_STARI := 46
  const OP_NOTSTAR := 59
  const OP_NOTSTARI := 72
  const OP_TYPESTAR := 85
  const OP_TYPEMINSTAR := 86
  const OP_TYPEPOSSTAR := 94
  const OP_TYPEPOSUPTO := 97
  const OP_CRSTAR := 98
  const OP_CRRANGE := 104
  const OP_CRMINRANGE := 105
  const OP_CRPOSSTAR := 106
  const OP_CRPOSRANGE := 109
  const OP_CLASS := 110
  const OP_NCLASS := 111
  const OP_XCLASS := 112
  const OP_RECURSE := 117
  const OP_CALLOUT := 118
  const OP_ALT := 119
  const OP_KET := 120
  const OP_KETRMAX := 121
  const OP_KETRMIN := 122
  const OP_KETRPOS := 123
  const OP_REVERSE := 124
  const OP_ONCE := 129
  const OP_ONCE_NC := 130
  const OP_BRA := 131
  const OP_BRAPOS := 132
  const OP_CBRA := 133
  const OP_CBRAPOS := 134
  const OP_SBRA := 136
  const OP_SBRAPOS := 137
  const OP_SCBRA := 138
  const OP_SCBRAPOS := 139
  const OP_BRAZERO := 146
  const OP_BRAMINZERO := 147
  const OP_BRAPOSZERO := 148
  const OP_SKIPZERO := 161
  const OP_TABLE_LENGTH := 162

  // Offsets of the members of a thirteen-opcode repeat block from its first one.
  const UPTO_OFFSET := 6
  const MINUPTO_OFFSET := 7
  const EXACT_OFFSET := 8
  const POSUPTO_OFFSET := 12

  /** The first opcode of the repeat block that op belongs to. */
  function RepeatBase(op: int): int
  {
    if op >= OP_TYPESTAR then OP_TYPESTAR
    else if op >= OP_NOTSTARI then OP_NOTSTARI
    else if op >= OP_NOTSTAR then OP_NOTSTAR
    else if op >= OP_STARI then OP_STARI
    else OP_STAR
  }

  /** The table of item lengths. The entry for an extended class is zero: its
      length is stored in the code. */
  function OpLength(op: int): nat
  {
    if op <= 14 then 1
    else if op <= 16 then 3
    else if op <= 28 then 1
    else if op <= OP_NOTI then 2
    else if op <= OP_TYPEPOSUPTO then
      var off := op - RepeatBase(op);
      if off == UPTO_OFFSET || off == MINUPTO_OFFSET || off == EXACT_OFFSET || off == POSUPTO_OFFSET then 4 else 2
    else if op <= OP_CRPOSRANGE then
      if op == OP_CRRANGE || op == OP_CRMINRANGE || op == OP_CRPOSRANGE then 5 else 1
    else if op <= OP_NCLASS then 33
    else if op == OP_XCLASS then 0
    else if op <= 114 then 3
    else if op <= 116 then 5
    else if op == OP_RECURSE then 3
    else if op == OP_CALLOUT then 6
    else if op <= OP_BRAPOS then 3
    else if op <= OP_CBRAPOS then 5
    else if op <= OP_SBRAPOS then 3
    else if op <= OP_SCBRAPOS then 5
    else if op == 142 || op == 144 then 5
    else if op <= 143 then 3
    else if op <= OP_BRAPOSZERO then 1
    else if op == 149 || op == 151 || op == 153 || op == 155 then 3
    else if op == 160 then 3
    else 1
  }

  /** The two bytes of a link or count, most significant first. A value that does
      not fit loses its high bits, as the stores into bytes do. */
  function Two(d: nat): (r: seq<byte>)
  {
    [(d / 256) % 256, d % 256]
  }

  function Get(code: seq<byte>, n: nat): (r: u16)
    requires n + 1 < |code|
  {
    (code[n] as int) * 256 + code[n + 1]
  }

  lemma GetTwo(code: seq<byte>, n: nat, d: nat)
    requires n + 1 < |code|
    requires code[n] == (d / 256) % 256 && code[n + 1] == d % 256
    ensures Get(code, n) == d % 65536
  {
    assert d == (d / 65536) * 65536 + d % 65536;
    assert (d / 256) % 256 == (d % 65536) / 256;
  }

  /** Stores a link or count in place (PUT and PUT2). */
  method Put(a: array<byte>, n: nat, d: nat)
    requires n + 1 < a.Length
    modifies a
    ensures a[..] == old(a[..])[n := (d / 256) % 256][n + 1 := d % 256]
    ensures Get(a[..], n) == d % 65536
  {
    a[n] := (d / 256) % 256;
    a[n + 1] := d % 256;
    GetTwo(a[..], n, d);
  }

  /** The library's own memmove: it copies downwards when the destination is
      above the source and upwards otherwise, so overlapping moves are exact. */
  method MemMove(a: array<byte>, dest: nat, src: nat, n: nat)
    requires dest + n <= a.Length && src + n <= a.Length
    modifies a
    ensures a[..] == old(a[..dest]) + old(a[src..src + n]) + old(a[dest + n..])
  {
    ghost var was := a[..];
    var i := 0;
    if dest > src {
      while i < n
        invariant 0 <= i <= n
        invariant forall k :: 0 <= k < a.Length && !(dest + n - i <= k < dest + n) ==> a[k] == was[k]
        invariant forall k :: dest + n - i <= k < dest + n ==> a[k] == was[k - dest + src]
      {
        a[dest + n - i - 1] := a[src + n - i - 1];
        i := i + 1;
      }
    } else {
      while i < n
        invariant 0 <= i <= n
        invariant forall k :: 0 <= k < a.Length && !(dest <= k < dest + i) ==> a[k] == was[k]
        invariant forall k :: dest <= k < dest + i ==> a[k] == was[k - dest + src]
      {
        a[dest + i] := a[src + i];
        i := i + 1;
      }
    }
    assert a[..] == was[..dest] + was[src..src + n] + was[dest + n..];
  }
}
