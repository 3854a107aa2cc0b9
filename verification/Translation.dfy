/** The code that the compiler produces for a pattern, as a tree: EXACT/UPTO splitting
    of repeated characters, replication of groups, and the S, KETR and BRAZERO forms. */
module Translation {
  import opened Opcodes
  import opened Bytecode
  import opened Emptiness
  import opened Pattern

  function Single(it: Item): Code
  {
    Cons(it, Nil)
  }

  /** A repeat with no minimum and at most n (or, for -1, any number of) copies. */
  function OptionalRep(mode: Mode, n: int): Rep
    requires n == -1 || 1 <= n < 65536
  {
    if n == -1 then Star(mode) else if n == 1 then Query(mode) else Upto(mode, n)
  }

  /** A literal or character type with its quantifier. */
  function CharCode(sel: Sel, q: Quantifier): Code
    requires !sel.Set?
  {
    match q
    case NoQuant => Single(One(sel))
    case Quant(lo, hi, mode) =>
      if hi == 0 then Nil
      else if lo == 0 then Single(Many(sel, OptionalRep(mode, hi)))
      else if lo == 1 then
        if hi == -1 then Single(Many(sel, Plus(mode)))
        else if hi == 1 then Single(One(sel))
        else if mode == Possessive && sel.Type? then
          // The table has no possessive form of a plain type opcode, so the pair is
          // wrapped in an atomic group instead.
          Atomic(Cons(One(sel), Single(Many(sel, Upto(Greedy, hi - 1)))))
        else Cons(One(sel), Single(Many(sel, Upto(mode, hi - 1))))
      else
        Cons(Many(sel, Exact(lo)),
             if hi == lo then Nil else Single(Many(sel, OptionalRep(mode, if hi == -1 then -1 else hi - lo))))
  }

  /** A class keeps its bitmap; the quantifier follows it. */
  function ClassCode(sel: Sel, q: Quantifier): Code
    requires sel.Set?
  {
    match q
    case NoQuant => Single(One(sel))
    case Quant(lo, hi, mode) =>
      if hi == 0 then Nil
      else Single(Many(sel,
        if lo == 0 && hi == -1 then Star(mode)
        else if lo == 1 && hi == -1 then Plus(mode)
        else if lo == 0 && hi == 1 then Query(mode)
        else Range(mode, lo, if hi == -1 then 0 else hi)))
  }

  function Atomic(c: Code): Code
  {
    Single(Group(NoZero, Once, 0, Last(c), Ket))
  }

  // ----- repeated groups -----

  /** A compiled group before its quantifier is dealt with. */
  datatype Piece = Piece(cap: bool, num: u16, body: Alts)

  function PlainGroup(g: Piece, zero: Zero): Item
  {
    Group(zero, Paren(false, g.cap, false), g.num, g.body, Ket)
  }

  /** The form for an unlimited repeat: marked S when it could match nothing. */
  function LoopGroup(g: Piece, zero: Zero, mode: Mode): Item
  {
    Group(zero, Paren(AltsCouldBeEmpty(g.body), g.cap, mode == Possessive), g.num, g.body,
          if mode == Greedy then KetRMax else if mode == Lazy then KetRMin else KetRPos)
  }

  function Copies(g: Piece, n: nat, tail: Code): Code
  {
    if n == 0 then tail else Cons(PlainGroup(g, NoZero), Copies(g, n - 1, tail))
  }

  /** n optional copies, each nested inside the one before it. */
  function Optional(g: Piece, zero: Zero, n: nat): Code
  {
    if n == 0 then Nil
    else if n == 1 then Single(PlainGroup(g, zero))
    else Single(Group(zero, Paren(false, false, false), 0, Last(Cons(PlainGroup(g, NoZero), Optional(g, zero, n - 1))), Ket))
  }

  function ZeroFor(mode: Mode): Zero
  {
    if mode == Lazy then BraMinZero else BraZero
  }

  /** A group with its quantifier, before any atomic wrapping. */
  function RepeatedGroup(g: Piece, lo: u16, hi: int, mode: Mode): Code
    requires hi == -1 || lo <= hi
  {
    if lo == 0 then
      if hi == 0 then Single(PlainGroup(g, SkipZero))
      else if hi == -1 then Single(LoopGroup(g, if mode == Possessive then BraPosZero else ZeroFor(mode), mode))
      else Optional(g, ZeroFor(mode), hi)
    else if hi == -1 then Copies(g, lo - 1, Single(LoopGroup(g, NoZero, mode)))
    else Copies(g, lo, Optional(g, ZeroFor(mode), hi - lo))
  }

  /** A possessive quantifier needs an atomic group round the whole item unless the
      looping form deals with it or the item is skipped. */
  predicate NeedsAtomic(q: Quantifier)
  {
    q.Quant? && q.mode == Possessive && (if q.hi == -1 then q.lo >= 2 else q.hi > 0)
  }

  function GroupCode(g: Piece, q: Quantifier): Code
  {
    if q == NoQuant then Single(PlainGroup(g, NoZero))
    else
      var c := RepeatedGroup(g, q.lo, q.hi, q.mode);
      if NeedsAtomic(q) then Atomic(c) else c
  }

  // ----- whole patterns; bc is the number of capturing groups opened so far -----

  function AtomCode(atom: Atom, q: Quantifier, bc: nat): Code
    decreases atom, 1
  {
    match atom
    case Chars(sel) => if sel.Set? then ClassCode(sel, q) else CharCode(sel, q)
    case Parens(cap, alts) => GroupCode(PieceOf(cap, alts, bc), q)
  }

  function PieceOf(cap: bool, alts: Pattern, bc: nat): Piece
    decreases alts, 1
  {
    if cap then Piece(true, (bc + 1) % 65536, PatternCode(alts, bc + 1))
    else Piece(false, 0, PatternCode(alts, bc))
  }

  function BranchCode(b: Branch, bc: nat): Code
    decreases b, 0
  {
    match b
    case Empty => Nil
    case Item(atom, q, rest) => Cat(AtomCode(atom, q, bc), BranchCode(rest, bc + AtomCaptures(atom)))
    case AnchorItem(a, rest) => Cons(Assert(a), BranchCode(rest, bc))
  }

  function PatternCode(p: Pattern, bc: nat): Alts
    decreases p, 0
  {
    match p
    case LastBranch(b) => Last(BranchCode(b, bc))
    case OrElse(b, others) => More(BranchCode(b, bc), PatternCode(others, bc + BranchCaptures(b)))
  }
}
