/** The first pass itself: it walks the pattern, moving a scratch code offset back and
    forth, and accumulates the length with its overflow checks. */
module Measure {
  import opened Bytecode
  import opened Pattern
  import opened Translation
  import opened TwoPass

  const INT_MAX := 0x7FFF_FFFF
  const OFLOW_MAX := INT_MAX - 20
  const MAX_PATTERN_SIZE := 65536
  const PARENS_NEST_LIMIT := 250
  const ERR20 := 20
  const ERR82 := 82

  datatype Measured = Length(n: nat) | Failed(code: nat)

  /** How deeply parentheses nest. */
  function Depth(p: Pattern): nat
    decreases p, 0
  {
    var d := BranchDepth(p.b);
    var e := if p.OrElse? then Depth(p.others) else 0;
    if d < e then e else d
  }

  function BranchDepth(b: Branch): nat
    decreases b, 0
  {
    match b
    case Empty => 0
    case Item(atom, _, rest) =>
      var d := if atom.Parens? then 1 + Depth(atom.alts) else 0;
      var e := BranchDepth(rest);
      if d < e then e else d
    case AnchorItem(_, rest) => BranchDepth(rest)
  }

  /** The result is the measured length; it fails only by overflow or by nesting too
      deeply, and then reports that. */
  ghost predicate Reports(r: Measured, total: nat, depth: nat)
  {
    match r
    case Length(n) => n == total <= OFLOW_MAX && depth <= PARENS_NEST_LIMIT
    case Failed(code) => (code == ERR20 && total > OFLOW_MAX) || (code == ERR82 && depth > PARENS_NEST_LIMIT)
  }

  /** Adds the room taken since the last item, never a negative amount. The three bytes
      of an ALT are added unchecked, so the length may arrive that much too large. */
  method Account(length: nat, code: nat, lastCode: nat) returns (r: Measured)
    requires length <= OFLOW_MAX + 3
    ensures Reports(r, length + (if code < lastCode then 0 else code - lastCode), 0)
  {
    var c := if code < lastCode then lastCode else code;
    if OFLOW_MAX - length < c - lastCode {
      return Failed(ERR20);
    }
    return Length(length + (c - lastCode));
  }

  /** The scratch offset after a quantifier has rewritten a literal or type item that
      ended at oldcode. */
  method MeasureChars(sel: Sel, q: Quantifier) returns (code: nat)
    requires !sel.Set? && q.Quant?
    ensures code == Size(CharCode(sel, q))
  {
    CharCodeSize(sel, q);
    var oldcode := OneSize(sel);
    var max := q.hi;
    code := 0;
    if max == 0 {
      return;
    }
    if q.lo == 0 {
      code := code + 1;
      if max != -1 && max != 1 {
        code := code + 2;
      }
    } else if q.lo == 1 {
      if max == -1 {
        code := code + 1;
      } else {
        code := oldcode;
        if max == 1 {
          return;
        }
        code := code + 3;
      }
    } else {
      code := code + 3;
      if max < 0 {
        code := code + 2;
      } else if max != q.lo {
        code := code + 1;
        max := max - q.lo;
        code := code + (if max == 1 then 1 else 3);
      }
    }
    code := code + 1;
    if q.mode == Possessive && sel.Type? && q.lo == 1 && q.hi != -1 {
      code := code + 6;
    }
  }

  /** The same for a class, which stays in place. */
  method MeasureClass(sel: Sel, q: Quantifier) returns (code: nat)
    requires sel.Set? && q.Quant?
    ensures code == Size(ClassCode(sel, q))
  {
    code := 33;
    if q.hi == 0 {
      code := 0;
    } else if (q.lo == 0 && q.hi == -1) || (q.lo == 1 && q.hi == -1) || (q.lo == 0 && q.hi == 1) {
      code := code + 1;
    } else {
      code := code + 5;
    }
  }

  lemma GroupLengthAtLeast(lp: nat, q: Quantifier)
    ensures GroupLength(lp, q) >= lp
  {
    if q.Quant? && q.lo > 0 {
      MulMono(q.lo - 1, 0, lp);
    }
  }

  /** A quantified group. In this pass the group is held as an empty pair of brackets,
      six bytes long, and the copies are accounted for by arithmetic. */
  method MeasureGroup(lp: nat, q: Quantifier, length0: nat) returns (r: Measured)
    requires q.Quant? && length0 <= OFLOW_MAX && lp >= 6
    ensures Reports(r, length0 + GroupLength(lp, q) - lp, 0)
  {
    var length := length0;
    var code, max, possessive, bralink := 6, q.hi, q.mode == Possessive, false;
    if q.lo == 0 {
      if max <= 1 {
        code := code + 1;
        if max == 0 {
          r := Account(length, code, 6);
          return;
        }
      } else {
        code := code + 4;
        bralink := true;
      }
      max := max - 1;
    } else {
      if q.lo > 1 {
        MulMono(q.lo - 1, 0, lp);
        var delta := (q.lo - 1) * lp;
        if delta > INT_MAX || OFLOW_MAX - length < delta {
          return Failed(ERR20);
        }
        length := length + delta;
      }
      if max > 0 {
        max := max - q.lo;
      }
    }
    if max >= 0 {
      if max > 0 {
        MulMono(max, 1, lp + 7);
        var delta := max * (lp + 7) - 6;
        if delta + 6 > INT_MAX || OFLOW_MAX - length < delta {
          return Failed(ERR20);
        }
        length := length + delta;
      }
      if bralink {
        code := code + 3;
      }
    } else if q.lo < 2 {
      possessive := false;
    }
    if possessive {
      code := code + 6;
    }
    r := Account(length, code, 6);
  }

  method MeasureItem(atom: Atom, q: Quantifier, length0: nat, depth: nat) returns (r: Measured)
    requires length0 <= OFLOW_MAX && depth <= PARENS_NEST_LIMIT
    ensures Reports(r, length0 + AtomLength(atom, q), depth + if atom.Parens? then 1 + Depth(atom.alts) else 0)
    decreases atom, 1
  {
    if atom.Chars? {
      CharsFit(atom.sel, q);
      r := Account(length0, OneSize(atom.sel), 0);
      if r.Length? && q.Quant? {
        var code;
        if atom.sel.Set? {
          code := MeasureClass(atom.sel, q);
        } else {
          code := MeasureChars(atom.sel, q);
        }
        r := Account(r.n, code, OneSize(atom.sel));
      }
    } else {
      if depth + 1 > PARENS_NEST_LIMIT {
        return Failed(ERR82);
      }
      var skip := if atom.cap then 2 else 0;
      ghost var total := 6 + skip + PatternLength(atom.alts);
      GroupLengthAtLeast(total, q);
      r := MeasureRegex(atom.alts, skip, 0, depth + 1);
      if r.Failed? {
        return;
      }
      var lp := r.n;
      if OFLOW_MAX - length0 < lp - 6 {
        return Failed(ERR20);
      }
      r := Account(length0 + (lp - 6), 6, 0);
      if r.Length? && q.Quant? {
        r := MeasureGroup(lp, q, r.n);
      }
    }
  }

  method MeasureBranch(b: Branch, length0: nat, depth: nat) returns (r: Measured)
    requires length0 <= OFLOW_MAX + 3 && depth <= PARENS_NEST_LIMIT
    ensures Reports(r, length0 + BranchLength(b), depth + BranchDepth(b))
    decreases b, 0
  {
    var rest, length: nat := b, length0;
    while rest != Empty
      invariant length <= OFLOW_MAX + 3
      invariant length + BranchLength(rest) == length0 + BranchLength(b)
      invariant BranchDepth(rest) <= BranchDepth(b)
      invariant depth + BranchDepth(b) <= PARENS_NEST_LIMIT || BranchDepth(rest) == BranchDepth(b)
      invariant rest == b || rest < b
      decreases rest
    {
      r := Account(length, 0, 0);
      if r.Failed? {
        return;
      }
      if rest.AnchorItem? {
        r := Account(length, 1, 0);
      } else {
        r := MeasureItem(rest.atom, rest.q, length, depth);
      }
      if r.Failed? {
        return;
      }
      length, rest := r.n, rest.rest;
    }
    r := Account(length, 0, 0);
  }

  /** A parenthesised pattern: its own brackets are counted first and the whole is
      added to the caller's length at the end. */
  method MeasureRegex(p: Pattern, skip: nat, length0: nat, depth: nat) returns (r: Measured)
    requires length0 <= OFLOW_MAX && depth <= PARENS_NEST_LIMIT && skip <= 2
    ensures Reports(r, length0 + 6 + skip + PatternLength(p), depth + Depth(p))
    decreases p, 0
  {
    var rest, length: nat := p, 6 + skip;
    while true
      invariant length <= OFLOW_MAX + 3
      invariant length + PatternLength(rest) == 6 + skip + PatternLength(p)
      invariant Depth(rest) <= Depth(p)
      invariant depth + Depth(p) <= PARENS_NEST_LIMIT || Depth(rest) == Depth(p)
      invariant rest == p || rest < p
      decreases rest
    {
      r := MeasureBranch(rest.b, length, depth);
      if r.Failed? {
        return;
      }
      length := r.n;
      if rest.LastBranch? {
        if OFLOW_MAX - length0 < length {
          return Failed(ERR20);
        }
        return Length(length0 + length);
      }
      length, rest := length + 3, rest.others;
    }
  }

  /** The whole first pass. The length starts at one, for the final OP_END, and a
      program that would exceed 64K is refused. */
  method MeasureProgram(p: Pattern) returns (r: Measured)
    ensures r.Length? <==> ProgramLength(p) <= MAX_PATTERN_SIZE && Depth(p) <= PARENS_NEST_LIMIT
    ensures r.Length? ==> r.n == ProgramLength(p)
    ensures r.Failed? ==>
              || (r.code == ERR20 && ProgramLength(p) > MAX_PATTERN_SIZE)
              || (r.code == ERR82 && Depth(p) > PARENS_NEST_LIMIT)
  {
    r := MeasureRegex(p, 0, 1, 0);
    if r.Length? && r.n > MAX_PATTERN_SIZE {
      r := Failed(ERR20);
    }
  }
}
