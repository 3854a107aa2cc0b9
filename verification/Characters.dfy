/** What characters, types and anchors mean, said without the tables and cases that the
    matcher goes by. */
module Characters {
  import opened Opcodes
  import opened Bytecode
  import opened Matching

  // ----- case -----

  /** The lower-casing table, by which caseless characters are compared. */
  function Lower(c: byte): byte
  {
    if 'A' <= c as char <= 'Z' then c + 32 else c
  }

  /** Flipping the case twice changes nothing, and two characters are one letter exactly when
      they are the same up to a flip. */
  lemma FlipsCase(c: byte, x: byte)
    ensures OtherCase(OtherCase(c)) == c
    ensures Lower(c) == Lower(x) <==> x == c || x == OtherCase(c)
  {
  }

  /** A caseless literal accepts its letter in either case, a caseful one only itself, and a
      negated one just the other characters. */
  lemma LiteralAccepts(c: byte, caseless: bool, negated: bool, x: byte)
    ensures Accepts(Lit(c, caseless, negated), x) <==> (if caseless then Lower(c) == Lower(x) else c == x) != negated
  {
    FlipsCase(c, x);
  }

  // ----- lines -----

  /** The dot without DOTALL accepts everything in a line and not what ends it. */
  lemma DotStaysInLine(s: Subject, i: nat, j: nat)
    requires i <= j <= |s|
    ensures Run(Type(OP_ANY), s, i, j) <==> 10 !in s[i..j]
    ensures Run(Type(OP_ALLANY), s, i, j)
  {
    if Run(Type(OP_ANY), s, i, j) {
      forall k | 0 <= k < j - i ensures s[i..j][k] != 10 {
        assert Accepts(Type(OP_ANY), s[i + k]);
      }
    } else {
      var x :| i <= x < j && !Accepts(Type(OP_ANY), s[x]);
      assert s[i..j][x - i] == 10;
    }
  }

  // ----- anchors -----

  /** With pre before a position and post behind it: ^ and \A hold at the start, \z at the end,
      and $ at the end or in front of a newline that ends the subject. */
  lemma AnchorsHold(pre: Subject, post: Subject)
    ensures Holds(Circ, pre + post, |pre|) <==> pre == []
    ensures Holds(Sod, pre + post, |pre|) <==> pre == []
    ensures Holds(Eod, pre + post, |pre|) <==> post == []
    ensures Holds(Doll, pre + post, |pre|) <==> post == [] || post == [10]
  {
    var s := pre + post;
    if |post| > 0 {
      assert s[|pre|] == post[0];
      assert |post| == 1 ==> post == [post[0]];
    }
  }
}
