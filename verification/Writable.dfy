/** Everything can be written: every text as a string and as a key, and every 64-bit integer. */
module Writable {
  import opened Basics
  import opened Datum
  import opened Utf8
  import opened Numbers
  import opened StringTexts
  import opened NumberTexts
  import opened Printing

  // ---------- texts

  /** A byte as itself, by its short escape, or by its code. */
  function PieceOf(c: byte): Piece {
    if HasShort(c) then Short(c) else if 32 <= c && c != 127 then Raw(c) else Code(2, c, [])
  }

  function Pieces(t: Text): (ps: seq<Piece>)
    ensures |ps| == |t|
  {
    seq(|t|, i requires 0 <= i < |t| => PieceOf(t[i]))
  }

  lemma {:induction false} PieceMeans(c: byte)
    ensures PieceOk(PieceOf(c), false) && !PieceOf(c).Join? && PieceOf(c) != Raw(QUOTE) && PieceMeaning(PieceOf(c)) == Ok([c])
  {
    assert Power16(2) == 256 by {
      assert Power16(1) == 16;
    }
  }

  lemma {:induction false} PiecesMean(t: Text)
    ensures PiecesMeaning(Pieces(t)) == Ok(t)
  {
    hide PieceOf, PieceMeaning;
    if t != [] {
      assert Pieces(t)[0] == PieceOf(t[0]) && Pieces(t)[1..] == Pieces(t[1..]);
      PieceMeans(t[0]);
      PiecesMean(t[1..]);
      assert [t[0]] + t[1..] == t;
    }
  }

  /** Any bytes are the meaning of some string between quotes, which is also a part of a key. */
  lemma {:induction false} EveryText(t: Text) returns (x: Str)
    ensures StrOk(x) && StrMeaning(x) == Ok(t) && PartOk(Quoted(x)) && PartMeaning(Quoted(x)) == Ok(t)
  {
    hide PieceOk, PieceOf, PieceMeaning, PiecesMeaning;
    var ps := Pieces(t);
    x := Basic(ps);
    PiecesMean(t);
    forall k | 0 <= k < |ps| ensures PieceOk(ps[k], false) && !ps[k].Join? && ps[k] != Raw(QUOTE) {
      PieceMeans(t[k]);
    }
  }

  // ---------- integers

  function FiguresOf(n: nat): (fs: seq<Figure>)
    ensures fs != []
  {
    if n < 10 then [Figure(n, false, false)] else FiguresOf(n / 10) + [Figure(n % 10, false, false)]
  }

  lemma {:induction false} FiguresSpell(n: nat)
    ensures var fs := FiguresOf(n);
            && FiguresValue(fs, 10) == n && DecimalOk(fs) && (n > 0 ==> fs[0].v != 0)
            && |FiguresText(fs)| == |fs| && forall f :: f in fs ==> !f.under
  {
    var fs := FiguresOf(n);
    if n < 10 {
      assert fs[..0] == [];
    } else {
      FiguresSpell(n / 10);
      assert fs[..|fs| - 1] == FiguresOf(n / 10);
    }
  }

  lemma {:induction false} FiguresShort(n: nat, k: nat)
    requires k > 0 && n < Pow10(k)
    ensures |FiguresOf(n)| <= k
  {
    if n >= 10 {
      FiguresShort(n / 10, k - 1);
    }
  }

  lemma {:induction false} PowerOfTwenty()
    ensures Pow10(20) == 100_000_000_000_000_000_000
  {
    assert Pow10(5) == 100_000;
    assert Pow10(10) == 100_000 * Pow10(5);
    assert Pow10(15) == 100_000 * Pow10(10);
    assert Pow10(20) == 100_000 * Pow10(15);
  }

  /** Any integer of 64 bits is the meaning of some digits that fit into the window. */
  lemma {:induction false} EveryInteger(i: int) returns (n: Integer)
    requires INT64_MIN <= i <= INT64_MAX
    ensures IntegerOk(n) && IntegerMeaning(n) == Ok(Int64(i))
  {
    var m: nat := if i < 0 then -i else i;
    var fs := FiguresOf(m);
    n := Integer(if i < 0 then Minus else Unsigned, 10, fs);
    FiguresSpell(m);
    PowerOfTwenty();
    FiguresShort(m, 20);
  }
}
