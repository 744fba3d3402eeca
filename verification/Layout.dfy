/** What may stand between the tokens of a document: blanks, newlines and comments. */
module Layouts {
  import opened Basics
  import opened Scanning

  const HASH: byte := 35

  predicate IsBlank(w: seq<byte>) { forall c :: c in w ==> c == SPACE || c == TAB }

  datatype Newline = Lf | CrLf

  function NewlineText(n: Newline): (t: seq<byte>)
    ensures t != []
  {
    if n.Lf? then [LF] else [CR, LF]
  }

  /** A tab, a printable character, or a byte above 0x7F. */
  predicate IsCommentChar(c: int) { c == TAB || 32 <= c <= 126 || 128 <= c }

  /** What stands behind the last token of a line. */
  datatype Tail = Tail(blank: seq<byte>, comment: Option<seq<byte>>)

  predicate TailOk(t: Tail) {
    IsBlank(t.blank) && (t.comment.Some? ==> forall c :: c in t.comment.value ==> IsCommentChar(c))
  }

  function TailText(t: Tail): seq<byte> {
    t.blank + match t.comment case None => [] case Some(c) => [HASH] + c
  }

  datatype LineEnd = LineEnd(tail: Tail, newline: Newline)

  function EndText(e: LineEnd): (t: seq<byte>)
    ensures t != []
  {
    TailText(e.tail) + NewlineText(e.newline)
  }

  function EndsText(es: seq<LineEnd>): seq<byte> {
    if es == [] then [] else EndText(es[0]) + EndsText(es[1..])
  }

  /** Where a newline is no token that ends anything: any number of line ends, and a blank. */
  datatype Gap = Gap(ends: seq<LineEnd>, blank: seq<byte>)

  predicate EndsOk(es: seq<LineEnd>) { forall e :: e in es ==> TailOk(e.tail) }

  predicate GapOk(g: Gap) { EndsOk(g.ends) && IsBlank(g.blank) }

  function GapText(g: Gap): seq<byte> { EndsText(g.ends) + g.blank }

  const NO_TAIL := Tail([], None)
  const NO_GAP := Gap([], [])

  // ---------- where the next token starts

  lemma {:induction false} NewlineStands(src: seq<byte>, i: nat, n: Newline)
    ensures Stands(src, i, NewlineText(n)) <==> i + |NewlineText(n)| <= |src| && src[i] == NewlineText(n)[0] && (n.CrLf? ==> src[i + 1] == LF)
    ensures Stands(src, i, NewlineText(n)) ==> GetChar(src, i) == LF && GetLen(src, i) == |NewlineText(n)|
  {
    StandsFirst(src, i, NewlineText(n));
    if n.CrLf? {
      assert NewlineText(n)[1..] == [LF];
      StandsOne(src, i + 1, LF);
    }
  }

  lemma {:induction false} BlankSkipped(src: seq<byte>, i: nat, w: seq<byte>)
    requires Stands(src, i, w) && IsBlank(w)
    ensures i + |w| <= |src| && TokenStart(src, i) == TokenStart(src, i + |w|)
    decreases |w|
  {
    if w != [] {
      StandsFirst(src, i, w);
      InRest(w);
      BlankSkipped(src, i + 1, w[1..]);
    }
  }

  /** A newline, or the end of the text. */
  predicate LineStops(src: seq<byte>, i: nat) { GetChar(src, i) == LF || GetChar(src, i) == FIN }

  lemma {:induction false} CommentSkipped(src: seq<byte>, i: nat, c: seq<byte>)
    requires Stands(src, i, c) && (forall x :: x in c ==> IsCommentChar(x)) && LineStops(src, i + |c|)
    ensures i + |c| <= |src| && CommentEnd(src, i) == Ok(i + |c|)
    decreases |c|
  {
    if c != [] {
      StandsFirst(src, i, c);
      InRest(c);
      CommentSkipped(src, i + 1, c[1..]);
    }
  }

  lemma {:induction false} TailSkipped(src: seq<byte>, i: nat, t: Tail)
    requires TailOk(t) && Stands(src, i, TailText(t)) && (t.comment.Some? ==> LineStops(src, i + |TailText(t)|))
    ensures i + |TailText(t)| <= |src| && TokenStart(src, i) == TokenStart(src, i + |TailText(t)|)
  {
    hide Stands, CommentEnd;
    var e := i + |TailText(t)|;
    match t.comment {
      case None =>
        assert TailText(t) == t.blank;
        BlankSkipped(src, i, t.blank);
      case Some(c) =>
        StandsTwo(src, i, t.blank, [HASH] + c);
        StandsTwo(src, i + |t.blank|, [HASH], c);
        StandsOne(src, i + |t.blank|, HASH);
        BlankSkipped(src, i, t.blank);
        CommentSkipped(src, i + |t.blank| + 1, c);
        assert TokenStart(src, e) == Ok(e);
    }
  }

  // ---------- and what has been skipped to get there

  lemma {:induction false} CommentIs(src: seq<byte>, i: nat)
    requires i <= |src| && CommentEnd(src, i).Ok?
    ensures var j := CommentEnd(src, i).value;
            LineStops(src, j) && forall c :: c in src[i..j] ==> IsCommentChar(c)
    decreases |src| - i
  {
    var j := CommentEnd(src, i).value;
    if i < j {
      CommentIs(src, i + 1);
      assert src[i..j] == [src[i]] + src[i + 1..j];
    }
  }

  /** A tail that starts with a blank. */
  lemma {:induction false} BlankThenTail(src: seq<byte>, i: nat, c: byte, u: Tail)
    requires i < |src| && src[i] == c && (c == SPACE || c == TAB) && TailOk(u) && Stands(src, i + 1, TailText(u))
    ensures var t := Tail([c] + u.blank, u.comment);
            TailOk(t) && Stands(src, i, TailText(t)) && |TailText(t)| == 1 + |TailText(u)|
  {
    var t := Tail([c] + u.blank, u.comment);
    assert TailText(t) == [c] + TailText(u);
    hide Stands, TailText;
    StandsTwo(src, i, [c], TailText(u));
    StandsOne(src, i, c);
  }

  lemma {:induction false} CommentAsTail(src: seq<byte>, i: nat, j: nat)
    requires i < j <= |src| && src[i] == HASH && forall c :: c in src[i + 1..j] ==> IsCommentChar(c)
    ensures var t := Tail([], Some(src[i + 1..j]));
            TailOk(t) && Stands(src, i, TailText(t)) && |TailText(t)| == j - i
  {
    var t := Tail([], Some(src[i + 1..j]));
    assert TailText(t) == [HASH] + src[i + 1..j];
    hide TailText, IsCommentChar;
    StandsCut(src, i + 1, j);
    StandsTwo(src, i, [HASH], src[i + 1..j]);
    StandsOne(src, i, HASH);
  }

  lemma {:induction false} StartIsTail(src: seq<byte>, i: nat) returns (t: Tail)
    requires i <= |src| && TokenStart(src, i).Ok?
    ensures var p := TokenStart(src, i).value;
            && TailOk(t) && Stands(src, i, TailText(t)) && p == i + |TailText(t)|
            && (t.comment.Some? ==> LineStops(src, p))
    decreases |src| - i
  {
    hide Stands, TailText, TailOk, CommentEnd, IsCommentChar;
    var c := GetChar(src, i);
    if c == SPACE || c == TAB {
      var u := StartIsTail(src, i + 1);
      t := Tail([c] + u.blank, u.comment);
      BlankThenTail(src, i, c, u);
    } else if c == HASH {
      CommentIs(src, i + 1);
      var j := CommentEnd(src, i + 1).value;
      t := Tail([], Some(src[i + 1..j]));
      CommentAsTail(src, i, j);
    } else {
      t := NO_TAIL;
      NoTailStands(src, i);
    }
  }

  lemma {:induction false} NoTailStands(src: seq<byte>, i: nat)
    requires i <= |src|
    ensures TailOk(NO_TAIL) && TailText(NO_TAIL) == [] && Stands(src, i, [])
  {}

  // ---------- what may follow a value

  /** A blank, a comment, a newline, a comma or a closing bracket. */
  predicate IsStop(c: int) { c == 9 || c == 10 || c == CR || c == 32 || c == 35 || c == 44 || c == 93 || c == 125 }

  /** The end of the text, a blank, a comment, a newline, a comma or a closing bracket; and no
      digit behind a space, which would make a date a date and time. */
  predicate EndsHere(src: seq<byte>, e: nat) {
    && e <= |src|
    && (e < |src| ==> IsStop(src[e]) && (src[e] == CR ==> e + 1 < |src| && src[e + 1] == LF))
    && (e + 1 < |src| && src[e] == SPACE ==> !IsDigit(src[e + 1]))
  }

  lemma {:induction false} BlankEnds(src: seq<byte>, e: nat, w: seq<byte>)
    requires IsBlank(w) && Stands(src, e, w) && EndsHere(src, e + |w|)
    ensures EndsHere(src, e)
    decreases |w|
  {
    if w != [] {
      StandsFirst(src, e, w);
      InRest(w);
      BlankEnds(src, e + 1, w[1..]);
    }
  }

  lemma {:induction false} TailEnds(src: seq<byte>, e: nat, t: Tail)
    requires TailOk(t) && Stands(src, e, TailText(t)) && EndsHere(src, e + |TailText(t)|)
    ensures EndsHere(src, e)
  {
    match t.comment {
      case None =>
        assert TailText(t) == t.blank;
        BlankEnds(src, e, t.blank);
      case Some(c) =>
        StandsTwo(src, e, t.blank, [HASH] + c);
        StandsTwo(src, e + |t.blank|, [HASH], c);
        StandsOne(src, e + |t.blank|, HASH);
        BlankEnds(src, e, t.blank);
    }
  }

  lemma {:induction false} LineEnds(src: seq<byte>, e: nat, end: LineEnd)
    requires TailOk(end.tail) && Stands(src, e, EndText(end))
    ensures EndsHere(src, e)
  {
    hide Stands, TailText;
    StandsTwo(src, e, TailText(end.tail), NewlineText(end.newline));
    NewlineStands(src, e + |TailText(end.tail)|, end.newline);
    TailEnds(src, e, end.tail);
  }

  lemma {:induction false} GapEnds(src: seq<byte>, e: nat, g: Gap)
    requires GapOk(g) && Stands(src, e, GapText(g)) && EndsHere(src, e + |GapText(g)|)
    ensures EndsHere(src, e)
  {
    hide Stands, EndsHere;
    if g.ends == [] {
      assert GapText(g) == g.blank;
      BlankEnds(src, e, g.blank);
    } else {
      var first := EndText(g.ends[0]);
      assert GapText(g) == first + (EndsText(g.ends[1..]) + g.blank);
      StandsTwo(src, e, first, EndsText(g.ends[1..]) + g.blank);
      LineEnds(src, e, g.ends[0]);
    }
  }
}
