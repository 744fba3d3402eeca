/** The escapes that name a character by its code: which strings are refused for them, and which
    codes the standard does not allow. */
module EscapeLimits {
  import opened Basics
  import opened Datum
  import opened Utf8
  import opened Rfc3629
  import opened Scanning
  import opened Parsing
  import opened Layouts
  import opened StringTexts
  import opened Printing
  import opened Meanings
  import opened NumberWindows

  function PiecesOf(x: Str): seq<Piece> {
    match x
    case Basic(ps) => ps
    case MlBasic(_, ps) => ps
    case Literal(_) => []
    case MlLiteral(_, _) => []
  }

  predicate IsRefusedPiece(p: Piece) { p.Code? && IsRefusedCode(p.code) }

  lemma {:induction false} PiecesRead(ps: seq<Piece>)
    ensures PiecesMeaning(ps).Ok? <==> forall p :: p in ps ==> !IsRefusedPiece(p)
  {
    hide Encode, IsRefusedCode;
    if ps != [] {
      PiecesRead(ps[1..]);
      assert ps == [ps[0]] + ps[1..] && ps[0] in ps;
      assert forall p :: p in ps <==> p == ps[0] || p in ps[1..];
    }
  }

  /** A document is refused for a string exactly when an escape of it names a surrogate or a code
      above 0x1FFFFF. */
  lemma {:induction false} StringExactly(s: Input, rows: seq<Row>, key: Key, gap: seq<byte>, x: Str, tail: Tail)
    requires LastKeyValue(s, rows, key, gap, VStr(x), tail) && StrOk(x)
    ensures TomlParse(s).Ok? <==> forall p :: p in PiecesOf(x) ==> !IsRefusedPiece(p)
  {
    hide TomlParse, LastKeyValue, PiecesMeaning, HeadersOf, LinesOf, IsRefusedPiece, StrOk;
    LastIsRead(s, rows, key, gap, VStr(x), tail);
    PiecesRead(PiecesOf(x));
  }

  /** An accepted code gives text in the sense of the standard exactly up to U+10FFFF. */
  lemma {:induction false} MeaningDeparts(code: nat)
    requires CodeMeaning(code).Ok?
    ensures IsUtf8(CodeMeaning(code).value) <==> code <= 0x10FFFF
  {
    var t := Encode(code).value;
    assert t[0..|t|] == t;
    DecodeAt(code, t, 0);
    assert ValidFrom(t, |t|);
    ValidOn(t, 0);
    hide Decode, Encode, ValidFrom;
    Utf8Exactly(t);
    ProperNext(t, 0);
  }
}
