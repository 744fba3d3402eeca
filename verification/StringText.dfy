/** Strings written out: every spelling of a character in each of the four kinds of quotes. */
module StringTexts {
  import opened Basics
  import opened Utf8
  import opened Layouts

  /** A space, a tab or a newline behind a line-ending backslash. */
  datatype White = Space | Tab | NewLine(newline: Newline)

  function WhiteText(w: White): (t: seq<byte>)
    ensures t != []
  {
    match w
    case Space => [SPACE]
    case Tab => [TAB]
    case NewLine(n) => NewlineText(n)
  }

  function WhitesText(ws: seq<White>): seq<byte> {
    if ws == [] then [] else WhiteText(ws[0]) + WhitesText(ws[1..])
  }

  /** One character, or a line-ending backslash with all that it removes. */
  datatype Piece =
    | Raw(c: byte)
    | Short(c: byte)                                   // \b \t \n \f \r \e \" \\
    | Code(digits: nat, code: nat, caps: seq<bool>)    // \xNN \uNNNN \UNNNNNNNN
    | Break(newline: Newline)
    | Join(blank: seq<byte>, newline: Newline, more: seq<White>)

  /** The letter of a short escape. */
  function ShortLetter(c: byte): byte {
    match c
    case 8 => 98     // b, backspace
    case 9 => 116    // t, tab
    case 10 => 110   // n, line feed
    case 12 => 102   // f, form feed
    case 13 => 114   // r, carriage return
    case 27 => 101   // e, escape
    case _ => c      // the quote and the backslash
  }

  predicate HasShort(c: byte) { c in {8, 9, 10, 12, 13, 27, 34, 92} }

  function CodeLetter(digits: nat): byte {
    if digits == 2 then 120 else if digits == 4 then 117 else 85
  }

  function HexLetter(v: nat, cap: bool): (c: byte)
    requires v < 16
  {
    if v < 10 then 48 + v else if cap then 55 + v else 87 + v
  }

  /** The last n hexadecimal digits of v; the k-th of them is a capital if caps[k] is set. */
  function HexText(v: nat, n: nat, caps: seq<bool>): (t: seq<byte>)
    ensures |t| == n
    decreases n
  {
    if n == 0 then [] else HexText(v / 16, n - 1, caps) + [HexLetter(v % 16, n <= |caps| && caps[n - 1])]
  }

  function PieceText(p: Piece): (t: seq<byte>)
    ensures t != []
  {
    match p
    case Raw(c) => [c]
    case Short(c) => [BACKSLASH, ShortLetter(c)]
    case Code(n, v, caps) => [BACKSLASH, CodeLetter(n)] + HexText(v, n, caps)
    case Break(n) => NewlineText(n)
    case Join(b, n, more) => [BACKSLASH] + (b + (NewlineText(n) + WhitesText(more)))
  }

  function Power16(n: nat): nat { if n == 0 then 1 else 16 * Power16(n - 1) }

  /** May be written between quotes of its kind. */
  predicate PieceOk(p: Piece, multiline: bool) {
    match p
    case Raw(c) => (c == TAB || 32 <= c <= 126 || 128 <= c) && c != BACKSLASH && (!multiline ==> c != QUOTE)
    case Short(c) => HasShort(c)
    case Code(n, v, _) => n in {2, 4, 8} && v < Power16(n)
    case Break(_) => multiline
    case Join(b, _, _) => multiline && IsBlank(b)
  }

  predicate IsWhitePiece(p: Piece) { p.Break? || p == Raw(SPACE) || p == Raw(TAB) }

  /** No three quotes in a row, and no white space that a line-ending backslash would remove. */
  predicate PiecesOk(ps: seq<Piece>, multiline: bool) {
    && (forall p :: p in ps ==> PieceOk(p, multiline))
    && (forall k :: 0 <= k < |ps| - 2 ==> !(ps[k] == ps[k + 1] == ps[k + 2] == Raw(QUOTE)))
    && (forall k :: 0 <= k < |ps| - 1 && ps[k].Join? ==> !IsWhitePiece(ps[k + 1]))
  }

  function PiecesText(ps: seq<Piece>): seq<byte> {
    if ps == [] then [] else PieceText(ps[0]) + PiecesText(ps[1..])
  }

  // ---------- what they mean

  predicate IsRefusedCode(v: nat) { 0xD800 <= v <= 0xDFFF || v > MAX_CODE }

  /** The character of a code, unless it is a surrogate or above 0x1FFFFF. */
  function CodeMeaning(v: nat): Result<Text> {
    if IsRefusedCode(v) then Err(BadUnicode) else Ok(Encode(v).value)
  }

  function PieceMeaning(p: Piece): Result<Text> {
    match p
    case Raw(c) => Ok([c])
    case Short(c) => Ok([c])
    case Code(_, v, _) => CodeMeaning(v)
    case Break(n) => Ok(NewlineText(n))
    case Join(_, _, _) => Ok([])
  }

  function PiecesMeaning(ps: seq<Piece>): Result<Text> {
    if ps == [] then Ok([])
    else
      var t :- PieceMeaning(ps[0]);
      var r :- PiecesMeaning(ps[1..]);
      Ok(t + r)
  }

  // ---------- literal text

  /** What may stand between apostrophes. */
  predicate LiteralOk(t: Text) {
    forall c :: c in t ==> (c == TAB || 32 <= c <= 126 || 128 <= c) && c != APOSTROPHE
  }

  predicate StartsLine(t: Text) { t != [] && (t[0] == LF || (t[0] == CR && |t| > 1 && t[1] == LF)) }

  /** A newline may be CR LF, but CR stands nowhere else. */
  predicate MlLiteralChar(t: Text, k: nat)
    requires k < |t|
  {
    t[k] == TAB || 32 <= t[k] <= 126 || 128 <= t[k] || t[k] == LF || (t[k] == CR && k + 1 < |t| && t[k + 1] == LF)
  }

  /** What may stand between three apostrophes: newlines too, but no three apostrophes. */
  predicate MlLiteralOk(t: Text) {
    && (forall k :: 0 <= k < |t| ==> MlLiteralChar(t, k))
    && forall k :: 0 <= k < |t| - 2 ==> !(t[k] == t[k + 1] == t[k + 2] == APOSTROPHE)
  }

  // ---------- strings

  /** A string between one or three quotes or apostrophes; first is the newline right behind
      three of them, which is no part of the text. */
  datatype Str =
    | Basic(pieces: seq<Piece>)
    | Literal(text: Text)
    | MlBasic(first: Option<Newline>, pieces: seq<Piece>)
    | MlLiteral(first: Option<Newline>, text: Text)

  predicate StrOk(x: Str) {
    match x
    case Basic(ps) => PiecesOk(ps, false)
    case Literal(t) => LiteralOk(t)
    case MlBasic(first, ps) => PiecesOk(ps, true) && (first.None? ==> ps == [] || !ps[0].Break?)
    case MlLiteral(first, t) => MlLiteralOk(t) && (first.None? ==> !StartsLine(t))
  }

  function FirstText(first: Option<Newline>): seq<byte> {
    match first case None => [] case Some(n) => NewlineText(n)
  }

  const QUOTES := [QUOTE, QUOTE, QUOTE]
  const APOSTROPHES := [APOSTROPHE, APOSTROPHE, APOSTROPHE]

  function StrText(x: Str): (t: seq<byte>)
    ensures |t| >= 2
  {
    match x
    case Basic(ps) => [QUOTE] + (PiecesText(ps) + [QUOTE])
    case Literal(t) => [APOSTROPHE] + (t + [APOSTROPHE])
    case MlBasic(first, ps) => QUOTES + (FirstText(first) + (PiecesText(ps) + QUOTES))
    case MlLiteral(first, t) => APOSTROPHES + (FirstText(first) + (t + APOSTROPHES))
  }

  function StrMeaning(x: Str): Result<Text> {
    match x
    case Basic(ps) => PiecesMeaning(ps)
    case Literal(t) => Ok(t)
    case MlBasic(_, ps) => PiecesMeaning(ps)
    case MlLiteral(_, t) => Ok(t)
  }
}
