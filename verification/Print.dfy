/** Documents written out, with every choice that the format leaves: the spelling of keys and
    values, blanks, newlines and comments. */
module Printing {
  import opened Basics
  import opened Datum
  import opened Layouts
  import opened StringTexts
  import opened NumberTexts
  import opened StampTexts
  import opened Documents

  const COMMA: byte := 44
  const DOT: byte := 46
  const EQUALS: byte := 61
  const OPEN_BRACE: byte := 123
  const CLOSE_BRACE: byte := 125

  /** How many parts a key may have, how many arrays and inline tables may be open, and how many
      elements or entries one may hold. */
  const MAX_PARTS := 10
  const MAX_DEPTH := 30
  const MAX_ITEMS := 16384

  // ---------- keys

  datatype Part = Bare(text: Text) | Quoted(str: Str)

  /** A part of a key and the blanks around it. */
  datatype KeyPart = KeyPart(lead: seq<byte>, part: Part, trail: seq<byte>)

  type Key = seq<KeyPart>

  /** The digits, the capital and the small letters, the underscore and the dash. */
  predicate IsBareChar(c: int) {
    c in {48, 49, 50, 51, 52, 53, 54, 55, 56, 57,
          65, 66, 67, 68, 69, 70, 71, 72, 73, 74, 75, 76, 77, 78, 79, 80, 81, 82, 83, 84, 85, 86, 87, 88, 89, 90,
          97, 98, 99, 100, 101, 102, 103, 104, 105, 106, 107, 108, 109, 110, 111, 112, 113, 114, 115, 116, 117, 118,
          119, 120, 121, 122, 95, 45}
  }

  predicate PartOk(p: Part) {
    match p
    case Bare(t) => t != [] && forall c :: c in t ==> IsBareChar(c)
    case Quoted(x) => (x.Basic? || x.Literal?) && StrOk(x)
  }

  predicate KeyOk(ks: Key) {
    ks != [] && forall k :: k in ks ==> IsBlank(k.lead) && PartOk(k.part) && IsBlank(k.trail)
  }

  function PartText(p: Part): seq<byte> {
    match p
    case Bare(t) => t
    case Quoted(x) => StrText(x)
  }

  /** The n-th and following parts of a key. */
  function KeyText(ks: Key, n: nat): seq<byte>
    decreases |ks| - n, 0
  {
    if n >= |ks| then []
    else ks[n].lead + (PartText(ks[n].part) + (ks[n].trail + DottedText(ks, n + 1)))
  }

  /** The same, behind the dot that separates them from what stands before. */
  function DottedText(ks: Key, n: nat): seq<byte>
    decreases |ks| - n, 1
  {
    if n >= |ks| then [] else [DOT] + KeyText(ks, n)
  }

  function PartMeaning(p: Part): Result<Text> {
    match p
    case Bare(t) => Ok(t)
    case Quoted(x) => StrMeaning(x)
  }

  /** The texts of the parts, of which there may be ten. */
  function KeyMeaning(ks: Key, n: nat, parts: seq<Text>): (r: Result<seq<Text>>)
    requires n <= |ks|
    ensures r.Ok? ==> |r.value| == |parts| + |ks| - n && parts <= r.value
    decreases |ks| - n
  {
    if n == |ks| then Ok(parts)
    else if n >= MAX_PARTS then Err(TooManyKeyParts)
    else
      var t :- PartMeaning(ks[n].part);
      KeyMeaning(ks, n + 1, parts + [t])
  }

  // ---------- values

  datatype Val =
    | VStr(str: Str)
    | VBool(b: bool)
    | VInt(number: Integer)
    | VFloat(float: Float, double: Option<Double>)   // what strtod makes of it
    | VStamp(stamp: StampForm)
    | VArr(elems: seq<Elem>, comma: bool, end: Gap)
    | VTab(pairs: seq<Binding>, comma: bool, end: Gap)

  /** An element of an array, between what may stand around it. */
  datatype Elem = Elem(before: Gap, val: Val, after: Gap)

  /** A pair of an inline table; lead stands behind its equals sign. */
  datatype Binding = Binding(before: seq<LineEnd>, key: Key, lead: seq<byte>, val: Val, after: Gap)

  function BoolText(b: bool): seq<byte> { if b then [116, 114, 117, 101] else [102, 97, 108, 115, 101] }

  function Print(v: Val): seq<byte>
    decreases v, 0, 0
  {
    match v
    case VStr(x) => StrText(x)
    case VBool(b) => BoolText(b)
    case VInt(n) => IntegerText(n)
    case VFloat(x, _) => FloatText(x)
    case VStamp(x) => StampText(x)
    case VArr(xs, comma, end) => [OPEN] + (PrintElems(xs, 0, comma) + (GapText(end) + [CLOSE]))
    case VTab(ps, comma, end) => [OPEN_BRACE] + (PrintPairs(ps, 0, comma) + (GapText(end) + [CLOSE_BRACE]))
  }

  /** A comma stands behind every element but the last, and behind that if it is wanted. */
  function CommaText(n: nat, count: nat, comma: bool): seq<byte> { if n + 1 < count || comma then [COMMA] else [] }

  /** The n-th and following elements. */
  function PrintElems(xs: seq<Elem>, n: nat, comma: bool): seq<byte>
    requires n <= |xs|
    decreases xs, 1, |xs| - n
  {
    if n == |xs| then []
    else
      assert xs[n].val < xs[n];
      GapText(xs[n].before) +
      (Print(xs[n].val) + (GapText(xs[n].after) + (CommaText(n, |xs|, comma) + PrintElems(xs, n + 1, comma))))
  }

  function PrintPairs(ps: seq<Binding>, n: nat, comma: bool): seq<byte>
    requires n <= |ps|
    decreases ps, 1, |ps| - n
  {
    if n == |ps| then []
    else
      EndsText(ps[n].before) + (KeyText(ps[n].key, 0) + ([EQUALS] + (ps[n].lead +
      (Print(ps[n].val) + (GapText(ps[n].after) + (CommaText(n, |ps|, comma) + PrintPairs(ps, n + 1, comma)))))))
  }

  /** Written as the format wants it; whether it means anything is another question. */
  predicate ValOk(v: Val)
    decreases v, 0
  {
    match v
    case VStr(x) => StrOk(x)
    case VBool(_) => true
    case VInt(n) => IntegerOk(n)
    case VFloat(x, _) => FloatOk(x)
    case VStamp(x) => StampOkForm(x)
    case VArr(xs, _, end) => GapOk(end) && ElemsOk(xs)
    case VTab(ps, _, end) => GapOk(end) && PairsOk(ps)
  }

  predicate ElemsOk(xs: seq<Elem>)
    decreases xs, 1
  {
    forall x :: x in xs ==> (assert x.val < x; ValOk(x.val)) && GapOk(x.before) && GapOk(x.after)
  }

  predicate PairsOk(ps: seq<Binding>)
    decreases ps, 1
  {
    forall p :: p in ps ==> ValOk(p.val) && EndsOk(p.before) && KeyOk(p.key) && IsBlank(p.lead) && GapOk(p.after)
  }

  /** Every float is paired with what strtod makes of its text. */
  ghost predicate Converts(v: Val, strtod: seq<byte> -> Option<Double>)
    decreases v
  {
    match v
    case VFloat(x, d) => strtod(PlainFloat(x)) == d
    case VArr(xs, _, _) => forall x :: x in xs ==> Converts(x.val, strtod)
    case VTab(ps, _, _) => forall p :: p in ps ==> Converts(p.val, strtod)
    case _ => true
  }

  // ---------- documents

  /** An expression, as it is written. */
  datatype Line =
    | LHeader(lead: seq<byte>, key: Key)
    | LElement(lead: seq<byte>, key: Key)
    | LKeyVal(key: Key, gap: seq<byte>, val: Val)

  predicate LineOk(e: Line) {
    && KeyOk(e.key)
    && match e
       case LHeader(lead, _) => IsBlank(lead)
       case LElement(lead, _) => IsBlank(lead)
       case LKeyVal(_, gap, v) => IsBlank(gap) && ValOk(v)
  }

  function LineText(e: Line): seq<byte> {
    match e
    case LHeader(lead, key) => lead + ([OPEN] + (KeyText(key, 0) + [CLOSE]))
    case LElement(lead, key) => lead + ([OPEN, OPEN] + (KeyText(key, 0) + [CLOSE, CLOSE]))
    case LKeyVal(key, gap, v) => KeyText(key, 0) + ([EQUALS] + (gap + Print(v)))
  }

  /** A line of a document holds an expression or none, and then a blank and a comment. */
  datatype Row = Row(line: Option<Line>, end: LineEnd)

  /** Lines that end in newlines, and what stands behind the last newline. */
  datatype Document = Document(rows: seq<Row>, line: Option<Line>, tail: Tail)

  predicate MaybeOk(e: Option<Line>) { e.Some? ==> LineOk(e.value) }

  function MaybeText(e: Option<Line>): seq<byte> { if e.Some? then LineText(e.value) else [] }

  predicate RowsOk(rows: seq<Row>) { forall r :: r in rows ==> MaybeOk(r.line) && TailOk(r.end.tail) }

  predicate DocumentOk(d: Document) { RowsOk(d.rows) && MaybeOk(d.line) && TailOk(d.tail) }

  function RowsText(rows: seq<Row>): seq<byte> {
    if rows == [] then [] else MaybeText(rows[0].line) + (EndText(rows[0].end) + RowsText(rows[1..]))
  }

  function DocumentText(d: Document): seq<byte> { RowsText(d.rows) + (MaybeText(d.line) + TailText(d.tail)) }

  ghost predicate LineConverts(e: Line, strtod: seq<byte> -> Option<Double>) {
    e.LKeyVal? ==> Converts(e.val, strtod)
  }

  ghost predicate DocumentConverts(d: Document, strtod: seq<byte> -> Option<Double>) {
    (forall r :: r in d.rows && r.line.Some? ==> LineConverts(r.line.value, strtod))
    && (d.line.Some? ==> LineConverts(d.line.value, strtod))
  }

  /** The expressions of a document, in order. */
  function LinesOf(rows: seq<Row>): seq<Line> {
    if rows == [] then []
    else (if rows[0].line.Some? then [rows[0].line.value] else []) + LinesOf(rows[1..])
  }

  function AllLines(d: Document): seq<Line> { LinesOf(d.rows) + if d.line.Some? then [d.line.value] else [] }
}
