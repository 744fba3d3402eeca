/** reload_config: what the daemon takes from its configuration file. */
module Config {
  import opened Basics
  import opened Datum
  import opened Scanning
  import opened TomlMerge
  import opened Getting
  import opened Trees
  import opened Documents
  import opened DocumentLaws
  import opened DocumentRuns
  import opened HeaderPaths
  import opened InlineTables
  import opened TopLevel
  import opened Parsing
  import opened Parsers
  import opened StringTexts
  import opened NumberTexts
  import opened StampTexts
  import opened Printing
  import opened Meanings
  import opened RoundTrips
  import opened TextLimits
  import opened LineRuns
  import opened Sessions

  const KEY := Ascii("max_sessions")
  const DEFAULT_MAX: int32 := 1024

  /** The cast to int. */
  function ToInt32(v: int): int32 {
    var m := v % 0x1_0000_0000;
    if m <= INT32_MAX then m else m - 0x1_0000_0000
  }

  /** max_sessions as a tree sets it: anything but a positive integer is ignored. */
  function MaxSetting(top: Datum): int32 {
    Setting(SeekParts(top, KEY))
  }

  function Setting(d: Option<Datum>): int32 {
    if d.Some? && d.value.Leaf? && d.value.scalar.Int64? && d.value.scalar.i > 0
    then ToInt32(d.value.scalar.i) else DEFAULT_MAX
  }

  /** The same for a file, which may be missing or refused. */
  function MaxOf(file: Option<Input>): Option<int32> {
    if file.None? || TomlParse(file.value).Err? then None else Some(MaxSetting(TomlParse(file.value).value.0))
  }

  /** The first half of reload_config. */
  method ReadMax(file: Option<Input>) returns (r: Option<int32>)
    ensures r == MaxOf(file)
  {
    hide TomlParse;
    if file == None {
      return None;
    }
    var config, _ := Parse(file.value);
    if config.Err? {
      return None;
    }
    var datum := TomlSeek(config.value, KEY);
    return Some(Setting(datum));
  }

  /** A positive setting takes effect as it is written exactly when it is an int: the table
      then has room for at least that many sessions, and for no fewer than before. */
  lemma SettingHonoured(t: Sessions.Table, v: int)
    requires v > 0 && t.max <= INT32_MAX
    ensures Reload(t, Some(ToInt32(v)), true).max == (if v > t.max then v else t.max) <==> v <= INT32_MAX
  {}

  /** A setting of 2^32 + 1 asks for one session. */
  lemma SettingWraps()
    ensures ToInt32(0x1_0000_0001) == 1
    ensures Reload(NO_SESSIONS, Some(ToInt32(0x1_0000_0001)), true) == NO_SESSIONS.(max := 1)
  {}

  // ---------- from text to the daemon

  /** What a written value amounts to. */
  function Meant(v: Val): int32 {
    if v.VInt? && IntegerValue(v.number) > 0 then ToInt32(IntegerValue(v.number)) else DEFAULT_MAX
  }

  /** What a line gives to the first part of its key: a value if that is all of the key. */
  function SettingOf(e: Line): int32 { if e.LKeyVal? && |e.key| == 1 then Meant(e.val) else DEFAULT_MAX }

  /** The line starts at the root, and the first part of its key reads as max_sessions up to its
      first NUL. */
  predicate Reads(e: Line, root: bool) {
    && (root || !e.LKeyVal?)
    && var keys := KeyMeaning(e.key, 0, []);
       keys.Ok? && keys.value != [] && CStr(keys.value[0]) == KEY
  }

  /** The setting that the daemon takes from lines: that of the first such line. Before the first
      header, key/values start at the root, and headers always do. */
  function SeenSetting(es: seq<Line>, root: bool): int32
    decreases |es|
  {
    if es == [] then DEFAULT_MAX
    else if Reads(es[0], root) then SettingOf(es[0])
    else SeenSetting(es[1..], root && es[0].LKeyVal?)
  }

  // ---------- the entries of the root

  function Found(es: seq<Entry>): bool { GetIndex(es, KEY, 0) < |es| }

  function SettingIn(es: seq<Entry>): int32 {
    var g := GetIndex(es, KEY, 0);
    Setting(if g < |es| then Some(es[g].val) else None)
  }

  lemma {:induction false} GetIs(es: seq<Entry>, g: nat)
    requires g < |es| && CStr(es[g].key) == KEY && forall m :: 0 <= m < g ==> CStr(es[m].key) != KEY
    ensures Found(es) && SettingIn(es) == Setting(Some(es[g].val))
  {
    hide KEY, CStr;
    assert GetIndex(es, KEY, 0) == g;
  }

  lemma {:induction false} FoundStays(es: seq<Entry>, fs: seq<Entry>)
    requires Continues(es, fs) && Found(es)
    ensures Found(fs) && SettingIn(fs) == SettingIn(es)
  {
    hide KEY, CStr;
    var g := GetIndex(es, KEY, 0);
    assert SameKind(es[g].val, fs[g].val);
    GetIs(fs, g);
  }

  lemma {:induction false} NotFoundYet(es: seq<Entry>, fs: seq<Entry>)
    requires Continues(es, fs) && !Found(es) && |fs| <= |es| + 1
    ensures if |fs| == |es| + 1 && CStr(fs[|es|].key) == KEY
            then Found(fs) && SettingIn(fs) == Setting(Some(fs[|es|].val))
            else !Found(fs)
  {
    hide KEY, CStr, SameKind;
    var n := |es|;
    assert forall m :: 0 <= m < n ==> CStr(fs[m].key) != KEY;
    if |fs| == n + 1 && CStr(fs[n].key) == KEY {
      GetIs(fs, n);
    } else {
      var g := GetIndex(fs, KEY, 0);
    }
  }

  /** What a line does to the setting. */
  lemma {:induction false} LineSetting(doc: Doc, e: Line, h: nat)
    requires DocValid(doc) && e.key != [] && EvalLine(doc, e, h).Ok?
    ensures var next := EvalLine(doc, e, h).value;
            && DocValid(next) && doc.top.Table? && next.top.Table?
            && (next.curtab == [] <==> doc.curtab == [] && e.LKeyVal?)
            && var es, fs := doc.top.entries, next.top.entries;
               if Found(es) then Found(fs) && SettingIn(fs) == SettingIn(es)
               else if Reads(e, doc.curtab == []) then Found(fs) && SettingIn(fs) == SettingOf(e)
               else !Found(fs)
  {
    hide EvalLine, Apply, DocValid, Continues, KEY, CStr, Found, SettingIn, SettingOf, Reads, GoodExpr, OfValues, ExprOf,
         Assigned, ClosedKept, Opened, NewEntry;
    LineIsApplied(doc, e, h);
    var x := ExprOf(e, h).value;
    ApplyValid(doc, x);
    RootStep(doc, x);
    var next := EvalLine(doc, e, h).value;
    CurrentMoves(doc, e, h);
    var es, fs := doc.top.entries, next.top.entries;
    ExprReads(doc, e, h);
    if Found(es) {
      FoundStays(es, fs);
    } else {
      NotFoundYet(es, fs);
      if Reads(e, doc.curtab == []) {
        NewIsFound(es, x.keys[0]);
        NewSetting(e, h, fs[|es|]);
      } else if FromRoot(doc, x) && Find(es, x.keys[0]) < 0 {
        NewKey(fs[|es|], x.keys[0], SoleValue(x));
      }
    }
  }

  lemma {:induction false} NewKey(e: Entry, k: Text, v: Option<Datum>)
    requires NewEntry(e, k, v)
    ensures e.key == k
  {}

  lemma {:induction false} NewIsFound(es: seq<Entry>, k: Text)
    requires !Found(es) && CStr(k) == KEY
    ensures Find(es, k) < 0
  {
    hide KEY, CStr;
    var j := Find(es, k);
    var g := GetIndex(es, KEY, 0);
  }

  lemma {:induction false} ExprReads(doc: Doc, e: Line, h: nat)
    requires e.key != [] && ExprOf(e, h).Ok?
    ensures var x := ExprOf(e, h).value;
            x.keys != [] && (Reads(e, doc.curtab == []) <==> FromRoot(doc, x) && CStr(x.keys[0]) == KEY)
  {
    hide KEY, CStr, KeyMeaning, Eval;
  }

  lemma {:induction false} CurrentMoves(doc: Doc, e: Line, h: nat)
    requires DocValid(doc) && e.key != [] && EvalLine(doc, e, h).Ok?
    ensures EvalLine(doc, e, h).value.curtab == [] <==> doc.curtab == [] && e.LKeyVal?
  {
    hide KeyMeaning, Eval, OpenTable, OpenElement, Locate, TabAdd, DocValid, KeySteps, Latest;
    var keys := KeyMeaning(e.key, 0, []).value;
    match e {
      case LHeader(_, _) => OpenTableSpells(doc, keys);
      case LElement(_, _) => OpenElementSpells(doc, keys);
      case LKeyVal(_, _, _) =>
    }
    NoStepsNoKeys();
  }

  lemma {:induction false} NoStepsNoKeys()
    ensures KeySteps([]) == []
  {}

  /** The new entry means what the line says. */
  lemma {:induction false} NewSetting(e: Line, h: nat, entry: Entry)
    requires e.key != [] && ExprOf(e, h).Ok?
    requires var x := ExprOf(e, h).value; x.keys != [] && NewEntry(entry, x.keys[0], SoleValue(x))
    ensures entry.key == ExprOf(e, h).value.keys[0] && Setting(Some(entry.val)) == SettingOf(e)
  {
    hide KeyMeaning, Eval, ToInt32;
    if e.LKeyVal? && |e.key| == 1 {
      MeantSetting(e.val, -(h as int), 0);
    }
  }

  lemma {:induction false} MeantSetting(v: Val, b: int, c: int)
    requires Eval(v, b, c).Ok?
    ensures Setting(Some(Eval(v, b, c).value)) == Meant(v)
  {
    hide ToInt32, IntegerValue, Inline, StampMeaning, StrMeaning;
    match v {
      case VArr(xs, _, _) => InlineShape(Array(NO_FLAGS, EvalElems(xs, 0, [], b + 1, c).value));
      case VTab(ps, _, _) =>
        PairsMakeTable(ps, 0, EMPTY_TABLE, b, c + 1);
        InlineShape(EvalPairs(ps, 0, EMPTY_TABLE, b, c + 1).value);
      case VStamp(x) => StampIsNoInteger(x);
      case _ =>
    }
  }

  lemma {:induction false} InlineShape(d: Datum)
    requires !d.Leaf?
    ensures !Inline(d).Leaf?
  {}

  lemma {:induction false} StampIsNoInteger(x: StampForm)
    requires StampMeaning(x).Ok?
    ensures !StampMeaning(x).value.Int64?
  {}

  lemma {:induction false} SeenFrom(doc: Doc, es: seq<Line>, h: nat)
    requires DocValid(doc) && HaveKeys(es) && EvalLines(doc, es, h).Ok?
    ensures var last := EvalLines(doc, es, h).value;
            && doc.top.Table? && last.top.Table?
            && SettingIn(last.top.entries) ==
               if Found(doc.top.entries) then SettingIn(doc.top.entries) else SeenSetting(es, doc.curtab == [])
    decreases |es|
  {
    hide EvalLine, SettingIn, Reads, SettingOf;
    if es == [] {
      NothingSet(doc.top.entries);
    } else {
      hide Found, DocValid;
      LineSetting(doc, es[0], h);
      var next := EvalLine(doc, es[0], h).value;
      InRest(es);
      SeenFrom(next, es[1..], h + HeadersIn(es[0]));
    }
  }

  lemma {:induction false} NothingSet(es: seq<Entry>)
    ensures !Found(es) ==> SettingIn(es) == DEFAULT_MAX
  {}

  lemma {:induction false} KeyHasNoDot()
    ensures 0 !in KEY && KEY_DOT !in KEY && |KEY| <= SEEK_MAX
    ensures forall d: Datum :: SeekParts(d, KEY) == Get(d, KEY)
  {
    assert forall i :: 0 <= i < |KEY| ==> KEY[i] == Letter("max_sessions"[i]) != KEY_DOT;
    assert DotAt(KEY, 0) == |KEY|;
  }

  lemma {:induction false} StartsEmpty()
    ensures DocValid(EMPTY_DOC) && !Found(EMPTY_TABLE.entries)
  {}

  /** From the text of a configuration to the daemon, whatever its lines and however it is written:
      it is refused as a whole, or the first line decides that starts at the root with a key whose
      first part reads as max_sessions. */
  lemma {:induction false} WrittenSettings(s: Input, d: Document)
    requires Written(s, d)
    ensures MaxOf(Some(s)) == if EvalDocument(d).Ok? then Some(SeenSetting(AllLines(d), true)) else None
  {
    hide TomlParse, Written, AllLines, EvalLines, SettingIn, SeenSetting, Found, LineOk, KeyOk, DocValid, KEY;
    DocumentRoundTrip(s, d);
    WrittenLines(s, d);
    StartsEmpty();
    if EvalDocument(d).Ok? {
      SeenFrom(EMPTY_DOC, AllLines(d), 0);
      SettingFound(EvalDocument(d).value);
    }
  }

  lemma {:induction false} SettingFound(top: Datum)
    requires top.Table?
    ensures MaxSetting(top) == SettingIn(top.entries)
  {
    hide KEY, Setting;
    KeyHasNoDot();
  }

  // ---------- the line max_sessions

  /** The line at j assigns to max_sessions in the root: no header stands before it. */
  predicate IsTheSetting(es: seq<Line>, j: nat) {
    j < |es| && es[j].LKeyVal? && Names(es[j].key, KEY) && forall i :: 0 <= i < j ==> es[i].LKeyVal?
  }

  /** In a run of key/values the root stays current. */
  lemma {:induction false} RootStaysCurrent(docs: seq<Doc>, xs: seq<Expr>, n: nat)
    requires IsRun(docs, xs) && n <= |xs| && forall m :: 0 <= m < n ==> xs[m].KeyVal?
    ensures docs[n].curtab == []
    decreases n
  {
    hide Apply, GoodExpr, DocValid, ClosedKept, LeavesPlus, StrBytes, Grows;
    if n > 0 {
      RootStaysCurrent(docs, xs, n - 1);
      RunValid(docs, xs, n - 1);
      StepOf(docs, xs, n - 1);
      ApplyValid(docs[n - 1], xs[n - 1]);
    }
  }

  /** A key of one part is not given twice, nor to a table first. */
  lemma {:induction false} FirstPartTaken(docs: seq<Doc>, xs: seq<Expr>, i: nat, j: nat, k: Text)
    requires IsRun(docs, xs) && i < j < |xs| && (forall m :: 0 <= m <= j ==> xs[m].KeyVal?)
    requires xs[j].keys == [k]
    ensures xs[i].keys[0] != k
  {
    hide Apply, GoodExpr, DocValid, ClosedKept, LeavesPlus, StrBytes, Grows, Continues, WellFormed;
    RootStaysCurrent(docs, xs, i);
    RootStaysCurrent(docs, xs, j);
    RunValid(docs, xs, i);
    RunValid(docs, xs, i + 1);
    RunValid(docs, xs, j);
    StepOf(docs, xs, i);
    StepOf(docs, xs, j);
    FirstPartThere(docs[i], xs[i]);
    RunGrows(docs, xs, i + 1, j);
    TablesThere(docs[i + 1]);
    TablesThere(docs[j]);
    RootContinues(docs[i + 1].top, docs[j].top);
    FindContinues(docs[i + 1].top.entries, docs[j].top.entries, xs[i].keys[0]);
    ApplyValid(docs[j], xs[j]);
    TargetIsRoot(k);
    AtStep(docs[j].top, [], K(k));
  }

  lemma {:induction false} TablesThere(doc: Doc)
    requires DocValid(doc)
    ensures doc.top.Table? && WellFormed(doc.top)
  {}

  lemma {:induction false} FindContinues(es: seq<Entry>, fs: seq<Entry>, k: Text)
    requires Continues(es, fs) && Find(es, k) >= 0
    ensures Find(fs, k) >= 0
  {
    assert fs[Find(es, k)].key == k;
  }

  lemma {:induction false} TargetIsRoot(k: Text)
    ensures [] + KeyPath([k]) == [] + [K(k)]
  {}

  lemma {:induction false} ShadowHasNul(es: seq<Line>, i: nat, j: nat)
    requires HaveKeys(es) && EvalLines(EMPTY_DOC, es, 0).Ok? && IsTheSetting(es, j) && i < j && Reads(es[i], true)
    ensures 0 in KeyMeaning(es[i].key, 0, []).value[0]
  {
    hide EvalLines, KEY, CStr, KeyMeaning, LinesRun, HeadersOf, IsRun;
    var docs, xs := LinesAreRun(es);
    forall m | 0 <= m <= j ensures m < |xs| && xs[m].KeyVal? && KeyMeaning(es[m].key, 0, []) == Ok(xs[m].keys) {
      LineExpr(es, docs, xs, m);
    }
    RunLengths(es, docs, xs);
    FirstPartTaken(docs, xs, i, j, KEY);
    CStrPlain(xs[i].keys[0]);
  }

  lemma {:induction false} RunLengths(es: seq<Line>, docs: seq<Doc>, xs: seq<Expr>)
    requires LinesRun(es, docs, xs)
    ensures IsRun(docs, xs) && |xs| == |es|
  {
    hide IsRun, ExprOf;
  }

  lemma {:induction false} LineExpr(es: seq<Line>, docs: seq<Doc>, xs: seq<Expr>, m: nat)
    requires LinesRun(es, docs, xs) && m < |es| && es[m].LKeyVal?
    ensures m < |xs| && xs[m].KeyVal? && KeyMeaning(es[m].key, 0, []) == Ok(xs[m].keys)
  {
    hide KeyMeaning, Eval, IsRun, OfValues;
  }

  /** In a configuration that is accepted, the line with the key max_sessions, in any spelling, is
      the one that counts exactly when no line before it has a key whose first part reads the same;
      such a key has a NUL in it. */
  lemma {:induction false} WrittenSetting(s: Input, d: Document, j: nat)
    requires Written(s, d) && EvalDocument(d).Ok? && IsTheSetting(AllLines(d), j)
    ensures var es := AllLines(d);
            if exists i :: 0 <= i < j && Reads(es[i], true)
            then exists i :: 0 <= i < j && Reads(es[i], true) && 0 in KeyMeaning(es[i].key, 0, []).value[0]
                             && MaxOf(Some(s)) == Some(SettingOf(es[i]))
            else MaxOf(Some(s)) == Some(Meant(es[j].val))
  {
    hide Written, AllLines, MaxOf, Meant, Reads, EvalLines, KEY, KeyMeaning, LineOk, KeyOk, Names;
    var es := AllLines(d);
    WrittenSettings(s, d);
    WrittenLines(s, d);
    TheSettingReads(es[j]);
    var i := FirstSeen(es, 0, j);
    if i < j {
      ShadowHasNul(es, i, j);
    }
  }

  lemma {:induction false} TheSettingReads(e: Line)
    requires e.LKeyVal? && Names(e.key, KEY)
    ensures Reads(e, true) && SettingOf(e) == Meant(e.val)
  {
    KeyHasNoDot();
    hide KEY, CStr, Meant;
    CStrPlain(KEY);
  }

  lemma {:induction false} FirstSeen(es: seq<Line>, i: nat, j: nat) returns (k: nat)
    requires i <= j < |es| && Reads(es[j], true) && forall m :: 0 <= m <= j ==> es[m].LKeyVal?
    ensures i <= k <= j && Reads(es[k], true) && SeenSetting(es[i..], true) == SettingOf(es[k])
    ensures forall m :: i <= m < k ==> !Reads(es[m], true)
    decreases j - i
  {
    hide Reads, SettingOf;
    k := i;
    assert es[i..][0] == es[i] && es[i..][1..] == es[i + 1..];
    if !Reads(es[i], true) {
      k := FirstSeen(es, i + 1, j);
    }
  }

  /** Two lines with different keys, of which the daemon takes the first: its key is max_sessions
      followed by a NUL and an x, and the tree has 5 under max_sessions. */
  lemma {:induction false} ShadowedSetting(s: Input, d: Document, shadow: Line, line: Line, seven: Integer, five: Integer)
    requires shadow.LKeyVal? && Names(shadow.key, KEY + [0, 120]) && shadow.val == VInt(seven) && IntegerMeaning(seven) == Ok(Int64(7))
    requires line.LKeyVal? && Names(line.key, KEY) && line.val == VInt(five) && IntegerMeaning(five) == Ok(Int64(5))
    requires Written(s, d) && AllLines(d) == [shadow, line]
    ensures TomlParse(s).Ok? && Seek(TomlParse(s).value.0, [KEY]) == Some(Leaf(NO_FLAGS, Int64(5)))
    ensures MaxOf(Some(s)) == Some(7)
  {
    hide TomlParse, Written, AllLines, MaxOf, SeenSetting, EvalLines, IntegerMeaning, KEY, Names;
    var k := KEY + [0, 120];
    ShadowDiffers();
    DocumentRoundTrip(s, d);
    FirstLine(shadow, k, [line]);
    assert [shadow] + [line] == [shadow, line];
    var v, w := Leaf(NO_FLAGS, Int64(7)), Leaf(NO_FLAGS, Int64(5));
    assert Eval(shadow.val, 0, 0) == Ok(v) && Eval(line.val, 0, 0) == Ok(w);
    EvalOne(Doc(Sole(k, v), []), line, 0);
    SecondLine(k, v, line, w);
    WrittenSettings(s, d);
    ShadowReads(shadow);
    ShadowSeen(shadow, line, seven);
  }

  lemma {:induction false} ShadowSeen(shadow: Line, line: Line, seven: Integer)
    requires Reads(shadow, true) && SettingOf(shadow) == Meant(VInt(seven)) && IntegerMeaning(seven) == Ok(Int64(7))
    ensures SeenSetting([shadow, line], true) == 7
  {
    hide Reads, SettingOf;
    assert IntegerValue(seven) == 7;
  }

  lemma {:induction false} ShadowDiffers()
    ensures KEY + [0, 120] != KEY
  {
    assert |KEY + [0, 120]| != |KEY|;
  }

  lemma {:induction false} SecondLine(k: Text, v: Datum, line: Line, w: Datum)
    requires line.LKeyVal? && Names(line.key, KEY) && Eval(line.val, 0, 0) == Ok(w) && k != KEY
    ensures EvalLine(Doc(Sole(k, v), []), line, 0) == Ok(Doc(Datum.Table(NO_FLAGS, [Entry(k, v), Entry(KEY, w)]), []))
    ensures Seek(Datum.Table(NO_FLAGS, [Entry(k, v), Entry(KEY, w)]), [KEY]) == Some(w)
  {
    hide KEY, Eval, KeyMeaning;
    var ks: seq<Text> := [KEY];
    assert ks[..0] == [] && ks[1..] == [];
    assert [Entry(k, v)] + [Entry(KEY, w)] == [Entry(k, v), Entry(KEY, w)];
    var t := Datum.Table(NO_FLAGS, [Entry(k, v), Entry(KEY, w)]);
    assert t.entries[0].key == k && t.entries[1].key == KEY;
    assert Find(t.entries, KEY) == 1;
    assert Seek(w, ks[1..]) == Some(w);
  }

  lemma {:induction false} ShadowReads(e: Line)
    requires e.LKeyVal? && Names(e.key, KEY + [0, 120])
    ensures Reads(e, true) && SettingOf(e) == Meant(e.val)
  {
    ReadsAsKey([120]);
    hide KEY, CStr, Meant;
    assert KEY + [0] + [120] == KEY + [0, 120];
  }

  lemma ReadsAsKey(t: Text)
    ensures CStr(KEY + [0] + t) == KEY
  {
    KeyHasNoDot();
    CStrStops(KEY, t);
  }

  lemma {:induction false} CStrStops(k: Text, t: Text)
    requires 0 !in k
    ensures CStr(k + [0] + t) == k
  {
    var u := k + [0] + t;
    if k != [] {
      assert u[1..] == k[1..] + [0] + t;
      CStrStops(k[1..], t);
    }
  }
}
