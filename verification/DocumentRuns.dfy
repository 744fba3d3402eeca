/** Whole documents: every sequence of expressions, applied one after the other. */
module DocumentRuns {
  import opened Basics
  import opened Datum
  import opened Trees
  import opened Documents
  import opened DocumentLaws

  ghost predicate GoodExpr(e: Expr) { e.keys != [] && (e.KeyVal? ==> WellFormed(e.val)) }

  /** docs[i] is the document after the first i expressions. */
  ghost predicate IsRun(docs: seq<Doc>, es: seq<Expr>) {
    && |docs| == |es| + 1 && docs[0] == EMPTY_DOC
    && forall i :: 0 <= i < |es| ==> GoodExpr(es[i]) && Apply(docs[i], es[i]) == Ok(docs[i + 1])
  }

  lemma StepOf(docs: seq<Doc>, es: seq<Expr>, i: nat)
    requires IsRun(docs, es) && i < |es|
    ensures GoodExpr(es[i]) && Apply(docs[i], es[i]) == Ok(docs[i + 1])
  {}

  lemma EmptyDocValid()
    ensures DocValid(EMPTY_DOC)
  {}

  lemma ApplyValid(doc: Doc, e: Expr)
    requires DocValid(doc) && GoodExpr(e) && Apply(doc, e).Ok?
    ensures var next := Apply(doc, e).value;
            && DocValid(next) && Grows(doc.top, next.top)
            && (e.KeyVal? ==> Assigned(doc, next, e.keys, e.val) && ClosedKept(doc.top, next.top, doc.curtab))
            && (!e.KeyVal? ==> Opened(doc, next))
  {
    hide DocValid, OpenTable, OpenElement, WellFormed, ClosedKept;
    match e
    case Header(keys) => OpenTableEffect(doc, keys);
    case ElementHeader(keys) => OpenElementEffect(doc, keys);
    case KeyVal(keys, v) =>
      hide Apply;
      KeyValueEffect(doc, keys, v);
      KeyValueClosed(doc, keys, v);
  }

  lemma {:induction false} RunValid(docs: seq<Doc>, es: seq<Expr>, i: nat)
    requires IsRun(docs, es) && i <= |es|
    ensures DocValid(docs[i])
  {
    hide DocValid, Apply;
    if i == 0 {
      EmptyDocValid();
    } else {
      RunValid(docs, es, i - 1);
      StepOf(docs, es, i - 1);
      ApplyValid(docs[i - 1], es[i - 1]);
    }
  }

  /** Nothing is ever lost or overwritten: every place of an earlier tree is a place of every
      later one, with the same leaf, or with at least the same keys or elements in order. */
  lemma {:induction false} RunGrows(docs: seq<Doc>, es: seq<Expr>, i: nat, j: nat)
    requires IsRun(docs, es) && i <= j <= |es|
    ensures Grows(docs[i].top, docs[j].top)
  {
    hide DocValid, Apply, Grows;
    if i == j {
      GrowsReflexive(docs[i].top);
    } else {
      RunGrows(docs, es, i, j - 1);
      RunValid(docs, es, j - 1);
      StepOf(docs, es, j - 1);
      ApplyValid(docs[j - 1], es[j - 1]);
      GrowsTransitive(docs[i].top, docs[j - 1].top, docs[j].top);
    }
  }

  /** The current table of any moment is closed in every later tree. */
  lemma CurtabStaysClosed(docs: seq<Doc>, es: seq<Expr>, i: nat, j: nat)
    requires IsRun(docs, es) && i <= j <= |es|
    ensures Closed(docs[j].top, docs[i].curtab)
  {
    hide Apply, Grows, WellFormed;
    RunValid(docs, es, i);
    RunGrows(docs, es, i, j);
    ClosedGrows(docs[i].top, docs[j].top, docs[i].curtab);
  }

  /** A header never makes current a table that has been current before: no table is opened
      twice, and none is returned to. */
  lemma NeverReopened(docs: seq<Doc>, es: seq<Expr>, i: nat, j: nat)
    requires IsRun(docs, es) && i <= j < |es| && !es[j].KeyVal?
    ensures docs[j + 1].curtab != docs[i].curtab
  {
    hide Apply, Closed, DocValid, Grows;
    RunValid(docs, es, j);
    StepOf(docs, es, j);
    ApplyValid(docs[j], es[j]);
    CurtabStaysClosed(docs, es, i, j);
  }

  /** Once the current table has moved on from a table, it stays away. */
  lemma {:induction false} NeverReturns(docs: seq<Doc>, es: seq<Expr>, i: nat, j: nat, m: nat)
    requires IsRun(docs, es) && i <= j <= m <= |es| && docs[j].curtab != docs[i].curtab
    ensures docs[m].curtab != docs[i].curtab
  {
    hide Apply, DocValid, Grows, ClosedKept;
    if j < m {
      NeverReturns(docs, es, i, j, m - 1);
      if es[m - 1].KeyVal? {
        RunValid(docs, es, m - 1);
        StepOf(docs, es, m - 1);
        ApplyValid(docs[m - 1], es[m - 1]);
      } else {
        NeverReopened(docs, es, i, m - 1);
      }
    }
  }

  /** One block per table: after the current table has moved on from the root, a header table
      or an array element, no key/value, dotted or not, adds an entry to it. */
  lemma OneBlock(docs: seq<Doc>, es: seq<Expr>, i: nat, j: nat, m: nat)
    requires IsRun(docs, es) && i <= j <= m < |es| && docs[j].curtab != docs[i].curtab && es[m].KeyVal?
    ensures NodeAt(docs[m].top, docs[i].curtab).Some?
    ensures NodeAt(docs[m + 1].top, docs[i].curtab) == NodeAt(docs[m].top, docs[i].curtab)
  {
    hide Apply, Grows, DocValid, Assigned;
    NeverReturns(docs, es, i, j, m);
    RunValid(docs, es, m);
    StepOf(docs, es, m);
    ApplyValid(docs[m], es[m]);
    CurtabStaysClosed(docs, es, i, m);
  }

  // ---------- the meaning of a document

  /** The place that the i-th expression, a key/value, assigns to. */
  function Target(docs: seq<Doc>, es: seq<Expr>, i: nat): Path
    requires i < |docs| && i < |es|
  {
    docs[i].curtab + KeyPath(es[i].keys)
  }

  /** Does the i-th expression put scalar s at place q? */
  ghost predicate Assigns(docs: seq<Doc>, es: seq<Expr>, i: nat, q: Path, s: Scalar)
    requires i < |docs| && i < |es|
  {
    && es[i].KeyVal? && Target(docs, es, i) <= q
    && LeafAt(es[i].val, q[|Target(docs, es, i)|..]) == Some(s)
  }

  /** The leaves of the tree are exactly those its key/values put there: each at the place its
      key spells from the table current at that moment, none lost, none changed, none added. */
  lemma {:induction false} RunMeaning(docs: seq<Doc>, es: seq<Expr>, n: nat, q: Path, s: Scalar)
    requires IsRun(docs, es) && n <= |es|
    ensures LeafAt(docs[n].top, q) == Some(s) <==> exists i :: 0 <= i < n && Assigns(docs, es, i, q, s)
  {
    hide Assigns, LeafAt, Apply, GoodExpr;
    if n == 0 {
      EmptyHasNoLeaves(q);
    } else {
      RunMeaning(docs, es, n - 1, q, s);
      MeaningNext(docs, es, n - 1, q, s);
    }
  }

  lemma EmptyHasNoLeaves(q: Path)
    ensures LeafAt(EMPTY_TABLE, q).None?
  {
    assert q != [] ==> Child(EMPTY_TABLE, q[0]).None?;
  }

  lemma MeaningNext(docs: seq<Doc>, es: seq<Expr>, n: nat, q: Path, s: Scalar)
    requires IsRun(docs, es) && n < |es|
    ensures LeafAt(docs[n + 1].top, q) == Some(s) <==>
            Assigns(docs, es, n, q, s) || LeafAt(docs[n].top, q) == Some(s)
  {
    hide Apply, DocValid, Grows, LeafAt, Closed, ClosedKept, StrBytes;
    RunValid(docs, es, n);
    StepOf(docs, es, n);
    ApplyValid(docs[n], es[n]);
    var d, r := docs[n].top, docs[n + 1].top;
    if es[n].KeyVal? {
      var t := Target(docs, es, n);
      assert LeavesPlus(d, r, t, es[n].val);
      if t <= q {
        NoLeafBelow(d, t, q);
      }
    } else {
      assert LeafAt(r, q) == LeafAt(d, q);
    }
  }

  lemma NoLeafBelow(d: Datum, t: Path, q: Path)
    requires t <= q && At(d, t).None?
    ensures LeafAt(d, q).None?
  {
    assert t + q[|t|..] == q;
    AtConcat(d, t, q[|t|..]);
  }

  /** Two key/values never assign to the same place. */
  lemma TargetsApart(docs: seq<Doc>, es: seq<Expr>, i: nat, j: nat)
    requires IsRun(docs, es) && i < j < |es| && es[i].KeyVal? && es[j].KeyVal?
    ensures Target(docs, es, i) != Target(docs, es, j)
  {
    hide Apply, DocValid, Closed, ClosedKept, LeavesPlus, StrBytes;
    RunValid(docs, es, i);
    StepOf(docs, es, i);
    ApplyValid(docs[i], es[i]);
    RunValid(docs, es, j);
    StepOf(docs, es, j);
    ApplyValid(docs[j], es[j]);
    RunGrows(docs, es, i + 1, j);
    assert GrowsAt(docs[i + 1].top, docs[j].top, Target(docs, es, i));
  }

  ghost function ValueBytes(es: seq<Expr>, n: nat): nat
    requires n <= |es|
  {
    if n == 0 then 0 else ValueBytes(es, n - 1) + if es[n - 1].KeyVal? then StrBytes(es[n - 1].val) else 0
  }

  lemma {:induction false} RunBytes(docs: seq<Doc>, es: seq<Expr>, n: nat)
    requires IsRun(docs, es) && n <= |es|
    ensures StrBytes(docs[n].top) == ValueBytes(es, n)
  {
    hide Apply, DocValid, Closed, ClosedKept, LeavesPlus, StrBytes, Grows, SameLeaves;
    if n == 0 {
      EmptyHasNoBytes();
    } else {
      RunBytes(docs, es, n - 1);
      RunValid(docs, es, n - 1);
      StepOf(docs, es, n - 1);
      ApplyValid(docs[n - 1], es[n - 1]);
    }
  }

  lemma EmptyHasNoBytes()
    ensures StrBytes(EMPTY_TABLE) == 0
  {}
}
