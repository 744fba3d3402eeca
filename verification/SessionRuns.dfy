/** Whole runs of the daemon: any interleaving of requests and reloads. */
module SessionRuns {
  import opened Basics
  import opened Sessions

  datatype Event =
    | Registering(s: Session)
    | Unregistering(id: Text)
    | Killing(id: Text)
    | KillingUser(user: Text)
    | Asking                     // COUNT, LIST, or a request of no known type
    | Reloading(newMax: Option<int32>, memory: bool)

  function Next(t: Table, e: Event): Table {
    match e
    case Registering(s) => Register(t, s).0
    case Unregistering(id) => Leave(t, id).0
    case Killing(id) => Leave(t, id).0
    case KillingUser(user) => KillUser(t, user).0
    case Asking => t
    case Reloading(newMax, memory) => Reload(t, newMax, memory)
  }

  /** The sessions that an event adds. */
  function Joins(t: Table, e: Event): seq<Session> {
    if e.Registering? && Register(t, e.s).1 then [e.s] else []
  }

  function Gone(x: Option<Session>): seq<Session> { if x.Some? then [x.value] else [] }

  /** The sessions that an event removes. */
  function Leaves(t: Table, e: Event): seq<Session> {
    match e
    case Unregistering(id) => Gone(Leave(t, id).1)
    case Killing(id) => Gone(Leave(t, id).1)
    case KillingUser(user) => KillUser(t, user).1
    case _ => []
  }

  /** The processes that are sent SIGTERM. */
  function Signals(t: Table, e: Event): seq<int32> {
    if e.Unregistering? then [] else Pids(Leaves(t, e))
  }

  /** ts[i] is the table after the first i events of the daemon's life. */
  ghost predicate IsRun(ts: seq<Table>, es: seq<Event>) {
    && |ts| == |es| + 1 && ts[0] == NO_SESSIONS
    && forall i :: 0 <= i < |es| ==> ts[i + 1] == Next(ts[i], es[i])
  }

  // ---------- bounds

  ghost predicate Bounded(t: Table) { |t.slots| <= t.max <= INT32_MAX }

  lemma NextBounded(t: Table, e: Event)
    requires Bounded(t)
    ensures Bounded(Next(t, e)) && t.max <= Next(t, e).max && |t.slots| <= |Next(t, e).slots|
  {}

  /** At every point of a run: active <= session_count <= max_sessions. */
  lemma {:induction false} RunBounded(ts: seq<Table>, es: seq<Event>, n: nat)
    requires IsRun(ts, es) && n <= |es|
    ensures Bounded(ts[n]) && |Active(ts[n].slots)| <= |ts[n].slots| <= ts[n].max
  {
    if n > 0 {
      RunBounded(ts, es, n - 1);
      NextBounded(ts[n - 1], es[n - 1]);
    }
  }

  /** Neither max_sessions nor session_count ever decreases. */
  lemma {:induction false} RunGrowsOnly(ts: seq<Table>, es: seq<Event>, m: nat, n: nat)
    requires IsRun(ts, es) && m <= n <= |es|
    ensures ts[m].max <= ts[n].max && |ts[m].slots| <= |ts[n].slots|
    decreases n
  {
    if m < n {
      RunGrowsOnly(ts, es, m, n - 1);
      RunBounded(ts, es, n - 1);
      NextBounded(ts[n - 1], es[n - 1]);
    }
  }

  /** The largest maximum that a reload has read and found memory for. */
  function LargestSetting(es: seq<Event>, n: nat): nat
    requires n <= |es|
  {
    if n == 0 then 0
    else
      var m := LargestSetting(es, n - 1);
      match es[n - 1]
      case Reloading(Some(v), true) => if v > m then v else m
      case _ => m
  }

  /** max_sessions is decided by the reloads alone: it is the largest setting so far, and no
      smaller one has any effect. */
  lemma {:induction false} MaxIsLargestSetting(ts: seq<Table>, es: seq<Event>, n: nat)
    requires IsRun(ts, es) && n <= |es|
    ensures ts[n].max == LargestSetting(es, n)
  {
    if n > 0 {
      MaxIsLargestSetting(ts, es, n - 1);
    }
  }

  // ---------- the bag over a run

  function JoinedBy(ts: seq<Table>, es: seq<Event>, n: nat): seq<Session>
    requires n <= |es| && |es| < |ts|
  {
    if n == 0 then [] else JoinedBy(ts, es, n - 1) + Joins(ts[n - 1], es[n - 1])
  }

  function LeftBy(ts: seq<Table>, es: seq<Event>, n: nat): seq<Session>
    requires n <= |es| && |es| < |ts|
  {
    if n == 0 then [] else LeftBy(ts, es, n - 1) + Leaves(ts[n - 1], es[n - 1])
  }

  /** One event: what was active and has joined is active or has left. */
  ghost predicate Balanced(before: multiset<Session>, joins: seq<Session>, after: multiset<Session>, leaves: seq<Session>) {
    after + multiset(leaves) == before + multiset(joins)
  }

  lemma {:induction false} NoneMoves(b: multiset<Session>)
    ensures Balanced(b, [], b, [])
  {
    var none: seq<Session> := [];
    assert multiset(none) == multiset{};
  }

  lemma {:induction false} OneJoins(b: multiset<Session>, s: Session)
    ensures Balanced(b, [s], b + multiset{s}, [])
  {
    assert multiset([s]) == multiset{s};
  }

  lemma {:induction false} OneLeaves(b: multiset<Session>, s: Session)
    requires s in b
    ensures Balanced(b, [], b - multiset{s}, [s])
  {
    assert multiset([s]) == multiset{s};
  }

  lemma {:induction false} SomeLeave(b: multiset<Session>, r: multiset<Session>, gone: seq<Session>)
    requires r + multiset(gone) == b
    ensures Balanced(b, [], r, gone)
  {}

  lemma {:induction false} NextBalanced(t: Table, e: Event)
    requires Bounded(t)
    ensures Balanced(Bag(t), Joins(t, e), Bag(Next(t, e)), Leaves(t, e))
  {
    hide Active, Register, Leave, KillUser, Balanced, Bag;
    NoneMoves(Bag(t));
    match e {
      case Registering(s) =>
        RegisterBag(t, s);
        OneJoins(Bag(t), s);
      case Unregistering(id) => LeavingBalanced(t, id);
      case Killing(id) => LeavingBalanced(t, id);
      case KillingUser(user) =>
        KillUserBag(t, user);
        SomeLeave(Bag(t), Bag(KillUser(t, user).0), KillUser(t, user).1);
      case Asking =>
      case Reloading(newMax, memory) => SameSlots(t, newMax, memory);
    }
  }

  lemma {:induction false} SameSlots(t: Table, newMax: Option<int32>, memory: bool)
    ensures Bag(Reload(t, newMax, memory)) == Bag(t)
  {
    hide Active;
  }

  lemma {:induction false} LeavingBalanced(t: Table, id: Text)
    ensures var (r, x) := Leave(t, id);
            Balanced(Bag(t), [], Bag(r), if x.Some? then [x.value] else [])
  {
    hide Active, Leave, Balanced, Bag;
    LeaveBag(t, id);
    NoneMoves(Bag(t));
    if Leave(t, id).1.Some? {
      OneLeaves(Bag(t), Leave(t, id).1.value);
    }
  }

  lemma {:induction false} NextBag(t: Table, e: Event)
    requires Bounded(t)
    ensures Bag(Next(t, e)) + multiset(Leaves(t, e)) == Bag(t) + multiset(Joins(t, e))
  {
    hide Bag, Next, Leaves, Joins;
    NextBalanced(t, e);
  }

  /** What has joined is what is active and what has left. */
  lemma {:induction false} RunBag(ts: seq<Table>, es: seq<Event>, n: nat)
    requires IsRun(ts, es) && n <= |es|
    ensures Bag(ts[n]) + multiset(LeftBy(ts, es, n)) == multiset(JoinedBy(ts, es, n))
  {
    hide Next, Joins, Leaves, Active;
    if n == 0 {
      NoneActive();
    } else {
      RunBag(ts, es, n - 1);
      RunBounded(ts, es, n - 1);
      NextBag(ts[n - 1], es[n - 1]);
      BagChain(Bag(ts[n - 1]), Bag(ts[n]), JoinedBy(ts, es, n - 1), LeftBy(ts, es, n - 1),
               Joins(ts[n - 1], es[n - 1]), Leaves(ts[n - 1], es[n - 1]));
    }
  }

  lemma BagChain<T>(before: multiset<T>, after: multiset<T>, joined: seq<T>, left: seq<T>, more: seq<T>, fewer: seq<T>)
    requires before + multiset(left) == multiset(joined)
    requires after + multiset(fewer) == before + multiset(more)
    ensures after + multiset(left + fewer) == multiset(joined + more)
  {
    forall x ensures (after + multiset(left + fewer))[x] == multiset(joined + more)[x] {
      assert (before + multiset(left))[x] == multiset(joined)[x];
      assert (after + multiset(fewer))[x] == (before + multiset(more))[x];
    }
  }

  lemma NoneActive()
    ensures Active([]) == []
  {}

  // ---------- counts

  /** How often each operation has succeeded, and the sum of the kill-user counts. */
  datatype Tally = Tally(registered: nat, unregistered: nat, killed: nat, userKilled: nat)

  function Tallied(ts: seq<Table>, es: seq<Event>, n: nat): Tally
    requires n <= |es| && |es| < |ts|
  {
    if n == 0 then Tally(0, 0, 0, 0)
    else
      var c := Tallied(ts, es, n - 1);
      var t := ts[n - 1];
      match es[n - 1]
      case Registering(s) => if Register(t, s).1 then c.(registered := c.registered + 1) else c
      case Unregistering(id) => if Leave(t, id).1.Some? then c.(unregistered := c.unregistered + 1) else c
      case Killing(id) => if Leave(t, id).1.Some? then c.(killed := c.killed + 1) else c
      case KillingUser(user) => c.(userKilled := c.userKilled + |KillUser(t, user).1|)
      case _ => c
  }

  lemma {:induction false} NextSize(t: Table, e: Event)
    requires Bounded(t)
    ensures |Active(Next(t, e).slots)| + |Leaves(t, e)| == |Active(t.slots)| + |Joins(t, e)|
  {
    hide Next, Joins, Leaves, Active;
    NextBag(t, e);
    assert |Bag(Next(t, e)) + multiset(Leaves(t, e))| == |Active(Next(t, e).slots)| + |Leaves(t, e)|;
    assert |Bag(t) + multiset(Joins(t, e))| == |Active(t.slots)| + |Joins(t, e)|;
  }

  /** Active sessions = successful registers - successful unregisters - successful kills -
      the sum of the kill-user counts. */
  lemma {:induction false} Conservation(ts: seq<Table>, es: seq<Event>, n: nat)
    requires IsRun(ts, es) && n <= |es|
    ensures var c := Tallied(ts, es, n);
            |Active(ts[n].slots)| + c.unregistered + c.killed + c.userKilled == c.registered
  {
    hide Next, Register, Leave, KillUser, Active;
    if n == 0 {
      NoneActive();
    } else {
      Conservation(ts, es, n - 1);
      RunBounded(ts, es, n - 1);
      NextSize(ts[n - 1], es[n - 1]);
    }
  }

  // ---------- session_count is the peak

  /** The largest number of sessions active at once, up to the n-th table. */
  function Peak(ts: seq<Table>, n: nat): nat
    requires n < |ts|
  {
    var here := |Active(ts[n].slots)|;
    if n == 0 then here else if Peak(ts, n - 1) < here then here else Peak(ts, n - 1)
  }

  /** An event that appends a slot finds all the others active. */
  lemma NextCount(t: Table, e: Event)
    requires Bounded(t)
    ensures |Next(t, e).slots| > |t.slots| ==>
              |Next(t, e).slots| == |t.slots| + 1 && |Active(Next(t, e).slots)| == |Next(t, e).slots|
  {
    if e.Registering? && |Next(t, e).slots| > |t.slots| {
      ActiveNext(t.slots, Slot(e.s, true));
      AllActive(t.slots);
    }
  }

  lemma {:induction false} PeakIsCount(ts: seq<Table>, es: seq<Event>, n: nat)
    requires IsRun(ts, es) && n <= |es|
    ensures Peak(ts, n) == |ts[n].slots|
  {
    hide Next, Active;
    if n == 0 {
      NoneActive();
    } else {
      PeakIsCount(ts, es, n - 1);
      RunBounded(ts, es, n - 1);
      RunBounded(ts, es, n);
      NextCount(ts[n - 1], es[n - 1]);
      NextBounded(ts[n - 1], es[n - 1]);
    }
  }

  // ---------- slots

  /** A session stays in its slot until an event removes it. */
  lemma NextKeepsSlot(t: Table, e: Event, i: nat)
    requires i < |t.slots| && t.slots[i].active
    ensures i < |Next(t, e).slots|
    ensures Next(t, e).slots[i] == t.slots[i] || t.slots[i].session in Leaves(t, e)
  {
    var s := t.slots[i].session;
    if e.KillingUser? && s.user == e.user {
      assert t.slots[i] in t.slots;
      ActiveHas(t.slots, s);
      OfUserHas(Active(t.slots), e.user, s);
    }
  }

  lemma {:induction false} OfUserHas(xs: seq<Session>, user: Text, s: Session)
    ensures s in OfUser(xs, user) <==> s in xs && s.user == user
  {
    if xs != [] {
      var n := |xs| - 1;
      OfUserHas(xs[..n], user, s);
      assert xs == xs[..n] + [xs[n]];
    }
  }

  // ---------- ids registered once

  ghost predicate DistinctIds(xs: seq<Session>) {
    forall i, j :: 0 <= i < j < |xs| ==> xs[i].id != xs[j].id
  }

  /** Of sessions with distinct ids, an id picks out one, which occurs once. */
  lemma {:induction false} DistinctOnce(xs: seq<Session>, x: Session, y: Session)
    requires DistinctIds(xs) && x in xs && y in xs && x.id == y.id
    ensures x == y && multiset(xs)[x] == 1
  {
    var n := |xs| - 1;
    assert xs == xs[..n] + [xs[n]];
    if x != xs[n] {
      DistinctOnce(xs[..n], x, y);
    } else {
      assert x !in xs[..n];
    }
  }

  /** A session that has left is not active, and neither is any other with its id. */
  lemma LeftIsGone(ts: seq<Table>, es: seq<Event>, n: nat, x: Session)
    requires IsRun(ts, es) && n <= |es| && DistinctIds(JoinedBy(ts, es, n)) && x in LeftBy(ts, es, n)
    ensures forall s :: s in Active(ts[n].slots) ==> s.id != x.id
  {
    hide Active;
    RunBag(ts, es, n);
    var joined, left, bag := JoinedBy(ts, es, n), LeftBy(ts, es, n), Bag(ts[n]);
    assert x in multiset(joined);
    forall s | s in Active(ts[n].slots) ensures s.id != x.id {
      if s.id == x.id {
        assert s in multiset(joined);
        DistinctOnce(joined, s, x);
        assert false;
      }
    }
  }

  /** Each session leaves at most once, however it leaves. */
  lemma LeavesOnce(ts: seq<Table>, es: seq<Event>, n: nat)
    requires IsRun(ts, es) && n <= |es| && DistinctIds(JoinedBy(ts, es, n))
    ensures DistinctIds(LeftBy(ts, es, n))
  {
    RunBag(ts, es, n);
    var joined, left := JoinedBy(ts, es, n), LeftBy(ts, es, n);
    forall i, j | 0 <= i < j < |left| ensures left[i].id != left[j].id {
      if left[i].id == left[j].id {
        assert left[i] in multiset(joined) && left[j] in multiset(joined);
        DistinctOnce(joined, left[i], left[j]);
        Twice(left, i, j);
        assert false;
      }
    }
  }

  lemma Twice(xs: seq<Session>, i: nat, j: nat)
    requires i < j < |xs| && xs[i] == xs[j]
    ensures multiset(xs)[xs[i]] >= 2
  {
    assert xs == xs[..i] + [xs[i]] + xs[i + 1..j] + [xs[j]] + xs[j + 1..];
  }

  /** A shell whose session has been killed, by its id or with all of its user's, unregisters
      itself all the same. That changes nothing and signals no process, even if another
      session occupies its old slot by then. */
  lemma LateUnregister(ts: seq<Table>, es: seq<Event>, n: nat, x: Session)
    requires IsRun(ts, es) && n < |es| && DistinctIds(JoinedBy(ts, es, n)) && x in LeftBy(ts, es, n)
    requires es[n] == Unregistering(x.id) || es[n] == Killing(x.id)
    ensures ts[n + 1] == ts[n] && Leaves(ts[n], es[n]) == [] && Signals(ts[n], es[n]) == []
  {
    hide Active;
    LeftIsGone(ts, es, n, x);
    LeaveBag(ts[n], x.id);
  }

  /** Distinct ids are needed: with an id registered twice, the late unregister of a session
      that was killed takes out the other one. */
  lemma SharedIdHazard(a: Session, b: Session) returns (ts: seq<Table>, es: seq<Event>)
    requires a.id == b.id && a != b
    ensures IsRun(ts, es) && |es| == 5
    ensures es[3] == Killing(a.id) && Leaves(ts[3], es[3]) == [a]
    ensures es[4] == Unregistering(a.id) && Leaves(ts[4], es[4]) == [b]
  {
    var t1 := Table([], 2);
    var t2 := Table([Slot(a, true)], 2);
    var t3 := Table([Slot(a, true), Slot(b, true)], 2);
    var t4 := Table([Slot(a, false), Slot(b, true)], 2);
    var t5 := Table([Slot(a, false), Slot(b, false)], 2);
    ts := [NO_SESSIONS, t1, t2, t3, t4, t5];
    es := [Reloading(Some(2), true), Registering(a), Registering(b), Killing(a.id), Unregistering(a.id)];
    assert Next(NO_SESSIONS, es[0]) == t1;
    assert Next(t1, es[1]) == t2;
    assert Next(t2, es[2]) == t3;
    assert Next(t3, es[3]) == t4;
    assert Next(t4, es[4]) == t5;
  }
}
