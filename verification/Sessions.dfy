/** The session table of the daemon as a value, and the bag of sessions it stands for. */
module Sessions {
  import opened Basics

  type int32 = x: int | -INT32_MAX - 1 <= x <= INT32_MAX

  type int64 = x: int | -0x8000_0000_0000_0000 <= x <= 0x7FFF_FFFF_FFFF_FFFF

  datatype Session = Session(user: Text, id: Text, pid: int32, start: int64)

  datatype Slot = Slot(session: Session, active: bool)

  /** The slots in use, that is sessions[..session_count], and max_sessions. */
  datatype Table = Table(slots: seq<Slot>, max: nat)

  const NO_SESSIONS := Table([], 0)

  // ---------- the sessions of a table

  /** The active sessions, in slot order. */
  function Active(slots: seq<Slot>): (r: seq<Session>)
    ensures |r| <= |slots|
  {
    if slots == [] then []
    else
      var r := Active(slots[..|slots| - 1]);
      var last := slots[|slots| - 1];
      if last.active then r + [last.session] else r
  }

  ghost function Bag(t: Table): multiset<Session> { multiset(Active(t.slots)) }

  /** The sessions of a user, in order. */
  function OfUser(xs: seq<Session>, user: Text): (r: seq<Session>)
    ensures |r| <= |xs| && forall x :: x in r ==> x.user == user
  {
    if xs == [] then []
    else
      var r := OfUser(xs[..|xs| - 1], user);
      if xs[|xs| - 1].user == user then r + [xs[|xs| - 1]] else r
  }

  function NotOfUser(xs: seq<Session>, user: Text): (r: seq<Session>)
    ensures |r| <= |xs|
  {
    if xs == [] then []
    else
      var r := NotOfUser(xs[..|xs| - 1], user);
      if xs[|xs| - 1].user == user then r else r + [xs[|xs| - 1]]
  }

  function Pids(xs: seq<Session>): (r: seq<int32>)
    ensures |r| == |xs|
  {
    seq(|xs|, i requires 0 <= i < |xs| => xs[i].pid)
  }

  lemma {:induction false} ActiveConcat(a: seq<Slot>, b: seq<Slot>)
    ensures Active(a + b) == Active(a) + Active(b)
  {
    if b == [] {
      assert a + b == a;
    } else {
      assert (a + b)[..|a + b| - 1] == a + b[..|b| - 1];
      ActiveConcat(a, b[..|b| - 1]);
    }
  }

  function One(x: Slot): seq<Session> { if x.active then [x.session] else [] }

  lemma ActiveNext(slots: seq<Slot>, x: Slot)
    ensures Active(slots + [x]) == Active(slots) + One(x)
  {
    assert (slots + [x])[..|slots|] == slots;
  }

  lemma ActiveParts(a: seq<Slot>, x: Slot, c: seq<Slot>)
    ensures Active(a + [x] + c) == Active(a) + One(x) + Active(c)
  {
    ActiveConcat(a + [x], c);
    ActiveNext(a, x);
  }

  /** The active sessions around the slot k. */
  lemma ActiveAround(slots: seq<Slot>, k: nat)
    requires k < |slots|
    ensures Active(slots) == Active(slots[..k]) + One(slots[k]) + Active(slots[k + 1..])
  {
    hide Active;
    Around(slots, k);
    ActiveParts(slots[..k], slots[k], slots[k + 1..]);
  }

  /** Rewriting one slot exchanges what it held. */
  lemma ActiveUpdate(slots: seq<Slot>, k: nat, x: Slot)
    requires k < |slots|
    ensures Active(slots[k := x]) == Active(slots[..k]) + One(x) + Active(slots[k + 1..])
    ensures multiset(Active(slots[k := x])) + multiset(One(slots[k])) == multiset(Active(slots)) + multiset(One(x))
  {
    var r := slots[k := x];
    assert r[..k] == slots[..k] && r[k + 1..] == slots[k + 1..];
    ActiveAround(r, k);
    ActiveAround(slots, k);
  }

  /** The active sessions are the sessions of active slots. */
  lemma {:induction false} ActiveHas(slots: seq<Slot>, s: Session)
    ensures s in Active(slots) <==> Slot(s, true) in slots
  {
    if slots != [] {
      var n := |slots| - 1;
      ActiveHas(slots[..n], s);
      assert slots == slots[..n] + [slots[n]];
      assert Slot(s, true) in slots <==> Slot(s, true) in slots[..n] || Slot(s, true) == slots[n];
    }
  }

  lemma {:induction false} AllActive(slots: seq<Slot>)
    ensures |Active(slots)| == |slots| <==> forall x :: x in slots ==> x.active
  {
    if slots != [] {
      var n := |slots| - 1;
      AllActive(slots[..n]);
      assert slots == slots[..n] + [slots[n]];
    }
  }

  // ---------- what the requests do

  /** The first inactive slot. */
  function FreeSlot(slots: seq<Slot>, i: nat): (k: nat)
    requires i <= |slots|
    ensures i <= k <= |slots|
    ensures k < |slots| ==> !slots[k].active
    ensures forall j :: i <= j < k ==> slots[j].active
    decreases |slots| - i
  {
    if i < |slots| && slots[i].active then FreeSlot(slots, i + 1) else i
  }

  /** find_session: the first active slot with this id, or none. */
  function FindSession(slots: seq<Slot>, id: Text, i: nat): (k: nat)
    requires i <= |slots|
    ensures i <= k <= |slots|
    ensures k < |slots| ==> slots[k].active && slots[k].session.id == id
    ensures forall j :: i <= j < k ==> !(slots[j].active && slots[j].session.id == id)
    decreases |slots| - i
  {
    if i < |slots| && !(slots[i].active && slots[i].session.id == id) then FindSession(slots, id, i + 1) else i
  }

  function Freed(x: Slot): Slot { Slot(x.session, false) }

  /** handle_register. */
  function Register(t: Table, s: Session): (Table, bool) {
    var k := FreeSlot(t.slots, 0);
    if k < |t.slots| then (Table(t.slots[k := Slot(s, true)], t.max), true)
    else if |t.slots| >= t.max then (t, false)
    else (Table(t.slots + [Slot(s, true)], t.max), true)
  }

  /** handle_unregister and handle_kill: the session that has left. */
  function Leave(t: Table, id: Text): (Table, Option<Session>) {
    var k := FindSession(t.slots, id, 0);
    if k < |t.slots| then (Table(t.slots[k := Freed(t.slots[k])], t.max), Some(t.slots[k].session))
    else (t, None)
  }

  function FreedUser(slots: seq<Slot>, user: Text): (r: seq<Slot>)
    ensures |r| == |slots|
  {
    seq(|slots|, i requires 0 <= i < |slots| =>
      if slots[i].active && slots[i].session.user == user then Freed(slots[i]) else slots[i])
  }

  /** handle_kill_user: the sessions that have left, in slot order. */
  function KillUser(t: Table, user: Text): (Table, seq<Session>) {
    (Table(FreedUser(t.slots, user), t.max), OfUser(Active(t.slots), user))
  }

  /** reload_config, given the maximum that was read, if any, and whether realloc succeeds. */
  function Reload(t: Table, newMax: Option<int32>, memory: bool): Table {
    if newMax.Some? && newMax.value > t.max && memory then Table(t.slots, newMax.value) else t
  }

  // ---------- the table refines the bag

  /** Registering adds exactly the new session, and fails exactly when as many sessions are
      active as are allowed. */
  lemma RegisterBag(t: Table, s: Session)
    requires |t.slots| <= t.max
    ensures var (r, ok) := Register(t, s);
            && (ok <==> |Active(t.slots)| < t.max)
            && (if ok then Bag(r) == Bag(t) + multiset{s} else r == t)
  {
    var k := FreeSlot(t.slots, 0);
    AllActive(t.slots);
    if k < |t.slots| {
      ActiveUpdate(t.slots, k, Slot(s, true));
    } else {
      ActiveNext(t.slots, Slot(s, true));
    }
  }

  /** Unregistering or killing removes exactly one session with the id, and fails without a
      change exactly when there is none. */
  lemma LeaveBag(t: Table, id: Text)
    ensures var (r, x) := Leave(t, id);
            && (x.None? <==> forall s :: s in Active(t.slots) ==> s.id != id)
            && match x
               case Some(s) => s.id == id && s in Bag(t) && Bag(r) == Bag(t) - multiset{s}
               case None => r == t
  {
    hide Active;
    var k := FindSession(t.slots, id, 0);
    if k < |t.slots| {
      var s := t.slots[k].session;
      ActiveUpdate(t.slots, k, Freed(t.slots[k]));
      assert t.slots[k] in t.slots && t.slots[k] == Slot(s, true);
      assert multiset(One(t.slots[k])) == multiset{s} && multiset(One(Freed(t.slots[k]))) == multiset{};
      ActiveHas(t.slots, s);
      assert Bag(Leave(t, id).0) + multiset{s} == Bag(t);
      assert Bag(t) - multiset{s} == Bag(Leave(t, id).0);
    } else {
      forall s | s in Active(t.slots) ensures s.id != id {
        ActiveHas(t.slots, s);
      }
    }
  }

  /** Killing a user's sessions removes all of them and no others, and keeps the others in
      their order. */
  lemma {:induction false} FreedUserActive(slots: seq<Slot>, user: Text)
    ensures Active(FreedUser(slots, user)) == NotOfUser(Active(slots), user)
  {
    if slots != [] {
      var n := |slots| - 1;
      FreedUserActive(slots[..n], user);
      FreedUserNext(slots[..n], slots[n], user);
      assert slots[..n] + [slots[n]] == slots;
    }
  }

  lemma FreedUserNext(slots: seq<Slot>, x: Slot, user: Text)
    requires Active(FreedUser(slots, user)) == NotOfUser(Active(slots), user)
    ensures Active(FreedUser(slots + [x], user)) == NotOfUser(Active(slots + [x]), user)
  {
    hide Active, NotOfUser;
    var y := if x.active && x.session.user == user then Freed(x) else x;
    assert FreedUser(slots + [x], user) == FreedUser(slots, user) + [y];
    ActiveNext(slots, x);
    ActiveNext(FreedUser(slots, user), y);
    NotOfUserNext(Active(slots), x.session, user);
    assert Active(slots) + [] == Active(slots) && Active(FreedUser(slots, user)) + [] == Active(FreedUser(slots, user));
  }

  lemma NotOfUserNext(xs: seq<Session>, x: Session, user: Text)
    ensures NotOfUser(xs + [x], user) == if x.user == user then NotOfUser(xs, user) else NotOfUser(xs, user) + [x]
  {
    assert (xs + [x])[..|xs|] == xs;
  }

  lemma {:induction false} UserSplit(xs: seq<Session>, user: Text)
    ensures multiset(OfUser(xs, user)) + multiset(NotOfUser(xs, user)) == multiset(xs)
    ensures forall x :: x in NotOfUser(xs, user) ==> x.user != user
  {
    if xs != [] {
      var n := |xs| - 1;
      UserSplit(xs[..n], user);
      assert xs == xs[..n] + [xs[n]];
    }
  }

  lemma KillUserBag(t: Table, user: Text)
    ensures var (r, gone) := KillUser(t, user);
            && Bag(r) + multiset(gone) == Bag(t)
            && (forall s :: s in gone ==> s.user == user)
            && (forall s :: s in Active(r.slots) ==> s.user != user)
  {
    FreedUserActive(t.slots, user);
    UserSplit(Active(t.slots), user);
  }
}
