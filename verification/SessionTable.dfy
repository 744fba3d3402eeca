/** The daemon's table: an array of slots, a count and a maximum, changed in place. */
module SessionTables {
  import opened Basics
  import opened Sessions

  const ZERO_SLOT := Slot(Session([], [], 0, 0), false)

  class SessionTable {
    var sessions: array<Slot>
    var sessionCount: nat
    var maxSessions: nat
    var signals: seq<int32>      // the processes that have been sent SIGTERM, in order

    ghost predicate Valid()
      reads this
    {
      sessionCount <= maxSessions <= sessions.Length && maxSessions <= INT32_MAX
    }

    /** The table this stands for. */
    ghost function View(): Table
      requires Valid()
      reads this, sessions
    {
      Table(sessions[..sessionCount], maxSessions)
    }

    constructor ()
      ensures Valid() && View() == NO_SESSIONS && signals == [] && fresh(sessions)
    {
      sessions := new Slot[0];
      sessionCount, maxSessions, signals := 0, 0, [];
    }

    /** find_session: an index, or sessionCount when there is none. */
    method FindSession(id: Text) returns (k: nat)
      requires Valid()
      ensures k == Sessions.FindSession(View().slots, id, 0)
    {
      k := 0;
      while k < sessionCount
        invariant 0 <= k <= sessionCount
        invariant Sessions.FindSession(View().slots, id, k) == Sessions.FindSession(View().slots, id, 0)
      {
        if sessions[k].active && sessions[k].session.id == id {
          return;
        }
        k := k + 1;
      }
    }

    /** handle_register. */
    method Register(s: Session) returns (ok: bool)
      requires Valid()
      modifies this`sessionCount, sessions
      ensures Valid() && (View(), ok) == Sessions.Register(old(View()), s)
    {
      var k := 0;
      while k < sessionCount && sessions[k].active
        invariant 0 <= k <= sessionCount && FreeSlot(View().slots, k) == FreeSlot(View().slots, 0)
      {
        k := k + 1;
      }
      if k == sessionCount {
        if sessionCount >= maxSessions {
          return false;
        }
        sessionCount := sessionCount + 1;
      }
      sessions[k] := Slot(s, true);
      ghost var before := old(View()).slots;
      assert View().slots == if k < |before| then before[k := Slot(s, true)] else before + [Slot(s, true)];
      return true;
    }

    /** handle_unregister. */
    method Unregister(id: Text) returns (ok: bool)
      requires Valid()
      modifies sessions
      ensures Valid() && View() == Leave(old(View()), id).0 && (ok <==> Leave(old(View()), id).1.Some?)
    {
      var k := FindSession(id);
      if k == sessionCount {
        return false;
      }
      sessions[k] := Freed(sessions[k]);
      return true;
    }

    /** handle_kill. */
    method Kill(id: Text) returns (ok: bool)
      requires Valid()
      modifies this`signals, sessions
      ensures Valid() && View() == Leave(old(View()), id).0
      ensures var x := Leave(old(View()), id).1;
              if x.Some? then ok && signals == old(signals) + [x.value.pid] else !ok && signals == old(signals)
    {
      var k := FindSession(id);
      if k == sessionCount {
        return false;
      }
      signals := signals + [sessions[k].session.pid];
      sessions[k] := Freed(sessions[k]);
      return true;
    }

    /** handle_kill_user: how many sessions were killed. */
    method KillUser(user: Text) returns (killed: nat)
      requires Valid()
      modifies this`signals, sessions
      ensures Valid()
      ensures var (r, gone) := Sessions.KillUser(old(View()), user);
              View() == r && killed == |gone| && signals == old(signals) + Pids(gone)
    {
      hide Active, OfUser;
      ghost var slots := View().slots;
      ghost var gone: seq<Session> := [];
      NoneOfUser(slots, user);
      killed := 0;
      var i := 0;
      while i < sessionCount
        invariant 0 <= i <= sessionCount == |slots| && Valid()
        invariant forall k :: 0 <= k < i ==> sessions[k] == FreedUser(slots, user)[k]
        invariant forall k :: i <= k < sessionCount ==> sessions[k] == slots[k]
        invariant gone == OfUser(Active(slots[..i]), user)
        invariant killed == |gone| && signals == old(signals) + Pids(gone)
      {
        var x := sessions[i];
        UserNext(slots, i, user);
        if x.active && x.session.user == user {
          signals := signals + [x.session.pid];
          sessions[i] := Freed(x);
          killed := killed + 1;
          assert Pids(gone + [x.session]) == Pids(gone) + [x.session.pid];
          gone := gone + [x.session];
        }
        i := i + 1;
      }
      assert slots[..i] == slots;
      assert sessions[..sessionCount] == FreedUser(slots, user);
    }

    /** The loop of handle_count, and the first of handle_list. */
    method CountActive() returns (count: nat)
      requires Valid()
      ensures count == |Active(View().slots)| <= INT32_MAX
    {
      ghost var slots := View().slots;
      count := 0;
      var i := 0;
      while i < sessionCount
        invariant 0 <= i <= sessionCount && count == |Active(slots[..i])|
      {
        CountNext(slots, i);
        if sessions[i].active {
          count := count + 1;
        }
        i := i + 1;
      }
      assert slots[..i] == slots;
    }

    /** The second half of reload_config: grows the table, and never shrinks it. */
    method Reload(newMax: int32, memory: bool)
      requires Valid()
      modifies this`sessions, this`maxSessions
      ensures Valid() && View() == Sessions.Reload(old(View()), Some(newMax), memory)
      ensures sessions == old(sessions) || fresh(sessions)
    {
      if newMax <= maxSessions || !memory {
        return;
      }
      var table := new Slot[newMax](_ => ZERO_SLOT);
      var k := 0;
      while k < sessionCount
        invariant Valid() && sessions == old(sessions) && maxSessions == old(maxSessions)
        invariant 0 <= k <= sessionCount && table[..k] == sessions[..k]
      {
        table[k] := sessions[k];
        k := k + 1;
      }
      sessions, maxSessions := table, newMax;
    }
  }

  lemma NoneOfUser(slots: seq<Slot>, user: Text)
    ensures OfUser(Active(slots[..0]), user) == []
  {}

  lemma CountNext(slots: seq<Slot>, i: nat)
    requires i < |slots|
    ensures Active(slots[..i + 1]) == Active(slots[..i]) + One(slots[i])
  {
    assert slots[..i + 1] == slots[..i] + [slots[i]];
    ActiveNext(slots[..i], slots[i]);
  }

  lemma UserNext(slots: seq<Slot>, i: nat, user: Text)
    requires i < |slots|
    ensures var x := slots[i];
            OfUser(Active(slots[..i + 1]), user) ==
            OfUser(Active(slots[..i]), user) + (if x.active && x.session.user == user then [x.session] else [])
  {
    var a := Active(slots[..i]);
    var x := slots[i];
    CountNext(slots, i);
    if x.active {
      assert (a + [x.session])[..|a|] == a;
    } else {
      assert a + [] == a;
    }
  }
}
