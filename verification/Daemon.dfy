/** handle_client: one request in, one answer out. */
module Daemon {
  import opened Basics
  import opened Sessions
  import opened SessionRuns
  import opened SessionTables
  import opened Sockets
  import opened Protocol

  // the texts of the refusals
  const MAX_REACHED := Ascii("max sessions reached")
  const NOT_FOUND := Ascii("session not found")
  const NONE_FOUND := Ascii("no sessions found")
  const UNKNOWN_TYPE := Ascii("unknown type")

  const DONE := Response(true, 0, [])

  function Refusal(error: Text): Response { Response(false, 0, error) }

  /** What a request does to the table. snprintf cuts the names of a new session, which only
      matters when a field has no NUL; strcmp takes such a field for no stored name. */
  function EventOf(req: Request, now: int64): Event {
    if req.typ == REGISTER then Registering(Session(Fit(req.user), Fit(req.id), req.pid, now))
    else if req.typ == UNREGISTER then Unregistering(req.id)
    else if req.typ == KILL then Killing(req.id)
    else if req.typ == KILL_USER then KillingUser(req.user)
    else Asking
  }

  /** The response to a request, which for LIST is the header. */
  function ReplyTo(t: Table, req: Request, now: int64): (r: Response)
    requires Bounded(t)
    ensures IsName(r.error)
  {
    var e := EventOf(req, now);
    match e
    case Registering(_) => if Joins(t, e) != [] then DONE else Refusal(MAX_REACHED)
    case Unregistering(_) => if Leaves(t, e) != [] then DONE else Refusal(NOT_FOUND)
    case Killing(_) => if Leaves(t, e) != [] then DONE else Refusal(NOT_FOUND)
    case KillingUser(_) =>
      if Leaves(t, e) != [] then Response(true, |Leaves(t, e)|, []) else Refusal(NONE_FOUND)
    case _ =>
      if req.typ == COUNT || req.typ == LIST then Response(true, |Active(t.slots)|, []) else Refusal(UNKNOWN_TYPE)
  }

  /** The names of the active sessions fit their fields. */
  ghost predicate NamesFit(slots: seq<Slot>) {
    forall s :: s in Active(slots) ==> IsNamed(s)
  }

  function Infos(xs: seq<Session>): (r: seq<seq<byte>>)
    requires forall x :: x in xs ==> IsNamed(x)
    ensures |r| == |xs|
  {
    seq(|xs|, i requires 0 <= i < |xs| => EncodeInfo(xs[i]))
  }

  /** What the client is sent: LIST has its header followed by one record a session. */
  ghost function Messages(t: Table, req: Request, now: int64): seq<seq<byte>>
    requires Bounded(t) && NamesFit(t.slots)
  {
    [EncodeResponse(ReplyTo(t, req, now))] + if req.typ == LIST then Infos(Active(t.slots)) else []
  }

  lemma ActiveFront(slots: seq<Slot>, i: nat)
    requires i < |slots|
    ensures Active(slots[i..]) == One(slots[i]) + Active(slots[i + 1..])
  {
    assert slots[i..] == [slots[i]] + slots[i + 1..];
    ActiveConcat([slots[i]], slots[i + 1..]);
    ActiveNext([], slots[i]);
    assert [] + [slots[i]] == [slots[i]] && [] + One(slots[i]) == One(slots[i]);
  }

  lemma InfosFront(x: Session, xs: seq<Session>)
    requires IsNamed(x) && forall y :: y in xs ==> IsNamed(y)
    ensures (forall y :: y in [x] + xs ==> IsNamed(y)) && Infos([x] + xs) == [EncodeInfo(x)] + Infos(xs)
  {}

  lemma SentFront(grants: seq<int>, m: seq<byte>, more: seq<seq<byte>>)
    ensures var (k, rest) := Moved(grants, |m|, |m|);
            Sent(grants, [m] + more) == m[..k] + Sent(rest, more)
  {
    assert ([m] + more)[1..] == more;
  }

  /** handle_list: the results of the writes are not looked at. */
  method HandleList(down: Pipe, table: SessionTable)
    requires table.Valid() && NamesFit(table.View().slots)
    modifies down`data, down`writeSizes
    ensures var xs := Active(table.View().slots);
            && |xs| <= INT32_MAX
            && down.data == old(down.data) +
                 Sent(old(down.writeSizes), [EncodeResponse(Response(true, |xs|, []))] + Infos(xs))
  {
    hide Active, Infos, Sent, Moved, EncodeInfo, EncodeResponse, IsNamed;
    ghost var slots := table.View().slots;
    var count := table.CountActive();
    var header := EncodeResponse(Response(true, count, []));
    SentFront(down.writeSizes, header, Infos(Active(slots)));
    ghost var total := old(down.data) + Sent(down.writeSizes, [header] + Infos(Active(slots)));
    var _ := down.WriteAll(header);
    assert slots[0..] == slots;
    var i := 0;
    while i < table.sessionCount
      invariant 0 <= i <= table.sessionCount == |slots| && slots == table.View().slots
      invariant forall s :: s in Active(slots[i..]) ==> IsNamed(s)
      invariant down.data + Sent(down.writeSizes, Infos(Active(slots[i..]))) == total
    {
      ActiveFront(slots, i);
      var x := table.sessions[i];
      if x.active {
        RecordNext(x.session, Active(slots[i + 1..]), down.writeSizes);
        var _ := down.WriteAll(EncodeInfo(x.session));
      } else {
        assert [] + Active(slots[i + 1..]) == Active(slots[i + 1..]);
      }
      i := i + 1;
    }
    NothingSent(down.writeSizes, slots);
  }

  lemma RecordNext(x: Session, xs: seq<Session>, grants: seq<int>)
    requires forall y :: y in [x] + xs ==> IsNamed(y)
    ensures IsNamed(x) && (forall y :: y in xs ==> IsNamed(y))
    ensures var m := EncodeInfo(x);
            var (k, rest) := Moved(grants, |m|, |m|);
            Sent(grants, Infos([x] + xs)) == m[..k] + Sent(rest, Infos(xs))
  {
    hide IsNamed, Sent, Moved, EncodeInfo;
    assert x in [x] + xs;
    assert forall y :: y in xs ==> y in [x] + xs;
    InfosFront(x, xs);
    SentFront(grants, EncodeInfo(x), Infos(xs));
  }

  lemma NothingSent(grants: seq<int>, slots: seq<Slot>)
    ensures Active(slots[|slots|..]) == [] && Sent(grants, Infos([])) == []
  {}

  /** The switch of handle_client, for the requests that are answered with one response. */
  method Dispatch(table: SessionTable, req: Request, now: int64) returns (resp: Response)
    requires table.Valid() && req.typ != LIST
    modifies table`sessionCount, table`signals, table.sessions
    ensures table.Valid()
    ensures var t, e := old(table.View()), EventOf(req, now);
            && Bounded(t) && resp == ReplyTo(t, req, now)
            && table.View() == Next(t, e) && table.signals == old(table.signals) + Signals(t, e)
  {
    hide Sessions.Register, Leave, Sessions.KillUser, Active;
    ghost var t, e := table.View(), EventOf(req, now);
    assert table.signals + [] == table.signals;
    if req.typ == REGISTER {
      var ok := table.Register(Session(Fit(req.user), Fit(req.id), req.pid, now));
      return if ok then DONE else Refusal(MAX_REACHED);
    }
    if req.typ == UNREGISTER {
      var ok := table.Unregister(req.id);
      return if ok then DONE else Refusal(NOT_FOUND);
    }
    if req.typ == COUNT {
      var count := table.CountActive();
      return Response(true, count, []);
    }
    if req.typ == KILL {
      var ok := table.Kill(req.id);
      PidsOfOne(Leave(t, req.id).1);
      return if ok then DONE else Refusal(NOT_FOUND);
    }
    if req.typ == KILL_USER {
      GoneFits(t, req.user);
      var killed := table.KillUser(req.user);
      return if killed == 0 then Refusal(NONE_FOUND) else Response(true, killed, []);
    }
    return Refusal(UNKNOWN_TYPE);
  }

  lemma PidsOfOne(x: Option<Session>)
    ensures Pids(Gone(x)) == if x.Some? then [x.value.pid] else []
  {}

  lemma GoneFits(t: Table, user: Text)
    requires Bounded(t)
    ensures |KillUser(t, user).1| <= INT32_MAX
  {}

  /** handle_client. A request that does not arrive whole is dropped. */
  method HandleClient(up: Pipe, down: Pipe, table: SessionTable, now: int64)
    requires up != down && table.Valid() && NamesFit(table.View().slots)
    modifies up`data, up`readSizes, down`data, down`writeSizes
    modifies table`sessionCount, table`signals, table.sessions
    ensures table.Valid() && NamesFit(table.View().slots)
    ensures Moved(old(up.readSizes), REQUEST_SIZE, |old(up.data)|).0 < REQUEST_SIZE ==>
              table.View() == old(table.View()) && table.signals == old(table.signals) && down.data == old(down.data)
    ensures Moved(old(up.readSizes), REQUEST_SIZE, |old(up.data)|).0 == REQUEST_SIZE ==>
              var t, req := old(table.View()), DecodeRequest(old(up.data)[..REQUEST_SIZE]);
              && up.data == old(up.data)[REQUEST_SIZE..]
              && table.View() == Next(t, EventOf(req, now))
              && table.signals == old(table.signals) + Signals(t, EventOf(req, now))
              && down.data == old(down.data) + Sent(old(down.writeSizes), Messages(t, req, now))
  {
    hide Active, Moved, Sent, Next, Signals, DecodeRequest, IsNamed, EncodeResponse, NamesFit;
    ghost var t := table.View();
    var whole, bytes := up.ReadAll(REQUEST_SIZE);
    if !whole {
      return;
    }
    var req := DecodeRequest(bytes);
    NextNames(t, req, now);
    if req.typ == LIST {
      ListChangesNothing(t, req, now);
      assert table.signals + [] == table.signals;
      HandleList(down, table);
      return;
    }
    var resp := Dispatch(table, req, now);
    assert Messages(t, req, now) == [EncodeResponse(resp)];
    OneSent(down.writeSizes, EncodeResponse(resp));
    var _ := down.WriteAll(EncodeResponse(resp));
  }

  lemma OneSent(grants: seq<int>, m: seq<byte>)
    ensures Sent(grants, [m]) == m[..Moved(grants, |m|, |m|).0]
  {
    hide Moved;
    var (k, rest) := Moved(grants, |m|, |m|);
    assert [m][1..] == [] && Sent(rest, []) == [];
    assert m[..k] + [] == m[..k];
  }

  lemma ListChangesNothing(t: Table, req: Request, now: int64)
    requires req.typ == LIST && Bounded(t)
    ensures Next(t, EventOf(req, now)) == t && Signals(t, EventOf(req, now)) == []
    ensures ReplyTo(t, req, now) == Response(true, |Active(t.slots)|, [])
  {}

  /** No request, and no 133 bytes at all, brings in a name that does not fit its field. */
  lemma NextNames(t: Table, req: Request, now: int64)
    requires Bounded(t) && NamesFit(t.slots)
    ensures NamesFit(Next(t, EventOf(req, now)).slots)
  {
    hide Active, Next, IsName;
    var e := EventOf(req, now);
    NextBag(t, e);
    forall s | s in Active(Next(t, e).slots) ensures IsNamed(s) {
      assert s in Bag(Next(t, e)) + multiset(Leaves(t, e));
      assert s in Bag(t) + multiset(Joins(t, e));
      assert s in Active(t.slots) || s in Joins(t, e);
    }
  }
}
