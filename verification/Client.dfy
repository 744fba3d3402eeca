/** The client library, and a whole connection: request, handling, answer. */
module Client {
  import opened Basics
  import opened Sessions
  import opened SessionRuns
  import opened SessionTables
  import opened Sockets
  import opened Protocol
  import opened Daemon

  // ---------- the requests, with names cut to their fields

  function RegisterRequest(user: Text, id: Text, pid: int32): Request { Request(REGISTER, Fit(user), Fit(id), pid) }

  function UnregisterRequest(id: Text): Request { Request(UNREGISTER, [], Fit(id), 0) }

  const COUNT_REQUEST := Request(COUNT, [], [], 0)
  const LIST_REQUEST := Request(LIST, [], [], 0)

  function KillRequest(id: Text): Request { Request(KILL, [], Fit(id), 0) }

  function KillUserRequest(user: Text): Request { Request(KILL_USER, Fit(user), [], 0) }

  // ---------- sending and receiving

  /** send_request. */
  method Send(up: Pipe, req: Request) returns (ok: bool)
    requires IsRequest(req)
    modifies up`data, up`writeSizes
    ensures var (m, rest) := Moved(old(up.writeSizes), REQUEST_SIZE, REQUEST_SIZE);
            up.data == old(up.data) + EncodeRequest(req)[..m] && (ok <==> m == REQUEST_SIZE)
  {
    ok := up.WriteAll(EncodeRequest(req));
  }

  /** recv_response. */
  method Receive(down: Pipe) returns (r: Option<Response>)
    modifies down`data, down`readSizes
    ensures var (m, rest) := Moved(old(down.readSizes), RESPONSE_SIZE, |old(down.data)|);
            && down.readSizes == rest && down.data == old(down.data)[m..]
            && r == if m == RESPONSE_SIZE then Some(DecodeResponse(old(down.data)[..m])) else None
  {
    var ok, buf := down.ReadAll(RESPONSE_SIZE);
    r := if ok then Some(DecodeResponse(buf)) else None;
  }

  /** Where the i-th record of a LIST answer starts. */
  function RecordAt(i: nat): nat { RESPONSE_SIZE + INFO_SIZE * i }

  ghost function Record(d: seq<byte>, i: nat): Session {
    if RecordAt(i + 1) > |d| then ZERO_SLOT.session else DecodeInfo(d[RecordAt(i)..RecordAt(i + 1)])
  }

  /** How many sessions the header of d announces, cut to the capacity: none if it is missing
      or refuses. */
  ghost function Announced(d: seq<byte>, capacity: nat): Option<int> {
    if |d| < RESPONSE_SIZE || !DecodeResponse(d[..RESPONSE_SIZE]).ok then None
    else Some(Min(DecodeResponse(d[..RESPONSE_SIZE]).count, capacity))
  }

  /** All the announced records are there. */
  ghost predicate AllThere(d: seq<byte>, n: int) { n <= 0 || RecordAt(n) <= |d| }

  /** The second half of caald_session_list: -1, or how many sessions were received. */
  method ReceiveSessions(down: Pipe, sessions: array<Session>, capacity: nat) returns (n: int)
    requires capacity <= sessions.Length
    modifies down`data, down`readSizes, sessions
    ensures n == -1 || (Announced(old(down.data), capacity) == Some(n) && AllThere(old(down.data), n))
    ensures forall i :: 0 <= i < n ==> sessions[i] == Record(old(down.data), i)
    ensures var x := Announced(old(down.data), capacity);
            Steady(old(down.readSizes), |old(down.data)|) && x.Some? && AllThere(old(down.data), x.value) ==>
              n == x.value
  {
    hide Moved, Steady, DecodeInfo, DecodeResponse;
    ghost var d := down.data;
    ghost var x := Announced(d, capacity);
    ghost var steady := Steady(down.readSizes, |d|) && x.Some? && AllThere(d, x.value);
    if steady {
      SteadyMoves(down.readSizes, RESPONSE_SIZE, |d|, |d| - RESPONSE_SIZE);
    }
    var resp := Receive(down);
    if resp == None || !resp.value.ok {
      return -1;
    }
    var count: int := resp.value.count;
    if count > capacity {
      count := capacity;
    }
    assert x == Some(count);
    var i := 0;
    while i < count
      invariant 0 <= i && (i <= count || i == 0) && RecordAt(i) <= |d| && down.data == d[RecordAt(i)..]
      invariant forall k :: 0 <= k < i ==> sessions[k] == Record(d, k)
      invariant steady ==> Steady(down.readSizes, |d| - RecordAt(i))
    {
      if steady {
        SteadyMoves(down.readSizes, INFO_SIZE, |down.data|, |d| - RecordAt(i + 1));
      }
      var ok, buf := down.ReadAll(INFO_SIZE);
      if !ok {
        return -1;
      }
      assert RecordAt(i + 1) <= |d| && buf == d[RecordAt(i)..RecordAt(i + 1)];
      sessions[i] := DecodeInfo(buf);
      assert sessions[i] == Record(d, i);
      i := i + 1;
    }
    return count;
  }

  // ---------- what the daemon sends is a listing

  lemma {:induction false} JoinedInfos(xs: seq<Session>, i: nat)
    requires i < |xs| && forall x :: x in xs ==> IsNamed(x)
    ensures |Joined(Infos(xs))| == INFO_SIZE * |xs|
    ensures Joined(Infos(xs))[INFO_SIZE * i..INFO_SIZE * (i + 1)] == EncodeInfo(xs[i])
    decreases |xs|
  {
    hide EncodeInfo, IsNamed;
    assert xs[0] in xs && forall x :: x in xs[1..] ==> x in xs;
    var rest := Joined(Infos(xs[1..]));
    assert Infos(xs)[1..] == Infos(xs[1..]) && Infos(xs)[0] == EncodeInfo(xs[0]);
    assert Joined(Infos(xs)) == EncodeInfo(xs[0]) + rest;
    if |xs| == 1 {
      assert Infos(xs[1..]) == [];
    } else {
      JoinedInfos(xs[1..], if i == 0 then 0 else i - 1);
    }
    if i > 0 {
      assert (EncodeInfo(xs[0]) + rest)[INFO_SIZE * i..INFO_SIZE * (i + 1)] == rest[INFO_SIZE * (i - 1)..INFO_SIZE * i];
    }
  }

  /** d is the answer to LIST with these sessions. */
  ghost predicate IsListing(d: seq<byte>, xs: seq<Session>) {
    && |d| == RecordAt(|xs|) && |xs| <= INT32_MAX
    && DecodeResponse(d[..RESPONSE_SIZE]) == Response(true, |xs|, [])
    && forall i :: 0 <= i < |xs| ==> Record(d, i) == xs[i]
  }

  /** The answer to LIST: a header whose count is the number of records behind it, and the
      active sessions in slot order with their names, pids and start times. */
  lemma ListingSent(t: Table, now: int64)
    requires Bounded(t) && NamesFit(t.slots)
    ensures IsListing(Joined(Messages(t, LIST_REQUEST, now)), Active(t.slots))
  {
    hide Active, Infos, EncodeInfo, EncodeResponse, DecodeResponse, DecodeInfo, IsNamed;
    var xs := Active(t.slots);
    ListChangesNothing(t, LIST_REQUEST, now);
    var h := Response(true, |xs|, []);
    var records := Joined(Infos(xs));
    var d := EncodeResponse(h) + records;
    JoinedFront(EncodeResponse(h), Infos(xs));
    assert Joined(Messages(t, LIST_REQUEST, now)) == d;
    assert d[..RESPONSE_SIZE] == EncodeResponse(h);
    ResponseRoundTrip(h);
    if xs == [] {
      NoInfos();
    } else {
      JoinedInfos(xs, 0);
    }
    forall i | 0 <= i < |xs| ensures Record(d, i) == xs[i] {
      JoinedInfos(xs, i);
      assert d[RecordAt(i)..RecordAt(i + 1)] == records[INFO_SIZE * i..INFO_SIZE * (i + 1)];
      assert xs[i] in xs;
      InfoRoundTrip(xs[i]);
    }
  }

  /** An answer to LIST may lose its header and still go on: the client then gets the records
      alone, and takes the first byte of the first user name for the flag. */
  lemma {:induction false} LostHeader(t: Table, now: int64, rest: seq<int>, capacity: nat)
    requires Bounded(t) && NamesFit(t.slots) && Active(t.slots) != []
    requires Steady(rest, |Joined(Infos(Active(t.slots)))|)
    ensures var messages, xs := Messages(t, LIST_REQUEST, now), Active(t.slots);
            && !NoHole([0] + rest, messages)
            && Sent([0] + rest, messages) == Joined(Infos(xs))
            && (Announced(Joined(Infos(xs)), capacity).Some? <==> xs[0].user != [])
  {
    hide Active, Infos, EncodeInfo, EncodeResponse, DecodeResponse, IsNamed, ReplyTo, Steady, Moved, Sent;
    var xs := Active(t.slots);
    var h := EncodeResponse(ReplyTo(t, LIST_REQUEST, now));
    assert Messages(t, LIST_REQUEST, now) == [h] + Infos(xs);
    NothingMoved(rest, |h|);
    SentFront([0] + rest, h, Infos(xs));
    SteadySends(rest, Infos(xs));
    FirstRecord(xs, rest);
    assert ([h] + Infos(xs))[1..] == Infos(xs) && [] + Joined(Infos(xs)) == Joined(Infos(xs));
    var d := Joined(Infos(xs));
    assert d[..RESPONSE_SIZE] == d[0..INFO_SIZE][..RESPONSE_SIZE] == EncodeInfo(xs[0])[..RESPONSE_SIZE];
    UserIsFlag(xs[0]);
  }

  lemma {:induction false} NothingMoved(rest: seq<int>, n: nat)
    requires n > 0
    ensures Moved([0] + rest, n, n) == (0, rest)
  {
    assert ([0] + rest)[1..] == rest;
  }

  lemma {:induction false} FirstRecord(xs: seq<Session>, rest: seq<int>)
    requires xs != [] && (forall x :: x in xs ==> IsNamed(x)) && Steady(rest, |Joined(Infos(xs))|)
    ensures var d := Joined(Infos(xs)); |d| >= INFO_SIZE && d[0..INFO_SIZE] == EncodeInfo(xs[0])
    ensures IsNamed(xs[0]) && !Silent(rest, Infos(xs))
  {
    hide EncodeInfo, IsNamed, Steady, Moved;
    assert xs[0] in xs;
    JoinedInfos(xs, 0);
    SteadyMoves(rest, INFO_SIZE, INFO_SIZE, |Joined(Infos(xs))| - INFO_SIZE);
  }

  lemma UserIsFlag(x: Session)
    requires IsNamed(x)
    ensures DecodeResponse(EncodeInfo(x)[..RESPONSE_SIZE]).ok <==> x.user != []
  {
    hide EncodeInt, DecodeInt;
    var b := EncodeInfo(x);
    assert b[0] == Field(x.user)[0];
    assert x.user != [] ==> x.user[0] in x.user;
  }

  lemma JoinedFront(m: seq<byte>, more: seq<seq<byte>>)
    ensures Joined([m] + more) == m + Joined(more)
  {
    assert ([m] + more)[1..] == more;
  }

  lemma NoInfos()
    ensures Infos([]) == [] && Joined([]) == []
  {}

  // ---------- a whole connection

  /** n bytes get across: every one of them is written, and every one of them read. */
  predicate Through(writeSizes: seq<int>, readSizes: seq<int>, n: nat) {
    Moved(writeSizes, n, n).0 == n && Moved(readSizes, n, n).0 == n
  }

  /** The request reaches the daemon. */
  predicate Arrives(writeSizes: seq<int>, readSizes: seq<int>) { Through(writeSizes, readSizes, REQUEST_SIZE) }

  /** The response reaches the client. */
  predicate Told(writeSizes: seq<int>, readSizes: seq<int>) { Through(writeSizes, readSizes, RESPONSE_SIZE) }

  /** They do when no call fails. */
  lemma {:induction false} SteadyThrough(writeSizes: seq<int>, readSizes: seq<int>, n: nat)
    requires Steady(writeSizes, n) && Steady(readSizes, n)
    ensures Through(writeSizes, readSizes, n)
  {
    SteadyMoves(writeSizes, n, n, 0);
    SteadyMoves(readSizes, n, n, 0);
  }

  /** The connection is new. */
  ghost predicate IsNew(up: Pipe, down: Pipe)
    reads up, down
  {
    up != down && up.data == [] && down.data == []
  }

  /** A request is sent, and the daemon deals with the connection: with the request if it has
      arrived, and then writes as much of its answer as it can. */
  method Exchange(up: Pipe, down: Pipe, table: SessionTable, now: int64, req: Request) returns (sent: bool)
    requires table.Valid() && NamesFit(table.View().slots) && IsRequest(req) && IsNew(up, down)
    modifies up, down`data, down`writeSizes, table`sessionCount, table`signals, table.sessions
    ensures table.Valid() && NamesFit(table.View().slots)
    ensures sent <==> Moved(old(up.writeSizes), REQUEST_SIZE, REQUEST_SIZE).0 == REQUEST_SIZE
    ensures var t, e := old(table.View()), EventOf(req, now);
            if Arrives(old(up.writeSizes), old(up.readSizes)) then
              && Bounded(t) && table.View() == Next(t, e) && table.signals == old(table.signals) + Signals(t, e)
              && down.data == Sent(old(down.writeSizes), Messages(t, req, now))
            else
              table.View() == t && table.signals == old(table.signals) && down.data == []
  {
    hide Moved, Sent, Next, Signals, Messages, EncodeRequest, DecodeRequest, NamesFit, Active;
    ghost var t := table.View();
    ghost var bytes := EncodeRequest(req);
    sent := Send(up, req);
    RequestRoundTrip(req);
    assert up.data == bytes[..|up.data|];
    if sent {
      assert up.data == bytes && bytes[..REQUEST_SIZE] == bytes;
    }
    HandleClient(up, down, table, now);
    assert [] + Sent(old(down.writeSizes), Messages(t, req, now)) == Sent(old(down.writeSizes), Messages(t, req, now));
  }

  /** The calls other than LIST: what becomes of the table, and what the client is told. */
  method Ask(up: Pipe, down: Pipe, table: SessionTable, now: int64, req: Request) returns (r: Option<Response>)
    requires table.Valid() && NamesFit(table.View().slots) && IsNew(up, down) && IsRequest(req) && req.typ != LIST
    modifies up, down, table`sessionCount, table`signals, table.sessions
    ensures table.Valid() && NamesFit(table.View().slots)
    ensures var t, e := old(table.View()), EventOf(req, now);
            var arrives := Arrives(old(up.writeSizes), old(up.readSizes));
            && Bounded(t)
            && table.View() == (if arrives then Next(t, e) else t)
            && table.signals == (if arrives then old(table.signals) + Signals(t, e) else old(table.signals))
            && r == if arrives && Told(old(down.writeSizes), old(down.readSizes))
                    then Some(ReplyTo(t, req, now)) else None
  {
    hide Moved, Sent, Next, Signals, EncodeResponse, DecodeResponse, NamesFit, Active, Arrives;
    ghost var reply := ReplyTo(table.View(), req, now);
    ghost var bytes := EncodeResponse(reply);
    assert Messages(table.View(), req, now) == [bytes];
    OneSent(down.writeSizes, bytes);
    var sent := Exchange(up, down, table, now, req);
    if !sent {
      NotSent(old(up.writeSizes), old(up.readSizes));
      return None;
    }
    assert down.data == [] || down.data == bytes[..|down.data|];
    ResponseRoundTrip(reply);
    assert bytes[..RESPONSE_SIZE] == bytes;
    r := Receive(down);
  }

  lemma {:induction false} NotSent(writeSizes: seq<int>, readSizes: seq<int>)
    requires Moved(writeSizes, REQUEST_SIZE, REQUEST_SIZE).0 != REQUEST_SIZE
    ensures !Arrives(writeSizes, readSizes)
  {
    hide Moved;
  }

  /** caald_session_register, over any connection. True means that the session has been entered;
      false that the daemon is full, that the request has not arrived and nothing has changed, or
      that the session has been entered and the answer is lost. */
  method SessionRegister(up: Pipe, down: Pipe, table: SessionTable, now: int64, user: Text, id: Text, pid: int32)
    returns (ok: bool)
    requires table.Valid() && NamesFit(table.View().slots) && IsNew(up, down)
    modifies up, down, table`sessionCount, table`signals, table.sessions
    ensures table.Valid() && NamesFit(table.View().slots) && table.signals == old(table.signals)
    ensures var done := Arrives(old(up.writeSizes), old(up.readSizes))
                        && |Active(old(table.View()).slots)| < table.maxSessions;
            var s := Session(Fit(user), Fit(id), pid, now);
            && (ok <==> done && Told(old(down.writeSizes), old(down.readSizes)))
            && if done then Bag(table.View()) == old(Bag(table.View())) + multiset{s}
               else table.View() == old(table.View())
  {
    hide NamesFit, Active, Arrives, Told, Register;
    var req := RegisterRequest(user, id, pid);
    FitName(Fit(user));
    FitName(Fit(id));
    RegisterBag(table.View(), Session(Fit(user), Fit(id), pid, now));
    var resp := Ask(up, down, table, now, req);
    ok := resp.Some? && resp.value.ok;
    assert table.signals + [] == table.signals;
  }

  /** caald_session_unregister: by the id as it was cut when it was registered. */
  method SessionUnregister(up: Pipe, down: Pipe, table: SessionTable, now: int64, id: Text) returns (ok: bool)
    requires table.Valid() && NamesFit(table.View().slots) && IsNew(up, down)
    modifies up, down, table`sessionCount, table`signals, table.sessions
    ensures table.Valid() && NamesFit(table.View().slots) && table.signals == old(table.signals)
    ensures var done := Arrives(old(up.writeSizes), old(up.readSizes))
                        && exists s: Session :: s in Active(old(table.View()).slots) && s.id == Fit(id);
            && (ok <==> done && Told(old(down.writeSizes), old(down.readSizes)))
            && if done then
                 exists s: Session :: s.id == Fit(id) && s in old(Bag(table.View()))
                   && Bag(table.View()) == old(Bag(table.View())) - multiset{s}
               else table.View() == old(table.View())
  {
    hide NamesFit, Active, Arrives, Told, Leave, Bag;
    LeaveBag(table.View(), Fit(id));
    var resp := Ask(up, down, table, now, UnregisterRequest(id));
    ok := resp.Some? && resp.value.ok;
    assert table.signals + [] == table.signals;
  }

  /** caald_session_kill: the session removed is the one whose process is signalled. */
  method SessionKill(up: Pipe, down: Pipe, table: SessionTable, now: int64, id: Text) returns (ok: bool)
    requires table.Valid() && NamesFit(table.View().slots) && IsNew(up, down)
    modifies up, down, table`sessionCount, table`signals, table.sessions
    ensures table.Valid() && NamesFit(table.View().slots)
    ensures var done := Arrives(old(up.writeSizes), old(up.readSizes))
                        && exists s: Session :: s in Active(old(table.View()).slots) && s.id == Fit(id);
            && (ok <==> done && Told(old(down.writeSizes), old(down.readSizes)))
            && if done then
                 exists s: Session :: s.id == Fit(id) && s in old(Bag(table.View()))
                   && Bag(table.View()) == old(Bag(table.View())) - multiset{s}
                   && table.signals == old(table.signals) + [s.pid]
               else table.View() == old(table.View()) && table.signals == old(table.signals)
  {
    hide NamesFit, Active, Arrives, Told, Leave, Bag;
    LeaveBag(table.View(), Fit(id));
    PidsOfOne(Leave(table.View(), Fit(id)).1);
    assert table.signals + [] == table.signals;
    var resp := Ask(up, down, table, now, KillRequest(id));
    ok := resp.Some? && resp.value.ok;
  }

  /** caald_session_kill_user: all of the user's sessions go, in slot order, and no others. */
  method SessionKillUser(up: Pipe, down: Pipe, table: SessionTable, now: int64, user: Text) returns (ok: bool)
    requires table.Valid() && NamesFit(table.View().slots) && IsNew(up, down)
    modifies up, down, table`sessionCount, table`signals, table.sessions
    ensures table.Valid() && NamesFit(table.View().slots)
    ensures !Arrives(old(up.writeSizes), old(up.readSizes)) ==> table.View() == old(table.View())
    ensures var xs := Active(old(table.View()).slots);
            var done := Arrives(old(up.writeSizes), old(up.readSizes)) && OfUser(xs, Fit(user)) != [];
            && (ok <==> done && Told(old(down.writeSizes), old(down.readSizes)))
            && if done then
                 && Active(table.View().slots) == NotOfUser(xs, Fit(user))
                 && table.signals == old(table.signals) + Pids(OfUser(xs, Fit(user)))
               else Active(table.View().slots) == xs && table.signals == old(table.signals)
  {
    hide NamesFit, Active, Arrives, Told, OfUser, NotOfUser;
    ghost var xs := Active(table.View().slots);
    FreedUserActive(table.View().slots, Fit(user));
    if OfUser(xs, Fit(user)) == [] {
      NobodyLeaves(xs, Fit(user));
      assert table.signals + [] == table.signals;
    }
    var resp := Ask(up, down, table, now, KillUserRequest(user));
    ok := resp.Some? && resp.value.ok;
  }

  lemma {:induction false} NobodyLeaves(xs: seq<Session>, user: Text)
    requires OfUser(xs, user) == []
    ensures NotOfUser(xs, user) == xs
  {
    if xs != [] {
      NobodyLeaves(xs[..|xs| - 1], user);
      Around(xs, |xs| - 1);
    }
  }

  /** caald_session_count: -1, or the size of the bag. */
  method SessionCount(up: Pipe, down: Pipe, table: SessionTable, now: int64) returns (count: int)
    requires table.Valid() && NamesFit(table.View().slots) && IsNew(up, down)
    modifies up, down, table`sessionCount, table`signals, table.sessions
    ensures table.Valid() && table.View() == old(table.View()) && table.signals == old(table.signals)
    ensures var told := Told(old(down.writeSizes), old(down.readSizes));
            count == if Arrives(old(up.writeSizes), old(up.readSizes)) && told then |old(Bag(table.View()))| else -1
  {
    hide NamesFit, Active, Arrives, Told;
    assert table.signals + [] == table.signals;
    var resp := Ask(up, down, table, now, COUNT_REQUEST);
    count := if resp.Some? && resp.value.ok then resp.value.count else -1;
  }

  /** caald_session_list: when the answer has no hole, -1 or the first min(count, capacity) active
      sessions in slot order, and not -1 when no call fails. */
  method SessionList(up: Pipe, down: Pipe, table: SessionTable, now: int64, sessions: array<Session>, capacity: nat)
    returns (n: int)
    requires table.Valid() && NamesFit(table.View().slots) && capacity <= sessions.Length && IsNew(up, down)
    modifies up, down, table`sessionCount, table`signals, table.sessions, sessions
    ensures table.Valid() && table.View() == old(table.View()) && table.signals == old(table.signals)
    ensures !Arrives(old(up.writeSizes), old(up.readSizes)) ==> n == -1
    ensures var t := old(table.View());
            var xs := Active(t.slots);
            && Bounded(t) && NamesFit(t.slots)
            && (NoHole(old(down.writeSizes), Messages(t, LIST_REQUEST, now)) ==>
                  n == -1 || (n == Min(|xs|, capacity) && sessions[..n] == xs[..n]))
            && (Arrives(old(up.writeSizes), old(up.readSizes)) && Steady(old(down.writeSizes), RecordAt(|xs|))
                && Steady(old(down.readSizes), RecordAt(|xs|)) ==>
                  n == Min(|xs|, capacity) && sessions[..n] == xs[..n])
  {
    hide NamesFit, Active, Messages, Joined, Steady, Record, DecodeResponse, Arrives, NoHole, Sent, Announced, AllThere;
    ghost var t, xs := table.View(), Active(table.View().slots);
    ghost var whole := Joined(Messages(t, LIST_REQUEST, now));
    ListingSent(t, now);
    ListChangesNothing(t, LIST_REQUEST, now);
    if NoHole(down.writeSizes, Messages(t, LIST_REQUEST, now)) {
      NoHolePrefix(down.writeSizes, Messages(t, LIST_REQUEST, now));
    }
    if Steady(down.writeSizes, |whole|) {
      SteadySends(down.writeSizes, Messages(t, LIST_REQUEST, now));
    }
    var sent := Exchange(up, down, table, now, LIST_REQUEST);
    assert old(table.signals) + [] == old(table.signals);
    if !sent {
      NotSent(old(up.writeSizes), old(up.readSizes));
      return -1;
    }
    ghost var d := down.data;
    NothingAnnounced(capacity);
    n := ReceiveSessions(down, sessions, capacity);
    if d <= whole && n != -1 {
      PrefixOfListing(d, whole, xs, capacity, n);
      assert forall i :: 0 <= i < n ==> sessions[i] == xs[i];
    }
    if d == whole {
      WholeListing(d, xs, capacity);
    }
  }

  lemma {:induction false} NothingAnnounced(capacity: nat)
    ensures Announced([], capacity) == None
  {}

  lemma {:induction false} WholeListing(d: seq<byte>, xs: seq<Session>, capacity: nat)
    requires IsListing(d, xs)
    ensures Announced(d, capacity) == Some(Min(|xs|, capacity)) && AllThere(d, Min(|xs|, capacity))
  {
    hide DecodeResponse, Record;
  }

  /** What is read from the beginning of a listing is what a listing says. */
  lemma {:induction false} PrefixOfListing(d: seq<byte>, whole: seq<byte>, xs: seq<Session>, capacity: nat, n: int)
    requires IsListing(whole, xs) && d <= whole && Announced(d, capacity) == Some(n) && AllThere(d, n)
    ensures n == Min(|xs|, capacity) && forall i :: 0 <= i < n ==> Record(d, i) == xs[i]
  {
    hide DecodeResponse, DecodeInfo;
    assert d[..RESPONSE_SIZE] == whole[..RESPONSE_SIZE];
    forall i | 0 <= i < n ensures Record(d, i) == xs[i] {
      assert RecordAt(i + 1) <= RecordAt(n);
      assert d[RecordAt(i)..RecordAt(i + 1)] == whole[RecordAt(i)..RecordAt(i + 1)];
      assert Record(whole, i) == xs[i];
    }
  }
}
