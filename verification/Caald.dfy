/** The main loop of the daemon: one client at a time, and a reload whenever one was asked for. */
module Caald {
  import opened Basics
  import opened Scanning
  import opened Config
  import opened Sessions
  import opened SessionRuns
  import opened SessionTables
  import opened Sockets
  import opened Protocol
  import opened Daemon

  /** One turn of the loop, with what the world supplies: the configuration file and the
      outcome of realloc, or the bytes of a client and how its connection splits them. */
  datatype Turn =
    | Hup(file: Option<Input>, memory: bool)
    | Client(sent: seq<byte>, readSizes: seq<int>, writeSizes: seq<int>, now: int64)

  /** What a turn amounts to: a client whose request does not arrive whole asks for nothing. */
  function EventOfTurn(x: Turn): Event {
    match x
    case Hup(file, memory) => Reloading(MaxOf(file), memory)
    case Client(sent, sizes, _, now) =>
      if Moved(sizes, REQUEST_SIZE, |sent|).0 < REQUEST_SIZE then Asking
      else EventOf(DecodeRequest(sent[..REQUEST_SIZE]), now)
  }

  function SignalsBy(ts: seq<Table>, es: seq<Event>, n: nat): seq<int32>
    requires n <= |es| && |es| < |ts|
  {
    if n == 0 then [] else SignalsBy(ts, es, n - 1) + Signals(ts[n - 1], es[n - 1])
  }

  /** One turn of main's loop. */
  method Serve(table: SessionTable, x: Turn)
    requires table.Valid() && NamesFit(table.View().slots)
    modifies table, table.sessions
    ensures table.Valid() && NamesFit(table.View().slots)
    ensures table.View() == Next(old(table.View()), EventOfTurn(x))
    ensures table.signals == old(table.signals) + Signals(old(table.View()), EventOfTurn(x))
    ensures table.sessions == old(table.sessions) || fresh(table.sessions)
  {
    hide MaxOf, Moved, DecodeRequest, Sent, NamesFit, EventOf, Active, Sessions.Register,
         Leave, Sessions.KillUser;
    ghost var t := table.View();
    NothingSignalled(table.signals, t, x);
    match x
    case Hup(file, memory) =>
      var newMax := ReadMax(file);
      if newMax != None {
        table.Reload(newMax.value, memory);
      }
      assert table.View().slots == t.slots;
    case Client(sent, readSizes, writeSizes, now) =>
      var up := new Pipe(sent, [], readSizes);
      var down := new Pipe([], writeSizes, []);
      HandleClient(up, down, table, now);
  }

  lemma NothingSignalled(signals: seq<int32>, t: Table, x: Turn)
    ensures EventOfTurn(x).Asking? || EventOfTurn(x).Reloading? ==> signals + Signals(t, EventOfTurn(x)) == signals
  {
    hide MaxOf, Moved, DecodeRequest, EventOf;
  }

  /** main's loop over any turns: what it does to the table is a run. */
  method Loop(turns: seq<Turn>) returns (table: SessionTable, ghost ts: seq<Table>, ghost es: seq<Event>)
    ensures IsRun(ts, es) && |es| == |turns| && forall i :: 0 <= i < |es| ==> es[i] == EventOfTurn(turns[i])
    ensures table.Valid() && table.View() == ts[|es|] && table.signals == SignalsBy(ts, es, |es|)
  {
    hide EventOfTurn, Next, Signals, NamesFit;
    table := new SessionTable();
    ts, es := [NO_SESSIONS], [];
    NoNames();
    var i := 0;
    while i < |turns|
      invariant 0 <= i <= |turns| && fresh(table) && fresh(table.sessions)
      invariant table.Valid() && NamesFit(table.View().slots)
      invariant IsRun(ts, es) && |es| == i && forall k :: 0 <= k < i ==> es[k] == EventOfTurn(turns[k])
      invariant table.View() == ts[i] && table.signals == SignalsBy(ts, es, i)
    {
      ghost var e := EventOfTurn(turns[i]);
      Serve(table, turns[i]);
      RunNext(ts, es, e);
      ts, es := ts + [Next(ts[i], e)], es + [e];
      i := i + 1;
    }
  }

  lemma NoNames()
    ensures NamesFit([])
  {}

  /** A run followed by one more event. */
  lemma {:induction false} RunNext(ts: seq<Table>, es: seq<Event>, e: Event)
    requires IsRun(ts, es)
    ensures var us, fs := ts + [Next(ts[|es|], e)], es + [e];
            IsRun(us, fs) && SignalsBy(us, fs, |fs|) == SignalsBy(ts, es, |es|) + Signals(ts[|es|], e)
  {
    hide Next, Signals;
    SignalsPrefix(ts, es, Next(ts[|es|], e), e, |es|);
  }

  lemma {:induction false} SignalsPrefix(ts: seq<Table>, es: seq<Event>, t: Table, e: Event, n: nat)
    requires n <= |es| && |ts| == |es| + 1
    ensures SignalsBy(ts + [t], es + [e], n) == SignalsBy(ts, es, n)
  {
    hide Signals;
    if n > 0 {
      SignalsPrefix(ts, es, t, e, n - 1);
      assert (ts + [t])[n - 1] == ts[n - 1] && (es + [e])[n - 1] == es[n - 1];
    }
  }
}
