/** One direction of a connection: a byte stream that splits reads and writes anywhere. */
module Sockets {
  import opened Basics

  function Min(a: int, b: int): int { if a < b then a else b }

  /** What the next call is granted: an exhausted schedule is a peer that has gone. */
  function Grant(grants: seq<int>): int { if grants == [] then 0 else grants[0] }

  function Later(grants: seq<int>): seq<int> { if grants == [] then [] else grants[1..] }

  /** How many of n bytes a loop over read or write moves, when at most avail are there, and
      the grants that remain. A grant of zero or less is a failure. */
  function Moved(grants: seq<int>, n: nat, avail: nat): (r: (nat, seq<int>))
    ensures r.0 <= n && r.0 <= avail
    decreases n
  {
    var k := Min(Grant(grants), Min(n, avail));
    if n == 0 then (0, grants)
    else if k <= 0 then (0, Later(grants))
    else
      var (m, rest) := Moved(Later(grants), n - k, avail - k);
      (k + m, rest)
  }

  /** One call of such a loop. */
  lemma {:induction false} MovedTurn(grants: seq<int>, n: nat, avail: nat)
    ensures var k := Min(Grant(grants), Min(n, avail));
            Moved(grants, n, avail) ==
            if n == 0 then (0, grants)
            else if k <= 0 then (0, Later(grants))
            else (k + Moved(Later(grants), n - k, avail - k).0, Moved(Later(grants), n - k, avail - k).1)
  {}

  /** No call fails for the next n bytes. */
  ghost predicate Steady(grants: seq<int>, n: nat) {
    |grants| >= n && forall g :: g in grants ==> g > 0
  }

  /** However the bytes are split, they all get through, and the rest of the schedule serves
      whatever was to follow. */
  lemma {:induction false} SteadyMoves(grants: seq<int>, n: nat, avail: nat, more: nat)
    requires Steady(grants, n + more) && n <= avail
    ensures Moved(grants, n, avail).0 == n && Steady(Moved(grants, n, avail).1, more)
    decreases n
  {
    if n > 0 {
      var k := Min(Grant(grants), Min(n, avail));
      assert grants[0] in grants;
      forall g | g in Later(grants) ensures g > 0 {
        assert g in grants;
      }
      SteadyMoves(Later(grants), n - k, avail - k, more);
    }
  }

  class Pipe {
    var data: seq<byte>       // written and not yet read
    var writeSizes: seq<int>      // how many bytes each coming write will take at most
    var readSizes: seq<int>       // and each coming read

    constructor (data: seq<byte>, writeSizes: seq<int>, readSizes: seq<int>)
      ensures this.data == data && this.writeSizes == writeSizes && this.readSizes == readSizes
    {
      this.data, this.writeSizes, this.readSizes := data, writeSizes, readSizes;
    }

    /** write(fd, p, n). */
    method Write(p: seq<byte>) returns (w: int)
      requires p != []
      modifies this`data, this`writeSizes
      ensures w == Min(Grant(old(writeSizes)), |p|) && writeSizes == Later(old(writeSizes))
      ensures data == old(data) + p[..if w > 0 then w else 0]
    {
      w := Min(Grant(writeSizes), |p|);
      writeSizes := Later(writeSizes);
      if w > 0 {
        data := data + p[..w];
      }
    }

    /** read(fd, p, n): 0 at the end of the stream. */
    method Read(n: nat) returns (r: int, p: seq<byte>)
      requires n > 0
      modifies this`data, this`readSizes
      ensures r == Min(Grant(old(readSizes)), Min(n, |old(data)|)) && readSizes == Later(old(readSizes))
      ensures var k := if r > 0 then r else 0;
              p == old(data)[..k] && data == old(data)[k..]
    {
      r := Min(Grant(readSizes), Min(n, |data|));
      readSizes := Later(readSizes);
      if r > 0 {
        p, data := data[..r], data[r..];
      } else {
        p := [];
      }
    }

    /** write_all. */
    method WriteAll(buf: seq<byte>) returns (ok: bool)
      modifies this`data, this`writeSizes
      ensures var (m, rest) := Moved(old(writeSizes), |buf|, |buf|);
              data == old(data) + buf[..m] && writeSizes == rest && (ok <==> m == |buf|)
    {
      hide Moved;
      var p := 0;
      while p < |buf|
        invariant 0 <= p <= |buf| && data == old(data) + buf[..p]
        invariant var a := Moved(old(writeSizes), |buf|, |buf|);
                  var b := Moved(writeSizes, |buf| - p, |buf| - p);
                  a.0 == p + b.0 && a.1 == b.1
        decreases |buf| - p
      {
        MovedTurn(writeSizes, |buf| - p, |buf| - p);
        var w := Write(buf[p..]);
        if w <= 0 {
          return false;
        }
        assert buf[p..][..w] == buf[p..p + w] && buf[..p] + buf[p..p + w] == buf[..p + w];
        Assoc(old(data), buf[..p], buf[p..p + w]);
        p := p + w;
      }
      MovedTurn(writeSizes, 0, 0);
      return true;
    }

    /** read_all. */
    method ReadAll(n: nat) returns (ok: bool, buf: seq<byte>)
      modifies this`data, this`readSizes
      ensures var (m, rest) := Moved(old(readSizes), n, |old(data)|);
              buf == old(data)[..m] && data == old(data)[m..] && readSizes == rest && (ok <==> m == n)
    {
      hide Moved;
      buf := [];
      while |buf| < n
        invariant |buf| <= n && |buf| <= |old(data)| && buf == old(data)[..|buf|] && data == old(data)[|buf|..]
        invariant var a := Moved(old(readSizes), n, |old(data)|);
                  var b := Moved(readSizes, n - |buf|, |old(data)| - |buf|);
                  a.0 == |buf| + b.0 && a.1 == b.1
        decreases n - |buf|
      {
        MovedTurn(readSizes, n - |buf|, |data|);
        var r, p := Read(n - |buf|);
        if r <= 0 {
          return false, buf;
        }
        assert buf + p == old(data)[..|buf| + r];
        buf := buf + p;
      }
      MovedTurn(readSizes, 0, |data|);
      return true, buf;
    }
  }

  // ---------- several messages in a row

  function Joined(chunks: seq<seq<byte>>): seq<byte> {
    if chunks == [] then [] else chunks[0] + Joined(chunks[1..])
  }

  /** What a sequence of write_all calls delivers when their results are ignored. */
  function Sent(grants: seq<int>, chunks: seq<seq<byte>>): seq<byte>
    decreases |chunks|
  {
    if chunks == [] then []
    else
      var n := |chunks[0]|;
      var (m, rest) := Moved(grants, n, n);
      chunks[0][..m] + Sent(rest, chunks[1..])
  }

  lemma {:induction false} SteadySends(grants: seq<int>, chunks: seq<seq<byte>>)
    requires Steady(grants, |Joined(chunks)|)
    ensures Sent(grants, chunks) == Joined(chunks)
    decreases |chunks|
  {
    if chunks != [] {
      var n := |chunks[0]|;
      SteadyMoves(grants, n, n, |Joined(chunks[1..])|);
      SteadySends(Moved(grants, n, n).1, chunks[1..]);
    }
  }

  /** Every write_all of the sequence would have returned true. */
  predicate NoneShort(grants: seq<int>, chunks: seq<seq<byte>>)
    decreases |chunks|
  {
    chunks == [] ||
    var n := |chunks[0]|;
    var (m, rest) := Moved(grants, n, n);
    m == n && NoneShort(rest, chunks[1..])
  }

  /** Ignoring the results is harmless exactly when none of them was false. */
  lemma {:induction false} SentWhole(grants: seq<int>, chunks: seq<seq<byte>>)
    ensures |Sent(grants, chunks)| <= |Joined(chunks)|
    ensures Sent(grants, chunks) == Joined(chunks) <==> NoneShort(grants, chunks)
    decreases |chunks|
  {
    if chunks != [] {
      var n := |chunks[0]|;
      var (m, rest) := Moved(grants, n, n);
      SentWhole(rest, chunks[1..]);
      if m == n {
        assert chunks[0][..m] == chunks[0];
        SameTail(chunks[0], Sent(rest, chunks[1..]), Joined(chunks[1..]));
      }
    }
  }

  lemma SameTail<T>(a: seq<T>, b: seq<T>, c: seq<T>)
    ensures a + b == a + c <==> b == c
  {
    if a + b == a + c {
      assert b == (a + b)[|a|..] == (a + c)[|a|..] == c;
    }
  }

  // ---------- holes

  /** The positions of the stream that arrive, in order, when the first chunk starts at at. */
  function Arrived(grants: seq<int>, chunks: seq<seq<byte>>, at: nat): (r: seq<nat>)
    ensures forall i :: 0 <= i < |r| ==> at <= r[i] < at + |Joined(chunks)|
    decreases |chunks|
  {
    if chunks == [] then []
    else
      var n := |chunks[0]|;
      var (m, rest) := Moved(grants, n, n);
      Upto(at, m) + Arrived(rest, chunks[1..], at + n)
  }

  /** m positions in a row. */
  function Upto(at: nat, m: nat): (r: seq<nat>)
    ensures |r| == m && forall i :: 0 <= i < m ==> r[i] == at + i
  {
    seq(m, i => at + i)
  }

  /** t are the bytes of u at the positions ps, where u starts at at. */
  ghost predicate TakenAt(t: seq<byte>, u: seq<byte>, ps: seq<nat>, at: nat) {
    |t| == |ps| && forall i :: 0 <= i < |ps| ==> at <= ps[i] < at + |u| && t[i] == u[ps[i] - at]
  }

  /** The first m bytes of c, and what t takes from positions of u. */
  lemma {:induction false} Placed(c: seq<byte>, m: nat, t: seq<byte>, u: seq<byte>, ps: seq<nat>, at: nat)
    requires m <= |c| && TakenAt(t, u, ps, at + |c|)
    ensures TakenAt(c[..m] + t, c + u, Upto(at, m) + ps, at)
  {}

  /** The first of several messages. */
  lemma {:induction false} FirstChunk(grants: seq<int>, chunks: seq<seq<byte>>, at: nat)
    requires chunks != []
    ensures var n := |chunks[0]|;
            var (m, rest) := Moved(grants, n, n);
            && Sent(grants, chunks) == chunks[0][..m] + Sent(rest, chunks[1..])
            && Joined(chunks) == chunks[0] + Joined(chunks[1..])
            && Arrived(grants, chunks, at) == Upto(at, m) + Arrived(rest, chunks[1..], at + n)
  {
    hide Moved, Upto;
  }

  /** What is sent are the bytes at the positions that arrive. */
  lemma {:induction false} SentIsArrived(grants: seq<int>, chunks: seq<seq<byte>>, at: nat)
    ensures TakenAt(Sent(grants, chunks), Joined(chunks), Arrived(grants, chunks, at), at)
    decreases |chunks|
  {
    if chunks != [] {
      hide Moved, Sent, Arrived, Joined, Upto, TakenAt;
      var n := |chunks[0]|;
      var (m, rest) := Moved(grants, n, n);
      FirstChunk(grants, chunks, at);
      SentIsArrived(rest, chunks[1..], at + n);
      Placed(chunks[0], m, Sent(rest, chunks[1..]), Joined(chunks[1..]), Arrived(rest, chunks[1..], at + n), at);
    }
  }

  /** No write of the sequence moves a byte. */
  predicate Silent(grants: seq<int>, chunks: seq<seq<byte>>)
    decreases |chunks|
  {
    chunks == [] ||
    var n := |chunks[0]|;
    var (m, rest) := Moved(grants, n, n);
    m == 0 && Silent(rest, chunks[1..])
  }

  /** After the first write that falls short, no write moves a byte. */
  predicate NoHole(grants: seq<int>, chunks: seq<seq<byte>>)
    decreases |chunks|
  {
    chunks == [] ||
    var n := |chunks[0]|;
    var (m, rest) := Moved(grants, n, n);
    if m == n then NoHole(rest, chunks[1..]) else Silent(rest, chunks[1..])
  }

  lemma {:induction false} SilentArrives(grants: seq<int>, chunks: seq<seq<byte>>, at: nat)
    ensures Silent(grants, chunks) <==> Arrived(grants, chunks, at) == []
    decreases |chunks|
  {
    if chunks != [] {
      hide Moved;
      var n := |chunks[0]|;
      var (m, rest) := Moved(grants, n, n);
      SilentArrives(rest, chunks[1..], at + n);
    }
  }

  /** The positions that arrive are an initial segment of the stream exactly when the schedule
      leaves no hole. */
  lemma {:induction false} InitialSegment(grants: seq<int>, chunks: seq<seq<byte>>, at: nat)
    ensures var ps := Arrived(grants, chunks, at);
            NoHole(grants, chunks) <==> ps == Upto(at, |ps|)
    decreases |chunks|
  {
    hide Moved, Arrived, Upto, NoHole, Silent, Joined;
    if chunks == [] {
      NothingArrives(grants, chunks, at);
    } else {
      var n := |chunks[0]|;
      var (m, rest) := Moved(grants, n, n);
      var qs := Arrived(rest, chunks[1..], at + n);
      FirstChunk(grants, chunks, at);
      FirstHole(grants, chunks);
      InitialSegment(rest, chunks[1..], at + n);
      SilentArrives(rest, chunks[1..], at + n);
      SegmentTail(at, m, n, qs);
    }
  }

  lemma {:induction false} NothingArrives(grants: seq<int>, chunks: seq<seq<byte>>, at: nat)
    requires chunks == []
    ensures Arrived(grants, chunks, at) == [] == Upto(at, 0) && NoHole(grants, chunks)
  {}

  lemma {:induction false} FirstHole(grants: seq<int>, chunks: seq<seq<byte>>)
    requires chunks != []
    ensures var n := |chunks[0]|;
            var (m, rest) := Moved(grants, n, n);
            NoHole(grants, chunks) <==> if m == n then NoHole(rest, chunks[1..]) else Silent(rest, chunks[1..])
  {
    hide Moved;
  }

  lemma SegmentTail(at: nat, m: nat, n: nat, qs: seq<nat>)
    requires m <= n && forall i :: 0 <= i < |qs| ==> at + n <= qs[i]
    ensures Upto(at, m) + qs == Upto(at, m + |qs|) <==>
            if m == n then qs == Upto(at + n, |qs|) else qs == []
  {
    var ps := Upto(at, m) + qs;
    assert forall i :: 0 <= i < |qs| ==> ps[m + i] == qs[i];
    if ps == Upto(at, m + |qs|) && qs != [] {
      assert ps[m] == at + m;
    }
  }

  /** Then what arrives is a prefix of what was meant. */
  lemma NoHolePrefix(grants: seq<int>, chunks: seq<seq<byte>>)
    requires NoHole(grants, chunks)
    ensures Sent(grants, chunks) <= Joined(chunks)
  {
    InitialSegment(grants, chunks, 0);
    SentIsArrived(grants, chunks, 0);
    SentWhole(grants, chunks);
  }

  /** A write that fails between two that succeed leaves a hole in the stream. */
  lemma HoleInStream(a: byte, b: byte)
    requires a != b
    ensures Sent([0, 1], [[a], [b]]) == [b]
    ensures !(Sent([0, 1], [[a], [b]]) <= Joined([[a], [b]]))
  {
    var two, one := [[a], [b]], [[b]];
    assert two[1..] == one && one[1..] == [] && [0, 1][1..] == [1];
    assert Moved([0, 1], 1, 1) == (0, [1]);
    assert Moved([1], 1, 1).0 == 1;
    assert Sent([1], one) == [b][..1] + [];
    assert Sent([0, 1], two) == [a][..0] + Sent([1], one);
    assert Joined(one) == [b] + [];
    assert Joined(two) == [a] + Joined(one);
    assert Sent([0, 1], two)[0] != Joined(two)[0];
  }
}
