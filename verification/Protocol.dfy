/** The messages of the daemon as bytes: packed structures with little-endian integers. */
module Protocol {
  import opened Basics
  import opened Sessions

  const NAME_SIZE := 64

  /** What a 64-byte character field can hold: 63 characters and a NUL. */
  predicate IsName(t: Text) { |t| < NAME_SIZE && 0 !in t }

  /** strncpy into a zeroed field, or snprintf with %s: the C string, cut at 63 characters. */
  function Fit(t: Text): (r: Text)
    ensures IsName(r)
    ensures r <= t && (|r| == NAME_SIZE - 1 || r == CStr(t))
  {
    var c := CStr(t);
    if |c| < NAME_SIZE then c else c[..NAME_SIZE - 1]
  }

  /** A name is cut no further. */
  lemma FitName(t: Text)
    requires IsName(t)
    ensures Fit(t) == t
  {
    CStrPlain(t);
  }

  /** A field without a NUL is the name of nobody. */
  lemma FieldWithoutNul(f: seq<byte>, t: Text)
    requires |f| == NAME_SIZE && 0 !in f && IsName(t)
    ensures CStr(f) != t && Fit(CStr(f)) == f[..NAME_SIZE - 1]
  {
    CStrPlain(f);
  }

  // ---------- integers

  function Pow256(n: nat): (p: nat)
    ensures p > 0
  {
    if n == 0 then 1 else 256 * Pow256(n - 1)
  }

  /** n bytes, least significant first. */
  function LittleEndian(v: nat, n: nat): (b: seq<byte>)
    ensures |b| == n
  {
    if n == 0 then [] else [v % 256] + LittleEndian(v / 256, n - 1)
  }

  function Unsigned(b: seq<byte>): nat {
    if b == [] then 0 else b[0] + 256 * Unsigned(b[1..])
  }

  lemma {:induction false} LittleEndianRoundTrip(v: nat, n: nat)
    requires v < Pow256(n)
    ensures Unsigned(LittleEndian(v, n)) == v
  {
    if n > 0 {
      LittleEndianRoundTrip(v / 256, n - 1);
      assert LittleEndian(v, n)[1..] == LittleEndian(v / 256, n - 1);
    }
  }

  lemma {:induction false} UnsignedBound(b: seq<byte>)
    ensures Unsigned(b) < Pow256(|b|)
  {
    if b != [] {
      UnsignedBound(b[1..]);
    }
  }

  lemma Widths()
    ensures Pow256(4) == 0x1_0000_0000 && Pow256(8) == 0x1_0000_0000_0000_0000
  {
    assert Pow256(2) == 0x1_0000;
    assert Pow256(4) == 256 * (256 * Pow256(2));
    assert Pow256(6) == 256 * (256 * Pow256(4));
    assert Pow256(8) == 256 * (256 * Pow256(6));
  }

  predicate Fits(v: int, n: nat) { 0 <= 2 * v + Pow256(n) && 2 * v < Pow256(n) }

  /** Two's complement in n bytes. */
  function EncodeInt(v: int, n: nat): (b: seq<byte>)
    requires Fits(v, n)
    ensures |b| == n
  {
    LittleEndian(if v < 0 then v + Pow256(n) else v, n)
  }

  function DecodeInt(b: seq<byte>): (v: int)
    ensures Fits(v, |b|)
  {
    UnsignedBound(b);
    var u := Unsigned(b);
    if 2 * u < Pow256(|b|) then u else u - Pow256(|b|)
  }

  lemma IntRoundTrip(v: int, n: nat)
    requires Fits(v, n)
    ensures DecodeInt(EncodeInt(v, n)) == v
  {
    LittleEndianRoundTrip(if v < 0 then v + Pow256(n) else v, n);
  }

  function DecodeInt32(b: seq<byte>): int32
    requires |b| == 4
  {
    Widths();
    DecodeInt(b)
  }

  function DecodeInt64(b: seq<byte>): int64
    requires |b| == 8
  {
    Widths();
    DecodeInt(b)
  }

  // ---------- character fields

  function Zeros(n: nat): (z: seq<byte>)
    ensures |z| == n
  {
    seq(n, _ => 0)
  }

  function Field(t: Text): (f: seq<byte>)
    requires IsName(t)
    ensures |f| == NAME_SIZE
  {
    t + Zeros(NAME_SIZE - |t|)
  }

  lemma FieldRoundTrip(t: Text)
    requires IsName(t)
    ensures CStr(Field(t)) == t && 0 in Field(t)
  {
    var f := Field(t);
    var c := CStr(f);
    assert f[|t|] == 0;
    assert forall i :: 0 <= i < |t| ==> f[i] == t[i] && t[i] in t;
    assert forall i :: 0 <= i < |c| ==> f[i] == c[i] && c[i] in c;
    assert |c| == |t|;
  }

  // ---------- messages

  /** caald_request_t. */
  datatype Request = Request(typ: byte, user: Text, id: Text, pid: int32)

  const REQUEST_SIZE := 133

  const REGISTER: byte := 1
  const UNREGISTER: byte := 2
  const COUNT: byte := 3
  const LIST: byte := 4
  const KILL: byte := 5
  const KILL_USER: byte := 6

  predicate IsRequest(r: Request) { IsName(r.user) && IsName(r.id) }

  function EncodeRequest(r: Request): (b: seq<byte>)
    requires IsRequest(r)
    ensures |b| == REQUEST_SIZE
  {
    Widths();
    [r.typ] + Field(r.user) + Field(r.id) + EncodeInt(r.pid, 4)
  }

  function DecodeRequest(b: seq<byte>): Request
    requires |b| == REQUEST_SIZE
  {
    Request(b[0], CStr(b[1..65]), CStr(b[65..129]), DecodeInt32(b[129..133]))
  }

  lemma RequestRoundTrip(r: Request)
    requires IsRequest(r)
    ensures DecodeRequest(EncodeRequest(r)) == r
  {
    hide EncodeInt, DecodeInt, Field, CStr;
    Widths();
    var b := EncodeRequest(r);
    assert b[1..65] == Field(r.user) && b[65..129] == Field(r.id) && b[129..133] == EncodeInt(r.pid, 4);
    FieldRoundTrip(r.user);
    FieldRoundTrip(r.id);
    IntRoundTrip(r.pid, 4);
  }

  /** caald_response_t. */
  datatype Response = Response(ok: bool, count: int32, error: Text)

  const RESPONSE_SIZE := 69

  function EncodeResponse(r: Response): (b: seq<byte>)
    requires IsName(r.error)
    ensures |b| == RESPONSE_SIZE
  {
    Widths();
    [if r.ok then 1 else 0] + EncodeInt(r.count, 4) + Field(r.error)
  }

  function DecodeResponse(b: seq<byte>): Response
    requires |b| == RESPONSE_SIZE
  {
    Response(b[0] != 0, DecodeInt32(b[1..5]), CStr(b[5..69]))
  }

  lemma ResponseRoundTrip(r: Response)
    requires IsName(r.error)
    ensures DecodeResponse(EncodeResponse(r)) == r
  {
    hide EncodeInt, DecodeInt, Field, CStr;
    Widths();
    var b := EncodeResponse(r);
    assert b[1..5] == EncodeInt(r.count, 4) && b[5..69] == Field(r.error);
    FieldRoundTrip(r.error);
    IntRoundTrip(r.count, 4);
  }

  const INFO_SIZE := 140

  predicate IsNamed(s: Session) { IsName(s.user) && IsName(s.id) }

  /** caald_session_info_t. */
  function EncodeInfo(s: Session): (b: seq<byte>)
    requires IsNamed(s)
    ensures |b| == INFO_SIZE
  {
    Widths();
    Field(s.user) + Field(s.id) + EncodeInt(s.pid, 4) + EncodeInt(s.start, 8)
  }

  function DecodeInfo(b: seq<byte>): Session
    requires |b| == INFO_SIZE
  {
    Session(CStr(b[..64]), CStr(b[64..128]), DecodeInt32(b[128..132]), DecodeInt64(b[132..140]))
  }

  lemma InfoRoundTrip(s: Session)
    requires IsNamed(s)
    ensures DecodeInfo(EncodeInfo(s)) == s
  {
    hide EncodeInt, DecodeInt, Field, CStr;
    Widths();
    var b := EncodeInfo(s);
    assert b[..64] == Field(s.user) && b[64..128] == Field(s.id);
    assert b[128..132] == EncodeInt(s.pid, 4) && b[132..140] == EncodeInt(s.start, 8);
    FieldRoundTrip(s.user);
    FieldRoundTrip(s.id);
    IntRoundTrip(s.pid, 4);
    IntRoundTrip(s.start, 8);
  }
}
