/** toml_get and toml_seek: looking values up by C strings. */
module Getting {
  import opened Basics
  import opened Datum
  import opened TomlMerge

  const KEY_DOT: byte := 46
  const SEEK_MAX := 255

  /** The first entry whose key reads as k up to its first NUL, or |es|: strcmp sees no more. */
  function GetIndex(es: seq<Entry>, k: Text, i: nat): (j: nat)
    requires i <= |es|
    ensures i <= j <= |es| && (j < |es| ==> CStr(es[j].key) == k)
    ensures forall m :: i <= m < j ==> CStr(es[m].key) != k
    decreases |es| - i
  {
    if i < |es| && CStr(es[i].key) != k then GetIndex(es, k, i + 1) else i
  }

  /** toml_get; None is a datum of unknown type. */
  function Get(d: Datum, k: Text): Option<Datum> {
    if d.Table? && GetIndex(d.entries, k, 0) < |d.entries| then Some(d.entries[GetIndex(d.entries, k, 0)].val)
    else None
  }

  method TomlGet(d: Datum, k: Text) returns (r: Option<Datum>)
    ensures r == Get(d, k)
  {
    if !d.Table? {
      return None;
    }
    var i := 0;
    while i < |d.entries|
      invariant 0 <= i <= |d.entries| && GetIndex(d.entries, k, i) == GetIndex(d.entries, k, 0)
    {
      if CStr(d.entries[i].key) == k {
        return Some(d.entries[i].val);
      }
      i := i + 1;
    }
    return None;
  }

  // ---------- a lookup by C string against a lookup by key

  /** The entry at i reads as k but has another key, and no entry before it has the key k. */
  ghost predicate ShadowsAt(es: seq<Entry>, k: Text, i: nat) {
    && i < |es| && 0 in es[i].key && CStr(es[i].key) == k
    && forall j :: 0 <= j < i ==> es[j].key != k
  }

  /** toml_get finds what tab_find finds, or finds nothing with it, exactly when no key with a
      NUL in it reads as k in front of the first entry with the key k, or anywhere when there
      is none. */
  lemma GetIsFind(es: seq<Entry>, k: Text)
    requires 0 !in k
    ensures Find(es, k) == (if GetIndex(es, k, 0) < |es| then GetIndex(es, k, 0) else -1) <==>
            forall i: nat :: !ShadowsAt(es, k, i)
  {
    var g, f := GetIndex(es, k, 0), Find(es, k);
    CStrPlain(k);
    if g < |es| {
      CStrPlain(es[g].key);
      if es[g].key != k {
        assert f < 0 || f > g;
        assert ShadowsAt(es, k, g);
      }
    }
  }

  // ---------- toml_seek

  /** strchr(p, '.'). */
  function DotAt(p: Text, i: nat): (j: nat)
    requires i <= |p|
    ensures i <= j <= |p| && (j < |p| ==> p[j] == KEY_DOT)
    ensures forall m :: i <= m < j ==> p[m] != KEY_DOT
    decreases |p| - i
  {
    if i == |p| || p[i] == KEY_DOT then i else DotAt(p, i + 1)
  }

  /** The loop of toml_seek. */
  function SeekParts(d: Datum, p: Text): Option<Datum>
    decreases |p|
  {
    if !d.Table? then None
    else
      var q := DotAt(p, 0);
      if q == |p| then Get(d, p)
      else
        match Get(d, p[..q])
        case None => None
        case Some(v) => SeekParts(v, p[q + 1..])
  }

  method TomlSeek(table: Datum, key: Text) returns (r: Option<Datum>)
    ensures r == if |key| > SEEK_MAX then None else SeekParts(table, key)
  {
    if !table.Table? || |key| > SEEK_MAX {
      return None;
    }
    var datum, p := table, key;
    while datum.Table?
      invariant SeekParts(datum, p) == SeekParts(table, key)
      decreases |p|
    {
      var q := DotAt(p, 0);
      if q == |p| {
        r := TomlGet(datum, p);
        return;
      }
      var v := TomlGet(datum, p[..q]);
      if v == None {
        return None;
      }
      datum, p := v.value, p[q + 1..];
    }
    return None;
  }

  /** Parts with a dot between them. */
  function Dotted(parts: seq<Text>): Text
    requires parts != []
  {
    if |parts| == 1 then parts[0] else parts[0] + [KEY_DOT] + Dotted(parts[1..])
  }

  ghost predicate ArePlain(parts: seq<Text>) {
    forall k :: k in parts ==> 0 !in k && KEY_DOT !in k
  }

  /** No key of the tree has a NUL in it. */
  ghost predicate NulFree(d: Datum) {
    match d
    case Leaf(_, _) => true
    case Array(_, xs) => forall x :: x in xs ==> NulFree(x)
    case Table(_, es) => forall e :: e in es ==> 0 !in e.key && NulFree(e.val)
  }

  lemma DotAfter(k: Text, rest: Text)
    requires KEY_DOT !in k
    ensures DotAt(k, 0) == |k|
    ensures DotAt(k + [KEY_DOT] + rest, 0) == |k|
  {
    var p := k + [KEY_DOT] + rest;
    assert p[|k|] == KEY_DOT;
    assert forall m :: 0 <= m < |k| ==> p[m] == k[m] && k[m] in k;
  }

  lemma GetIsFindPlain(d: Datum, k: Text)
    requires NulFree(d) && 0 !in k && d.Table?
    ensures Get(d, k) == if Find(d.entries, k) >= 0 then Some(d.entries[Find(d.entries, k)].val) else None
  {
    GetIsFind(d.entries, k);
    forall i: nat ensures !ShadowsAt(d.entries, k, i) {
      if i < |d.entries| {
        assert d.entries[i] in d.entries;
      }
    }
  }

  /** In a tree whose keys have no NUL, a dotted key is a path. */
  lemma {:induction false} SeekIsPath(d: Datum, parts: seq<Text>)
    requires NulFree(d) && parts != [] && ArePlain(parts)
    ensures SeekParts(d, Dotted(parts)) == Seek(d, parts)
    decreases |parts|
  {
    var k := parts[0];
    if d.Table? {
      GetIsFindPlain(d, k);
      if |parts| == 1 {
        DotAfter(k, []);
        assert parts[1..] == [];
      } else {
        var rest := Dotted(parts[1..]);
        DotAfter(k, rest);
        var p := k + [KEY_DOT] + rest;
        assert p[..|k|] == k && p[|k| + 1..] == rest;
        if Find(d.entries, k) >= 0 {
          var e := d.entries[Find(d.entries, k)];
          assert e in d.entries;
          SeekIsPath(e.val, parts[1..]);
        }
      }
    }
  }
}
