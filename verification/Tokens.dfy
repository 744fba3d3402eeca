/** What the tokens of basic strings hold: no NUL, and the position of their first backslash. */
module Tokens {
  import opened Basics
  import opened Scanning
  import opened Parsing

  ghost predicate NoNul(src: seq<byte>, i: nat, j: nat)
    requires j <= |src|
  {
    forall k :: i <= k < j ==> src[k] != 0
  }

  lemma {:induction false} BlanksNoNul(src: seq<byte>, i: nat)
    requires i <= |src|
    ensures NoNul(src, i, SkipBlanks(src, i))
    decreases |src| - i
  {
    if SkipBlanks(src, i) > i {
      BlanksNoNul(src, i + GetLen(src, i));
    }
  }

  lemma {:induction false} SpacesNoNul(src: seq<byte>, i: nat)
    requires i <= |src|
    ensures NoNul(src, i, SkipSpaces(src, i))
    decreases |src| - i
  {
    if SkipSpaces(src, i) > i {
      SpacesNoNul(src, i + 1);
    }
  }

  lemma EscapeNoNul(src: seq<byte>, i: nat, multiline: bool)
    requires i <= |src| && EscapeEnd(src, i, multiline).Some?
    ensures NoNul(src, i, EscapeEnd(src, i, multiline).value)
  {
    var c := GetChar(src, i);
    if !IsSimpleEscape(c) && HexCount(c) == 0 {
      SpacesNoNul(src, i);
      var m := SkipSpaces(src, i);
      BlanksNoNul(src, m + GetLen(src, m));
    }
  }

  lemma {:induction false} StringNoNul(src: seq<byte>, i: nat)
    requires i <= |src| && StringEnd(src, i).Some?
    ensures NoNul(src, i, StringEnd(src, i).value)
    decreases |src| - i
  {
    hide EscapeEnd;
    if StringEnd(src, i).value > i {
      if GetChar(src, i) == BACKSLASH {
        EscapeNoNul(src, i + 1, false);
        StringNoNul(src, EscapeEnd(src, i + 1, false).value);
      } else {
        StringNoNul(src, i + GetLen(src, i));
      }
    }
  }

  lemma {:induction false} MlStringNoNul(src: seq<byte>, i: nat)
    requires i <= |src| && MlStringEnd(src, i).Some?
    ensures NoNul(src, i, MlStringEnd(src, i).value)
    decreases |src| - i
  {
    hide EscapeEnd, MatchN;
    if MlStringEnd(src, i).value > i {
      if GetChar(src, i) == BACKSLASH {
        EscapeNoNul(src, i + 1, true);
        MlStringNoNul(src, EscapeEnd(src, i + 1, true).value);
      } else {
        MlStringNoNul(src, i + GetLen(src, i));
      }
    }
  }

  /** The text of a basic string token as parse_norm needs it. */
  ghost predicate Sound(text: Text, escp: Option<nat>, start: nat) {
    && 0 !in text
    && (escp.Some? ==>
          && start <= escp.value < start + |text| && text[escp.value - start] == BACKSLASH
          && BACKSLASH !in text[..escp.value - start])
  }

  lemma SoundBody(src: seq<byte>, i: nat, e: nat)
    requires i <= e <= |src| && NoNul(src, i, e)
    ensures Sound(src[i..e], FirstOf(src, i, e, BACKSLASH), i)
  {
    var escp := FirstOf(src, i, e, BACKSLASH);
    assert forall k :: i <= k < e ==> src[i..e][k - i] == src[k];
    if escp.Some? {
      assert src[i..e][..escp.value - i] == src[i..escp.value];
    }
  }

  lemma StringTokenSound(src: seq<byte>, p: nat)
    requires p < |src| && src[p] == QUOTE && ScanString(src, p).Ok?
    ensures var t := ScanString(src, p).value.0;
            Sound(src[t.start..t.start + t.len], t.escp, t.start)
  {
    hide StringEnd, MlStringEnd, MatchN, FirstOf;
    if MatchN(src, p, QUOTE, 3) {
      var i := BodyStart(src, p + 3);
      MlStringNoNul(src, i);
      SoundBody(src, i, MlStringEnd(src, i).value);
    } else {
      StringNoNul(src, p + 1);
      SoundBody(src, p + 1, StringEnd(src, p + 1).value);
    }
  }

  lemma TokenSound(s: Input, i: nat, keymode: bool)
    requires i <= |s.src| && ScanNext(s, i, keymode).Ok? && IsEscaped(ScanNext(s, i, keymode).value.0.typ)
    ensures var t := ScanNext(s, i, keymode).value.0;
            t.start + t.len <= |s.src| && Sound(TokText(s, t), t.escp, t.start)
  {
    hide ScanString, ScanLitString, ScanValue, TokenStart, Sound;
    var p := TokenStart(s.src, i).value;
    assert GetChar(s.src, p) == QUOTE && ScanAt(s, p, keymode) == ScanString(s.src, p);
    StringTokenSound(s.src, p);
  }
}
