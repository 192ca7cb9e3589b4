/**
  Parameter values in patroni/postgresql/config.py: ConfigWriter.write_param quotes them for recovery.conf,
  read_recovery_param_value reads them.
 */
module RecoveryParam {
  import opened Wrappers
  import Conninfo

  // ---------------------------------------------------------------- str.strip and strip_comment

  function RightStripped(s: string): (r: string)
    ensures |r| <= |s|
  {
    if s != "" && Conninfo.IsSpace(s[|s| - 1]) then RightStripped(s[..|s| - 1]) else s
  }

  function Strip(s: string): string { RightStripped(Conninfo.Stripped(s)) }

  function BeforeHash(s: string): string {
    if s == "" || s[0] == '#' then "" else [s[0]] + BeforeHash(s[1..])
  }

  function StripComment(s: string): string {
    if '#' in s then Strip(BeforeHash(s)) else s
  }

  // ---------------------------------------------------------------- reading and writing

  /** What may follow a closing quote: nothing, or a comment that the quote touches or a plain space introduces. */
  predicate Closes(after: string) {
    after == "" || (after[0] in {'#', ' '} && StripComment(after) == "")
  }

  /** The text behind an opening quote, up to the closing one, behind what has been read. */
  function ReadQuoted(s: string, ret: string): (r: Option<string>) {
    if s == "" then None
    else if s[0] == '\\' then if |s| == 1 then None else ReadQuoted(s[2..], ret + [s[1]])
    else if s[0] != '\'' then ReadQuoted(s[1..], ret + [s[0]])
    else if Closes(s[1..]) then Some(ret)
    else if s[1] == '\'' then ReadQuoted(s[2..], ret + ['\''])
    else None
  }

  /** The value of a stripped text. */
  function ReadStripped(s: string): Option<string> {
    if s == "" then None
    else if s[0] == '\'' then ReadQuoted(s[1..], "")
    else
      var value := StripComment(s);
      if value == "" || ' ' in value || '\\' in value then None else Some(value)
  }

  /** read_recovery_param_value on the text behind `=`. */
  function ReadValue(text: string): Option<string> { ReadStripped(Strip(text)) }

  /** The loop over a quoted value; its else branch runs when the text ends inside the quotes. */
  method ReadQuotedValue(value: string) returns (r: Option<string>)
    requires value != "" && value[0] == '\''
    ensures r == ReadQuoted(value[1..], "")
  {
    ghost var read := ReadQuoted(value[1..], "");
    var ret, i := "", 1;
    while i < |value|
      invariant 1 <= i <= |value| && read == ReadQuoted(value[i..], ret)
    {
      assert value[i..][1..] == value[i + 1..];
      assert i + 2 <= |value| ==> value[i..][2..] == value[i + 2..];
      if value[i] == '\\' {
        i := i + 1;
        if i >= |value| {
          return None;
        }
      } else if value[i] == '\'' {
        i := i + 1;
        if i >= |value| {
          return Some(ret);
        }
        if value[i] in {'#', ' '} {
          if StripComment(value[i..]) != "" {
            return None;
          }
          return Some(ret);
        }
        if value[i] != '\'' {
          return None;
        }
      }
      ret := ret + [value[i]];
      i := i + 1;
    }
    return None;
  }

  method ReadRecoveryParamValue(text: string) returns (r: Option<string>)
    ensures r == ReadValue(text)
  {
    var value := Strip(text);
    if |value| == 0 {
      return None;
    } else if value[0] == '\'' {
      if |value| == 1 {
        return None;
      }
      r := ReadQuotedValue(value);
    } else {
      value := StripComment(value);
      if value == "" || ' ' in value || '\\' in value {
        return None;
      }
      r := Some(value);
    }
  }

  function EscapeChar(c: char): string {
    if c == '\'' || c == '\\' then [c, c] else [c]
  }

  /** ConfigWriter.escape: quotes and backslashes doubled. */
  function Escape(v: string): string {
    if v == "" then "" else EscapeChar(v[0]) + Escape(v[1..])
  }

  /** What write_param writes behind `=`. */
  function Quoted(v: string): string { "'" + (Escape(v) + "'") }

  // ---------------------------------------------------------------- stripping

  lemma {:induction false} StripTrail(s: string, trail: string)
    requires s != "" && !Conninfo.IsSpace(s[|s| - 1])
    ensures RightStripped(s + trail) == s + RightStripped(trail)
  {
    if trail == "" {
      assert s + trail == s;
    } else if Conninfo.IsSpace(trail[|trail| - 1]) {
      assert (s + trail)[..|s + trail| - 1] == s + trail[..|trail| - 1];
      StripTrail(s, trail[..|trail| - 1]);
    }
  }

  /** Spaces at the end do not matter for what is at the beginning. */
  lemma {:induction false} TrailKeepsFirst(s: string)
    ensures
      var t := RightStripped(s);
      (t == "" <==> Conninfo.AllSpaces(s)) &&
      (t != "" ==> t[0] == s[0] && !Conninfo.AllSpaces(t) && Conninfo.Stripped(t)[0] == Conninfo.Stripped(s)[0])
  {
    if s != "" && Conninfo.IsSpace(s[|s| - 1]) {
      var shorter := s[..|s| - 1];
      assert s == shorter + [s[|s| - 1]];
      StripAppended(shorter, s[|s| - 1]);
      TrailKeepsFirst(shorter);
    } else if s != "" {
      StrippedKeepsLast(s);
    }
  }

  lemma {:induction false} StripAppended(s: string, c: char)
    requires Conninfo.IsSpace(c)
    ensures Conninfo.Stripped(s + [c]) == if Conninfo.AllSpaces(s) then "" else Conninfo.Stripped(s) + [c]
  {
    if s == "" {
      assert (s + [c])[1..] == "";
    } else if Conninfo.IsSpace(s[0]) {
      assert (s + [c])[1..] == s[1..] + [c];
      StripAppended(s[1..], c);
    }
  }

  lemma {:induction false} StrippedKeepsLast(s: string)
    requires s != "" && !Conninfo.IsSpace(s[|s| - 1])
    ensures !Conninfo.AllSpaces(s)
  {
    if Conninfo.IsSpace(s[0]) {
      StrippedKeepsLast(s[1..]);
    }
  }

  lemma StripEmpty(s: string)
    ensures Strip(s) == "" <==> Conninfo.AllSpaces(s)
  {
    StrippedBegins(s);
    TrailKeepsFirst(Conninfo.Stripped(s));
  }

  lemma {:induction false} StrippedBegins(s: string)
    ensures var r := Conninfo.Stripped(s); r == "" || (!Conninfo.IsSpace(r[0]) && Conninfo.Stripped(r) == r)
  {
    if s != "" && Conninfo.IsSpace(s[0]) {
      StrippedBegins(s[1..]);
    }
  }

  lemma {:induction false} OnlySpacesBeforeHash(s: string)
    requires '#' in s
    ensures Conninfo.AllSpaces(BeforeHash(s)) <==> !Conninfo.AllSpaces(s) && Conninfo.Stripped(s)[0] == '#'
  {
    assert !Conninfo.IsSpace('#') by {
      Conninfo.Printable('#' as int, |Conninfo.SPACES|);
    }
    if s[0] != '#' && Conninfo.IsSpace(s[0]) {
      OnlySpacesBeforeHash(s[1..]);
      assert BeforeHash(s)[1..] == BeforeHash(s[1..]);
    } else if s[0] == '#' {
    } else {
      assert BeforeHash(s)[0] == s[0];
    }
  }

  lemma {:induction false} StrippedWithin(s: string, c: char)
    requires c in Conninfo.Stripped(s)
    ensures c in s
  {
    if s != "" && Conninfo.IsSpace(s[0]) {
      StrippedWithin(s[1..], c);
    }
  }

  // ---------------------------------------------------------------- the round trip

  /** Spaces only, or a comment that the text before it touches or a plain space introduces. */
  predicate SpacesOrComment(t: string) {
    Conninfo.AllSpaces(t) || (t[0] in {'#', ' '} && Conninfo.Stripped(t)[0] == '#')
  }

  lemma ClosesExactly(t: string)
    ensures Closes(RightStripped(t)) <==> SpacesOrComment(t)
  {
    var r := RightStripped(t);
    TrailKeepsFirst(t);
    if r != "" {
      if '#' in r {
        OnlySpacesBeforeHash(r);
        StripEmpty(BeforeHash(r));
      } else if Conninfo.Stripped(r)[0] == '#' {
        assert Conninfo.Stripped(r)[0] in Conninfo.Stripped(r);
        StrippedWithin(r, '#');
      }
    }
  }

  lemma {:induction false} ReadGrows(s: string, ret: string)
    ensures ReadQuoted(s, ret).Some? ==> |ret| <= |ReadQuoted(s, ret).value| < |ret| + |s|
  {
    if s != "" {
      if s[0] == '\\' {
        if |s| > 1 {
          ReadGrows(s[2..], ret + [s[1]]);
        }
      } else if s[0] != '\'' {
        ReadGrows(s[1..], ret + [s[0]]);
      } else if !Closes(s[1..]) && s[1] == '\'' {
        ReadGrows(s[2..], ret + ['\'']);
      }
    }
  }

  lemma ReadChar(c: char, rest: string, ret: string)
    ensures ReadQuoted(EscapeChar(c) + rest, ret) == ReadQuoted(rest, ret + [c])
  {
    var s := EscapeChar(c) + rest;
    assert s[|EscapeChar(c)|..] == rest;
    if c == '\'' {
      assert s[1..][0] == '\'';
    }
  }

  lemma EscapeFirst(v: string, tail: string)
    requires v != ""
    ensures Escape(v) + tail == EscapeChar(v[0]) + (Escape(v[1..]) + tail)
  {
  }

  lemma ReadClosing(after: string, ret: string)
    ensures ReadQuoted("'" + after, ret) == Some(ret) <==> Closes(after)
  {
    var s := "'" + after;
    assert s[1..] == after;
    if !Closes(after) && after[0] == '\'' {
      ReadGrows(s[2..], ret + ['\'']);
    }
  }

  lemma ReadFirst(v: string, tail: string, ret: string)
    requires v != ""
    ensures ReadQuoted(Escape(v) + tail, ret) == ReadQuoted(Escape(v[1..]) + tail, ret + [v[0]])
  {
    EscapeFirst(v, tail);
    ReadChar(v[0], Escape(v[1..]) + tail, ret);
  }

  lemma AppendFirst(ret: string, v: string)
    requires v != ""
    ensures ret + [v[0]] + v[1..] == ret + v
  {
  }

  lemma {:induction false} ReadEscaped(v: string, tail: string, ret: string)
    ensures ReadQuoted(Escape(v) + tail, ret) == ReadQuoted(tail, ret + v)
  {
    if v == "" {
      assert Escape(v) + tail == tail && ret + v == ret;
    } else {
      ReadFirst(v, tail, ret);
      ReadEscaped(v[1..], tail, ret + [v[0]]);
      AppendFirst(ret, v);
    }
  }

  lemma StripAround(lead: string, s: string, trail: string)
    requires Conninfo.AllSpaces(lead) && s != "" && !Conninfo.IsSpace(s[0]) && !Conninfo.IsSpace(s[|s| - 1])
    ensures Strip(lead + (s + trail)) == s + RightStripped(trail)
  {
    Conninfo.StripLead(lead, s + trail);
    StripTrail(s, trail);
  }

  lemma ReadStrippedQuoted(v: string, after: string)
    ensures ReadStripped(Quoted(v) + after) == ReadQuoted("'" + after, v)
  {
    ghost var s := Quoted(v) + after;
    assert s[1..] == Escape(v) + ("'" + after);
    ReadEscaped(v, "'" + after, "");
    assert "" + v == v;
  }

  /** A written value, whatever it is, is read back, exactly if only spaces and a comment stand around it. */
  lemma ReadsBackExactly(lead: string, v: string, trail: string)
    requires Conninfo.AllSpaces(lead)
    ensures ReadValue(lead + (Quoted(v) + trail)) == Some(v) <==> SpacesOrComment(trail)
  {
    var after := RightStripped(trail);
    Conninfo.SpaceFacts();
    StripAround(lead, Quoted(v), trail);
    ReadStrippedQuoted(v, after);
    ReadClosing(after, v);
    ClosesExactly(trail);
  }

  /** Every character behind a backslash. */
  function Backslashed(v: string): string {
    if v == "" then "" else ['\\', v[0]] + Backslashed(v[1..])
  }

  lemma {:induction false} ReadBackslashed(v: string, tail: string, ret: string)
    ensures ReadQuoted(Backslashed(v) + tail, ret) == ReadQuoted(tail, ret + v)
  {
    if v == "" {
      assert Backslashed(v) + tail == tail && ret + v == ret;
    } else {
      var rest := Backslashed(v[1..]) + tail;
      assert Backslashed(v) + tail == ['\\', v[0]] + rest && (['\\', v[0]] + rest)[2..] == rest;
      ReadBackslashed(v[1..], tail, ret + [v[0]]);
      AppendFirst(ret, v);
    }
  }

  /** A backslash in quotes stands for the character behind it, whatever that is. */
  lemma BackslashesReadBack(v: string)
    ensures ReadValue("'" + (Backslashed(v) + "'")) == Some(v)
  {
    var s := "'" + (Backslashed(v) + "'");
    Conninfo.SpaceFacts();
    assert s[|s| - 1] == '\'' && Strip(s) == s;
    assert s[1..] == Backslashed(v) + "'";
    ReadBackslashed(v, "'", "");
    assert "" + v == v;
    ReadClosing("", v);
    assert "'" + "" == "'";
  }

  lemma {:induction false} NoClosing(v: string, ret: string)
    ensures ReadQuoted(Escape(v), ret).None? && ReadQuoted(Escape(v) + "\\", ret).None?
  {
    assert Escape(v) + "" == Escape(v);
    ReadEscaped(v, "", ret);
    ReadEscaped(v, "\\", ret);
  }

  /** A quoted text that does not end, or ends with a lone backslash, has no value. */
  lemma UnterminatedRejected(v: string)
    ensures ReadStripped("'" + Escape(v)).None? && ReadStripped("'" + (Escape(v) + "\\")).None?
  {
    NoClosing(v, "");
    assert ("'" + Escape(v))[1..] == Escape(v) && ("'" + (Escape(v) + "\\"))[1..] == Escape(v) + "\\";
  }

  /** What write_param writes is read back. */
  lemma WrittenReadsBack(v: string)
    ensures ReadValue(" " + Quoted(v)) == Some(v)
  {
    Conninfo.SpaceFacts();
    assert Conninfo.Stripped(" ") == "" by {
      assert " "[1..] == "";
    }
    ReadsBackExactly(" ", v, "");
    assert Quoted(v) + "" == Quoted(v);
  }

  /** A text without quotes stands for itself, exactly if it has no space, backslash or comment. */
  lemma BareReadsBackExactly(v: string)
    requires Strip(v) == v
    ensures ReadValue(v) == Some(v) <==> v != "" && v[0] != '\'' && forall c <- v :: c !in {' ', '\\', '#'}
  {
    if v != "" && v[0] == '\'' {
      ReadGrows(v[1..], "");
    } else if '#' in v {
      HashGone(v);
    }
  }

  lemma {:induction false} BeforeHashHasNone(s: string)
    ensures '#' !in BeforeHash(s)
  {
    if s != "" && s[0] != '#' {
      BeforeHashHasNone(s[1..]);
    }
  }

  lemma {:induction false} RightStrippedWithin(s: string, c: char)
    requires c in RightStripped(s)
    ensures c in s
  {
    if s != "" && Conninfo.IsSpace(s[|s| - 1]) {
      RightStrippedWithin(s[..|s| - 1], c);
    }
  }

  lemma HashGone(s: string)
    requires '#' in s
    ensures '#' !in StripComment(s)
  {
    BeforeHashHasNone(s);
    if '#' in Strip(BeforeHash(s)) {
      RightStrippedWithin(Conninfo.Stripped(BeforeHash(s)), '#');
      StrippedWithin(BeforeHash(s), '#');
    }
  }
}
