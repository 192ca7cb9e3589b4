/**
  Connection strings in patroni/postgresql/config.py: ConfigHandler.format_dsn writes them, conninfo_parse and
  read_param_value read them.
 */
module Conninfo {
  import opened Wrappers

  /** The code points for which str.isspace is true, as ranges; \s of a regular expression is the same. */
  const SPACES: seq<(int, int)> :=
    [(0x2000, 0x200A), (0x2028, 0x2029), (0x202F, 0x202F), (0x205F, 0x205F), (0x3000, 0x3000), (0x1680, 0x1680),
     (0xA0, 0xA0), (0x85, 0x85), (9, 13), (28, 32)]

  predicate InRanges(n: int, k: nat)
    requires k <= |SPACES|
  {
    k > 0 && (SPACES[k - 1].0 <= n <= SPACES[k - 1].1 || InRanges(n, k - 1))
  }

  predicate IsSpace(c: char) { InRanges(c as int, |SPACES|) }

  lemma {:induction false} Printable(n: int, k: nat)
    requires 33 <= n < 0x85 && k <= |SPACES|
    ensures !InRanges(n, k)
  {
    if k > 0 {
      Printable(n, k - 1);
    }
  }

  /** What the round trip needs to know about spaces. */
  lemma SpaceFacts()
    ensures IsSpace(' ') && !IsSpace('\\') && !IsSpace('\'') && !IsSpace('=')
    ensures forall c :: IsNameChar(c) ==> !IsSpace(c)
  {
    assert SPACES[|SPACES| - 1] == (28, 32);
    Printable('\\' as int, |SPACES|);
    Printable('\'' as int, |SPACES|);
    Printable('=' as int, |SPACES|);
    forall c | IsNameChar(c)
      ensures !IsSpace(c)
    {
      Printable(c as int, |SPACES|);
    }
  }

  /** The same in figures. */
  lemma SpacesExactly(c: char)
    ensures IsSpace(c) <==>
      var n := c as int;
      || 9 <= n <= 13 || 28 <= n <= 32 || n == 0x85 || n == 0xA0 || n == 0x1680 || 0x2000 <= n <= 0x200A
      || n == 0x2028 || n == 0x2029 || n == 0x202F || n == 0x205F || n == 0x3000
  {
    var n := c as int;
    assert !InRanges(n, 0) && SPACES[0] == (0x2000, 0x200A) && SPACES[1] == (0x2028, 0x2029);
    assert InRanges(n, 1) <==> 0x2000 <= n <= 0x200A;
    assert InRanges(n, 2) <==> 0x2000 <= n <= 0x200A || n == 0x2028 || n == 0x2029;
    assert InRanges(n, 4) <==> InRanges(n, 2) || n == 0x202F || n == 0x205F;
    assert InRanges(n, 6) <==> InRanges(n, 4) || n == 0x3000 || n == 0x1680;
    assert InRanges(n, 8) <==> InRanges(n, 6) || n == 0xA0 || n == 0x85;
    assert InRanges(n, 10) <==> InRanges(n, 8) || 9 <= n <= 13 || 28 <= n <= 32;
  }

  predicate IsNameChar(c: char) { 'a' <= c <= 'z' || c == '_' }

  predicate IsName(s: string) { s != "" && forall c <- s :: IsNameChar(c) }

  // ---------------------------------------------------------------- reading

  function NameLength(s: string): (n: nat)
    ensures n <= |s|
  {
    if s != "" && IsNameChar(s[0]) then 1 + NameLength(s[1..]) else 0
  }

  /** The text behind its leading spaces. */
  function Stripped(s: string): (r: string)
    ensures |r| <= |s|
  {
    if s != "" && IsSpace(s[0]) then Stripped(s[1..]) else s
  }

  predicate AllSpaces(s: string) { Stripped(s) == "" }

  lemma {:induction false} StripLead(lead: string, s: string)
    requires AllSpaces(lead) && s != "" && !IsSpace(s[0])
    ensures Stripped(lead + s) == s
  {
    if lead == "" {
      assert lead + s == s;
    } else {
      assert (lead + s)[1..] == lead[1..] + s;
      StripLead(lead[1..], s);
    }
  }

  /** PARAMETER_RE.match: the name in front of `=`, and the text behind it and the spaces around it. */
  function MatchParameter(s: string): (r: Option<(string, string)>)
    ensures r.Some? ==> |r.value.1| < |s|
  {
    var n := NameLength(s);
    var rest := Stripped(s[n..]);
    if n > 0 && rest != "" && rest[0] == '=' then Some((s[..n], Stripped(rest[1..]))) else None
  }

  /** The value at the beginning of s, up to a space, behind what has been read, and the text behind it. */
  function ReadUnquoted(s: string, ret: string): (r: (string, string))
    ensures |r.1| <= |s|
  {
    if s == "" || IsSpace(s[0]) then (ret, s)
    else if s[0] != '\\' then ReadUnquoted(s[1..], ret + [s[0]])
    else if |s| == 1 then (ret, "")
    else ReadUnquoted(s[2..], ret + [s[1]])
  }

  /** The same after an opening quote, up to the closing one; None without one. */
  function ReadQuoted(s: string, ret: string): (r: Option<(string, string)>)
    ensures r.Some? ==> |r.value.1| <= |s|
  {
    if s == "" then None
    else if s[0] == '\'' then Some((ret, s[1..]))
    else if s[0] != '\\' then ReadQuoted(s[1..], ret + [s[0]])
    else if |s| == 1 then None
    else ReadQuoted(s[2..], ret + [s[1]])
  }

  /** read_param_value: the value and the text behind it. */
  function ReadValue(s: string): (r: Option<(string, string)>)
    requires s != ""
    ensures r.Some? ==> |r.value.1| <= |s|
  {
    if s[0] == '\'' then ReadQuoted(s[1..], "") else Some(ReadUnquoted(s, ""))
  }

  /** `name = value` at the beginning of s: the name, the value and the text behind them. */
  function ReadParameter(s: string): (r: Option<(string, string, string)>)
    ensures r.Some? ==> |r.value.2| < |s|
  {
    var matched := MatchParameter(s);
    if matched.None? || matched.value.1 == "" then None
    else
      var (name, rest) := matched.value;
      var read := ReadValue(rest);
      if read.None? then None else Some((name, read.value.0, read.value.1))
  }

  /** conninfo_parse of the text that is left, on top of what has been read. */
  function ParseOn(s: string, ret: map<string, string>): Option<map<string, string>>
    decreases |s|, 1
  {
    if s == "" then Some(ret)
    else if IsSpace(s[0]) then ParseOn(s[1..], ret)
    else ParseParameter(s, ret)
  }

  function ParseParameter(s: string, ret: map<string, string>): Option<map<string, string>>
    decreases |s|, 0
  {
    var read := ReadParameter(s);
    if read.None? then None
    else ParseOn(read.value.2, ret[read.value.0 := read.value.1])
  }

  method ReadParamValue(value: string) returns (r: Option<(string, nat)>)
    requires value != ""
    ensures r.None? ==> ReadValue(value).None?
    ensures r.Some? ==> r.value.1 <= |value| && ReadValue(value) == Some((r.value.0, value[r.value.1..]))
  {
    ghost var read := ReadValue(value);
    var ret := "";
    var quoted := value[0] == '\'';
    var i := if quoted then 1 else 0;
    assert value[0..] == value;
    while i < |value|
      invariant 0 <= i <= |value|
      invariant read == if quoted then ReadQuoted(value[i..], ret) else Some(ReadUnquoted(value[i..], ret))
    {
      assert value[i..][1..] == value[i + 1..];
      assert i + 2 <= |value| ==> value[i..][2..] == value[i + 2..];
      if quoted {
        if value[i] == '\'' {
          return Some((ret, i + 1));
        }
      } else if IsSpace(value[i]) {
        break;
      }
      if value[i] == '\\' {
        i := i + 1;
        if i >= |value| {
          break;
        }
      }
      ret := ret + [value[i]];
      i := i + 1;
    }
    r := if quoted then None else Some((ret, i));
  }

  lemma {:induction false} StrippedIsSuffix(s: string)
    ensures var r := Stripped(s); r == s[|s| - |r|..]
  {
    if s != "" && IsSpace(s[0]) {
      StrippedIsSuffix(s[1..]);
    }
  }

  lemma SuffixTwice(s: string, a: nat, b: nat)
    requires a + b <= |s|
    ensures s[a..][b..] == s[a + b..]
  {
  }

  /** A suffix without its leading spaces is one. */
  lemma StrippedSuffix(s: string, a: nat)
    requires a <= |s|
    ensures var r := Stripped(s[a..]); r == s[|s| - |r|..]
  {
    StrippedIsSuffix(s[a..]);
    SuffixTwice(s, a, |s| - a - |Stripped(s[a..])|);
  }

  lemma MatchIsSuffix(s: string)
    requires MatchParameter(s).Some?
    ensures var rest := MatchParameter(s).value.1; rest == s[|s| - |rest|..]
  {
    var n := NameLength(s);
    var eq := |s| - |Stripped(s[n..])|;
    StrippedSuffix(s, n);
    SuffixTwice(s, eq, 1);
    StrippedSuffix(s, eq + 1);
  }

  /** One round of the loop of conninfo_parse at a character that is no space: name, value and where they end. */
  method ReadOne(s: string) returns (r: Option<(string, string, nat)>)
    ensures r.None? ==> ReadParameter(s).None?
    ensures r.Some? ==> 0 < r.value.2 <= |s| && ReadParameter(s) == Some((r.value.0, r.value.1, s[r.value.2..]))
  {
    var matched := MatchParameter(s);
    if matched.None? || matched.value.1 == "" {
      return None;
    }
    var (param, rest) := matched.value;
    var start := |s| - |rest|;
    MatchIsSuffix(s);
    var read := ReadParamValue(rest);
    if read.None? {
      return None;
    }
    assert rest[read.value.1..] == s[start + read.value.1..];
    r := Some((param, read.value.0, start + read.value.1));
  }

  /** One round of the loop of conninfo_parse: how far it gets and what it has read then. */
  method Advance(dsn: string, i: nat, ret: map<string, string>) returns (next: Option<(nat, map<string, string>)>)
    requires i < |dsn|
    ensures
      match next
      case None => ParseOn(dsn[i..], ret).None?
      case Some((i', more)) => i < i' <= |dsn| && ParseOn(dsn[i..], ret) == ParseOn(dsn[i'..], more)
  {
    var s := dsn[i..];
    if IsSpace(dsn[i]) {
      assert s[1..] == dsn[i + 1..];
      return Some((i + 1, ret));
    }
    var read := ReadOne(s);
    if read.None? {
      return None;
    }
    assert s[read.value.2..] == dsn[i + read.value.2..];
    return Some((i + read.value.2, ret[read.value.0 := read.value.1]));
  }

  lemma ParseDone(ret: map<string, string>)
    ensures ParseOn("", ret) == Some(ret)
  {
  }

  /** Every round advances, so the parser terminates on all texts. */
  method ConninfoParse(dsn: string) returns (r: Option<map<string, string>>)
    ensures r == ParseOn(dsn, map[])
  {
    ghost var parsed := ParseOn(dsn, map[]);
    var ret: map<string, string> := map[];
    var i := 0;
    assert dsn[0..] == dsn;
    while i < |dsn|
      invariant 0 <= i <= |dsn| && parsed == ParseOn(dsn[i..], ret)
    {
      var next := Advance(dsn, i, ret);
      if next.None? {
        return None;
      }
      i, ret := next.value.0, next.value.1;
    }
    assert dsn[i..] == "";
    ParseDone(ret);
    return Some(ret);
  }

  // ---------------------------------------------------------------- writing

  function EscapeChar(c: char): string {
    if c == '\'' || c == '\\' || c == ' ' then ['\\', c] else [c]
  }

  function Escape(v: string): string {
    if v == "" then "" else EscapeChar(v[0]) + Escape(v[1..])
  }

  /** A keyword and its value. */
  type Pair = (string, string)

  function Render(pairs: seq<Pair>): string
    decreases |pairs|, 0
  {
    if pairs == [] then ""
    else pairs[0].0 + ("=" + (Escape(pairs[0].1) + RenderMore(pairs[1..])))
  }

  function RenderMore(pairs: seq<Pair>): string
    decreases |pairs|, 1
  {
    if pairs == [] then "" else " " + Render(pairs)
  }

  const KEYWORDS_AFTER := ["host", "port", "sslmode", "sslcompression", "sslcert", "sslkey", "sslpassword",
                           "sslrootcert", "sslcrl", "application_name", "krbsrvname", "gssencmode", "channel_binding"]

  function Keywords(params: map<string, string>): seq<string> {
    ["dbname", "user", if "passfile" in params && params["passfile"] != "" then "passfile" else "password"]
    + KEYWORDS_AFTER
  }

  function Chosen(keywords: seq<string>, skip: set<string>, params: map<string, string>): seq<Pair> {
    if keywords == [] then []
    else
      (if keywords[0] !in skip && keywords[0] in params then [(keywords[0], params[keywords[0]])] else [])
      + Chosen(keywords[1..], skip, params)
  }

  /** The keywords that format_dsn writes, with their values; parameters that are None are not in the map. */
  function Emitted(params: map<string, string>, includeDbname: bool, database: string): seq<Pair> {
    var keywords := Keywords(params);
    if includeDbname then
      var dbname := if "database" in params && params["database"] != "" then params["database"] else database;
      Chosen(keywords, {"passfile", "password"}, params["dbname" := dbname])
    else Chosen(keywords, {"dbname"}, params)
  }

  function FormatDsn(params: map<string, string>, includeDbname: bool, database: string): string {
    Render(Emitted(params, includeDbname, database))
  }

  // ---------------------------------------------------------------- the round trip

  /** The plain space is the only whitespace. */
  predicate Plain(v: string) { v == "" || ((IsSpace(v[0]) ==> v[0] == ' ') && Plain(v[1..])) }

  predicate Clean(v: string) { v != "" && Plain(v) }

  predicate AllClean(pairs: seq<Pair>) { forall p <- pairs :: Clean(p.1) }

  /** The pairs as a map, on top of ret. */
  function Added(ret: map<string, string>, pairs: seq<Pair>): map<string, string>
    decreases |pairs|
  {
    if pairs == [] then ret else Added(ret[pairs[0].0 := pairs[0].1], pairs[1..])
  }

  predicate Names(pairs: seq<Pair>) { forall p <- pairs :: IsName(p.0) }

  predicate Distinct(pairs: seq<Pair>) { forall i, j :: 0 <= i < j < |pairs| ==> pairs[i].0 != pairs[j].0 }

  /** What follows a value: the end or a space. */
  predicate Ends(tail: string) { tail == "" || IsSpace(tail[0]) }

  lemma ReadChar(c: char, rest: string, ret: string)
    requires IsSpace(c) ==> c == ' '
    ensures ReadUnquoted(EscapeChar(c) + rest, ret) == ReadUnquoted(rest, ret + [c])
  {
    assert !IsSpace('\\') by {
      SpaceFacts();
    }
    assert (EscapeChar(c) + rest)[|EscapeChar(c)|..] == rest;
  }

  lemma EscapeFirst(v: string, tail: string)
    requires v != ""
    ensures Escape(v) + tail == EscapeChar(v[0]) + (Escape(v[1..]) + tail)
  {
  }

  lemma ReadFirst(v: string, tail: string, ret: string)
    requires v != "" && Plain(v)
    ensures ReadUnquoted(Escape(v) + tail, ret) == ReadUnquoted(Escape(v[1..]) + tail, ret + [v[0]])
  {
    EscapeFirst(v, tail);
    ReadChar(v[0], Escape(v[1..]) + tail, ret);
  }

  lemma AppendFirst(ret: string, v: string)
    requires v != ""
    ensures ret + [v[0]] + v[1..] == ret + v
  {
  }

  lemma {:induction false} ReadEscaped(v: string, tail: string, ret: string)
    requires Plain(v)
    ensures ReadUnquoted(Escape(v) + tail, ret) == ReadUnquoted(tail, ret + v)
  {
    if v == "" {
      assert Escape(v) + tail == tail && ret + v == ret;
    } else {
      ReadFirst(v, tail, ret);
      ReadEscaped(v[1..], tail, ret + [v[0]]);
      AppendFirst(ret, v);
    }
  }

  lemma {:induction false} NameOf(name: string, tail: string)
    requires (forall c <- name :: IsNameChar(c)) && (tail == "" || !IsNameChar(tail[0]))
    ensures NameLength(name + tail) == |name|
  {
    if name != "" {
      assert (name + tail)[1..] == name[1..] + tail;
      NameOf(name[1..], tail);
    } else {
      assert name + tail == tail;
    }
  }

  /** The name of a written parameter is recognised. */
  lemma MatchWritten(name: string, text: string)
    requires IsName(name) && text != "" && !IsSpace(text[0])
    ensures MatchParameter(name + ("=" + text)) == Some((name, text))
  {
    var s := name + ("=" + text);
    SpaceFacts();
    NameOf(name, "=" + text);
    assert s[|name|..] == "=" + text && ("=" + text)[1..] == text && s[..|name|] == name;
  }

  /** The first character of a written clean value is neither a space nor a quote. */
  lemma WrittenBegins(v: string, tail: string)
    requires Clean(v)
    ensures var text := Escape(v) + tail; text != "" && !IsSpace(text[0]) && text[0] != '\''
  {
    SpaceFacts();
    assert (Escape(v) + tail)[0] == Escape(v)[0];
  }

  /** One written parameter is read back. */
  lemma ReadWritten(name: string, v: string, tail: string)
    requires IsName(name) && Clean(v) && Ends(tail)
    ensures ReadParameter(name + ("=" + (Escape(v) + tail))) == Some((name, v, tail))
  {
    var text := Escape(v) + tail;
    WrittenBegins(v, tail);
    MatchWritten(name, text);
    ReadEscaped(v, tail, "");
    assert "" + v == v;
  }

  /** The parser passes over the first written parameter, and the separator. */
  lemma ParseFirst(name: string, v: string, tail: string, ret: map<string, string>)
    requires IsName(name) && Clean(v) && Ends(tail)
    ensures ParseOn(name + ("=" + (Escape(v) + tail)), ret) == ParseOn(tail, ret[name := v])
  {
    ReadWritten(name, v, tail);
    SpaceFacts();
    assert name[0] in name && (name + ("=" + (Escape(v) + tail)))[0] == name[0];
  }

  lemma ParseSpace(s: string, ret: map<string, string>)
    ensures ParseOn(" " + s, ret) == ParseOn(s, ret)
  {
    SpaceFacts();
    assert (" " + s)[1..] == s;
  }

  /** Clean values are read back. */
  lemma {:induction false} ParseRendered(pairs: seq<Pair>, ret: map<string, string>)
    requires Names(pairs) && AllClean(pairs)
    ensures ParseOn(Render(pairs), ret) == Some(Added(ret, pairs))
  {
    if pairs != [] {
      var (name, v) := pairs[0];
      assert pairs[0] in pairs;
      SpaceFacts();
      ParseFirst(name, v, RenderMore(pairs[1..]), ret);
      ParseRendered(pairs[1..], ret[name := v]);
      ParseSpace(Render(pairs[1..]), ret[name := v]);
    }
  }

  /** Made of characters that mean themselves and of escaped quotes, backslashes and spaces. */
  predicate Tokens(s: string) {
    s == "" ||
    if s[0] == '\\' then |s| > 1 && EscapeChar(s[1]) == s[..2] && Tokens(s[2..])
    else s[0] != '\'' && Tokens(s[1..])
  }

  lemma {:induction false} EscapeTokens(v: string, tail: string)
    requires Tokens(tail)
    ensures Tokens(Escape(v) + tail)
  {
    if v == "" {
      assert Escape(v) + tail == tail;
    } else {
      var rest := Escape(v[1..]) + tail;
      EscapeTokens(v[1..], tail);
      EscapeFirst(v, tail);
      assert (EscapeChar(v[0]) + rest)[|EscapeChar(v[0])|..] == rest;
      assert |EscapeChar(v[0])| == 2 ==> (EscapeChar(v[0]) + rest)[..2] == EscapeChar(v[0]);
    }
  }

  lemma {:induction false} NameTokens(name: string, tail: string)
    requires (forall c <- name :: IsNameChar(c)) && Tokens(tail)
    ensures Tokens(name + tail)
  {
    if name == "" {
      assert name + tail == tail;
    } else {
      NameTokens(name[1..], tail);
      assert name[0] in name && (name + tail)[1..] == name[1..] + tail;
    }
  }

  lemma {:induction false} RenderTokens(pairs: seq<Pair>)
    requires Names(pairs)
    ensures Tokens(Render(pairs)) && Tokens(RenderMore(pairs))
  {
    if pairs != [] {
      var (name, v) := pairs[0];
      var text := Escape(v) + RenderMore(pairs[1..]);
      RenderTokens(pairs[1..]);
      EscapeTokens(v, RenderMore(pairs[1..]));
      assert pairs[0] in pairs && ("=" + text)[1..] == text;
      NameTokens(name, "=" + text);
      assert (" " + Render(pairs))[1..] == Render(pairs);
    }
  }

  lemma {:induction false} SkipName(s: string)
    requires Tokens(s)
    ensures Tokens(s[NameLength(s)..])
  {
    if s != "" && IsNameChar(s[0]) {
      SkipName(s[1..]);
      assert s[1..][NameLength(s[1..])..] == s[NameLength(s)..];
    }
  }

  lemma {:induction false} SkipSpaces(s: string)
    requires Tokens(s)
    ensures Tokens(Stripped(s)) && (Stripped(s) == "" || !IsSpace(Stripped(s)[0]))
  {
    if s != "" && IsSpace(s[0]) {
      SpaceFacts();
      SkipSpaces(s[1..]);
    }
  }

  lemma MatchTokens(s: string)
    requires Tokens(s) && MatchParameter(s).Some?
    ensures var rest := MatchParameter(s).value.1; Tokens(rest) && (rest == "" || !IsSpace(rest[0]))
  {
    var afterName := s[NameLength(s)..];
    SkipName(s);
    SkipSpaces(afterName);
    SkipSpaces(Stripped(afterName)[1..]);
  }

  lemma {:induction false} PlainMore(v: string, c: char)
    requires Plain(v) && (IsSpace(c) ==> c == ' ')
    ensures Plain(v + [c])
  {
    if v != "" {
      PlainMore(v[1..], c);
      assert (v + [c])[1..] == v[1..] + [c];
    } else {
      assert (v + [c])[1..] == "";
    }
  }

  /** Whitespace gets into a value only escaped, and only a plain space is. */
  lemma {:induction false} ValueTokens(s: string, ret: string)
    requires Tokens(s) && Plain(ret)
    ensures var (v, rest) := ReadUnquoted(s, ret);
      Plain(v) && Tokens(rest) && |v| >= |ret| && (s != "" && !IsSpace(s[0]) ==> |v| > |ret|)
  {
    if s != "" && !IsSpace(s[0]) {
      var n := if s[0] != '\\' then 1 else 2;
      var c := s[n - 1];
      assert n == 2 ==> s[..2][1] == EscapeChar(s[1])[1] && (IsSpace(c) ==> c == ' ') by {
        SpaceFacts();
      }
      PlainMore(ret, c);
      ValueTokens(s[n..], ret + [c]);
    }
  }

  lemma WordTokens(text: string)
    requires Tokens(text) && text != "" && !IsSpace(text[0])
    ensures ReadValue(text).Some?
    ensures var (v, rest) := ReadValue(text).value; Clean(v) && Tokens(rest)
  {
    ValueTokens(text, "");
  }

  lemma ParameterTokens(s: string)
    requires Tokens(s) && ReadParameter(s).Some?
    ensures var (_, v, rest) := ReadParameter(s).value; Clean(v) && Tokens(rest)
  {
    MatchTokens(s);
    WordTokens(MatchParameter(s).value.1);
  }

  predicate CleanValues(m: map<string, string>) { forall k <- m :: Clean(m[k]) }

  /** Whatever is read from a written text is clean. */
  lemma {:induction false} ParseTokens(s: string, ret: map<string, string>)
    requires Tokens(s) && CleanValues(ret) && ParseOn(s, ret).Some?
    ensures CleanValues(ParseOn(s, ret).value)
    decreases |s|
  {
    if s != "" {
      if IsSpace(s[0]) {
        SpaceFacts();
        ParseTokens(s[1..], ret);
      } else {
        ParameterTokens(s);
        var (name, v, rest) := ReadParameter(s).value;
        ParseTokens(rest, ret[name := v]);
      }
    }
  }

  /** Later pairs with other names leave a key alone. */
  lemma {:induction false} AddedKeeps(ret: map<string, string>, pairs: seq<Pair>, k: string)
    requires k in ret && forall p <- pairs :: p.0 != k
    ensures k in Added(ret, pairs) && Added(ret, pairs)[k] == ret[k]
    decreases |pairs|
  {
    if pairs != [] {
      assert pairs[0] in pairs;
      AddedKeeps(ret[pairs[0].0 := pairs[0].1], pairs[1..], k);
    }
  }

  /** Pairs with distinct names are all in the map. */
  lemma {:induction false} AddedHolds(ret: map<string, string>, pairs: seq<Pair>, i: nat)
    requires Distinct(pairs) && i < |pairs|
    ensures pairs[i].0 in Added(ret, pairs) && Added(ret, pairs)[pairs[i].0] == pairs[i].1
    decreases |pairs|
  {
    var ret' := ret[pairs[0].0 := pairs[0].1];
    if i == 0 {
      forall p | p in pairs[1..]
        ensures p.0 != pairs[0].0
      {
        var j :| 0 <= j < |pairs[1..]| && pairs[1..][j] == p;
        assert pairs[j + 1] == p;
      }
      AddedKeeps(ret', pairs[1..], pairs[0].0);
    } else {
      assert Distinct(pairs[1..]) by {
        assert forall j :: 0 <= j < |pairs[1..]| ==> pairs[1..][j] == pairs[j + 1];
      }
      AddedHolds(ret', pairs[1..], i - 1);
    }
  }

  /** A written list of parameters is read back exactly if no value is empty or has a whitespace but the plain space. */
  lemma ReadsBackExactly(pairs: seq<Pair>)
    requires Names(pairs) && Distinct(pairs)
    ensures ParseOn(Render(pairs), map[]) == Some(Added(map[], pairs)) <==> AllClean(pairs)
  {
    if AllClean(pairs) {
      ParseRendered(pairs, map[]);
    } else if ParseOn(Render(pairs), map[]) == Some(Added(map[], pairs)) {
      RenderTokens(pairs);
      ParseTokens(Render(pairs), map[]);
      var i :| 0 <= i < |pairs| && !Clean(pairs[i].1);
      AddedHolds(map[], pairs, i);
      assert false;
    }
  }

  /** An empty value is not read back. */
  lemma EmptyValueLost()
    ensures ParseOn(Render([("host", ""), ("port", "1")]), map[]) != Some(map["host" := "", "port" := "1"])
  {
    var pairs := [("host", ""), ("port", "1")];
    assert pairs[0] in pairs && !Clean(pairs[0].1);
    assert Added(map[], pairs) == map["host" := "", "port" := "1"] by {
      assert pairs[1..] == [("port", "1")] && pairs[1..][1..] == [];
    }
    ReadsBackExactly(pairs);
  }

  lemma TabIsSpace()
    ensures IsSpace('\t')
  {
    assert SPACES[8] == (9, 13) && InRanges(9, 9) && InRanges(9, 10);
  }

  lemma OneAdded(name: string, v: string)
    ensures Added(map[], [(name, v)]) == map[name := v]
  {
    assert [(name, v)][1..] == [];
  }

  lemma OneNotClean(name: string, v: string)
    requires IsName(name) && !Clean(v)
    ensures ParseOn(Render([(name, v)]), map[]) != Some(map[name := v])
  {
    var pairs := [(name, v)];
    assert pairs[0] in pairs;
    OneAdded(name, v);
    ReadsBackExactly(pairs);
  }

  /** Nor is one with a tab. */
  lemma TabLost(v: string)
    requires '\t' in v
    ensures ParseOn(Render([("host", v)]), map[]) != Some(map["host" := v])
  {
    TabIsSpace();
    NotPlain(v, '\t');
    OneNotClean("host", v);
  }

  lemma {:induction false} NotPlain(v: string, c: char)
    requires c in v && IsSpace(c) && c != ' '
    ensures !Plain(v)
  {
    if v[0] != c {
      NotPlain(v[1..], c);
    }
  }

  predicate NameList(keywords: seq<string>) {
    (forall k <- keywords :: IsName(k)) && forall i, j :: 0 <= i < j < |keywords| ==> keywords[i] != keywords[j]
  }

  lemma {:induction false} ChosenNames(keywords: seq<string>, skip: set<string>, params: map<string, string>)
    requires NameList(keywords)
    ensures Names(Chosen(keywords, skip, params)) && Distinct(Chosen(keywords, skip, params))
    ensures forall p <- Chosen(keywords, skip, params) :: p.0 in keywords
  {
    if keywords != [] {
      var rest := keywords[1..];
      assert NameList(rest) by {
        assert forall i :: 0 <= i < |rest| ==> rest[i] == keywords[i + 1];
      }
      ChosenNames(rest, skip, params);
      assert keywords[0] in keywords && keywords[0] !in rest;
      var more := Chosen(rest, skip, params);
      assert forall p <- more :: p.0 != keywords[0];
      assert forall i :: 0 <= i < |more| ==> more[i] in more;
    }
  }

  /** Tells the keywords apart: the place of each in the list. */
  function Place(k: string): int {
    if |k| < 4 then -1
    else if |k| == 4 then if k[0] == 'u' then 1 else if k[0] == 'h' then 3 else 4
    else if |k| == 6 then if k[0] == 'd' then 0 else if k[3] == 'k' then 8 else 11
    else if |k| == 7 then if k[3] == 'm' then 5 else 7
    else if |k| == 8 then 2
    else if |k| == 10 then if k[0] == 'k' then 13 else 14
    else if |k| == 11 then if k[3] == 'p' then 9 else 10
    else if |k| == 14 then 6
    else if |k| == 15 then 15
    else 12
  }

  lemma Places(params: map<string, string>)
    ensures |Keywords(params)| == 16
    ensures forall i :: 0 <= i < 16 ==> Place(Keywords(params)[i]) == i
  {
    var keywords := Keywords(params);
    assert keywords[0] == "dbname" && keywords[1] == "user";
    assert keywords[2] == "passfile" || keywords[2] == "password";
    assert keywords[3] == "host" && keywords[4] == "port" && keywords[5] == "sslmode";
    assert keywords[6] == "sslcompression" && keywords[7] == "sslcert" && keywords[8] == "sslkey";
    assert keywords[9] == "sslpassword" && keywords[10] == "sslrootcert" && keywords[11] == "sslcrl";
    assert keywords[12] == "application_name" && keywords[13] == "krbsrvname";
    assert keywords[14] == "gssencmode" && keywords[15] == "channel_binding";
  }

  lemma WordsAfter()
    ensures forall k <- KEYWORDS_AFTER :: IsName(k)
  {
    assert forall i :: 0 <= i < |KEYWORDS_AFTER| ==> IsName(KEYWORDS_AFTER[i]);
  }

  lemma KeywordsAreDistinct(params: map<string, string>)
    ensures var keywords := Keywords(params); forall i, j :: 0 <= i < j < |keywords| ==> keywords[i] != keywords[j]
  {
    Places(params);
    var keywords := Keywords(params);
    forall i, j | 0 <= i < j < |keywords|
      ensures keywords[i] != keywords[j]
    {
      assert Place(keywords[i]) == i && Place(keywords[j]) == j;
    }
  }

  lemma KeywordsAreNames(params: map<string, string>)
    ensures NameList(Keywords(params))
  {
    var front := [Keywords(params)[0], Keywords(params)[1], Keywords(params)[2]];
    WordsAfter();
    KeywordsAreDistinct(params);
    assert forall k <- front :: IsName(k);
    assert Keywords(params) == front + KEYWORDS_AFTER;
  }

  /** What conninfo_parse reads from the text of format_dsn: the emitted parameters, exactly if all are clean. */
  lemma FormatDsnReadsBack(params: map<string, string>, includeDbname: bool, database: string)
    ensures
      var emitted := Emitted(params, includeDbname, database);
      ParseOn(FormatDsn(params, includeDbname, database), map[]) == Some(Added(map[], emitted)) <==> AllClean(emitted)
  {
    KeywordsAreNames(params);
    var keywords := Keywords(params);
    if includeDbname {
      var dbname := if "database" in params && params["database"] != "" then params["database"] else database;
      ChosenNames(keywords, {"passfile", "password"}, params["dbname" := dbname]);
    } else {
      ChosenNames(keywords, {"dbname"}, params);
    }
    ReadsBackExactly(Emitted(params, includeDbname, database));
  }

  // ---------------------------------------------------------------- what is emitted

  lemma {:induction false} ChosenExactly(keywords: seq<string>, skip: set<string>, params: map<string, string>, p: Pair)
    ensures p in Chosen(keywords, skip, params) <==>
      p.0 in keywords && p.0 !in skip && p.0 in params && p.1 == params[p.0]
  {
    if keywords != [] {
      ChosenExactly(keywords[1..], skip, params, p);
      assert keywords == [keywords[0]] + keywords[1..];
    }
  }

  lemma {:induction false} AddedOnly(ret: map<string, string>, pairs: seq<Pair>, k: string)
    requires k in Added(ret, pairs)
    ensures k in ret || exists p <- pairs :: p.0 == k
    decreases |pairs|
  {
    if pairs != [] {
      AddedOnly(ret[pairs[0].0 := pairs[0].1], pairs[1..], k);
      assert pairs[0] in pairs && forall p <- pairs[1..] :: p in pairs;
    }
  }

  /** The map of chosen keywords. */
  lemma AddedExactly(keywords: seq<string>, skip: set<string>, params: map<string, string>, k: string)
    requires NameList(keywords)
    ensures
      var m := Added(map[], Chosen(keywords, skip, params));
      && (k in m <==> k in keywords && k !in skip && k in params)
      && (k in m ==> m[k] == params[k])
  {
    var pairs := Chosen(keywords, skip, params);
    ChosenNames(keywords, skip, params);
    if k in keywords && k !in skip && k in params {
      ChosenExactly(keywords, skip, params, (k, params[k]));
      var i :| 0 <= i < |pairs| && pairs[i] == (k, params[k]);
      AddedHolds(map[], pairs, i);
    }
    if k in Added(map[], pairs) {
      AddedOnly(map[], pairs, k);
      var p :| p in pairs && p.0 == k;
      ChosenExactly(keywords, skip, params, p);
    }
  }

  /** The value of a parameter that is there and not empty. */
  predicate NotEmpty(params: map<string, string>, k: string) { k in params && params[k] != "" }

  /** Which keywords there are besides those that are always in the list. */
  lemma SpecialKeywords(params: map<string, string>)
    ensures var keywords := Keywords(params);
      && "dbname" in keywords && "user" in keywords && (forall k <- KEYWORDS_AFTER :: k in keywords)
      && ("passfile" in keywords <==> NotEmpty(params, "passfile"))
      && ("password" in keywords <==> !NotEmpty(params, "passfile"))
      && (forall k <- keywords :: k in {"dbname", "user", "passfile", "password"} || k in KEYWORDS_AFTER)
  {
    var keywords := Keywords(params);
    Places(params);
    assert keywords[3..] == KEYWORDS_AFTER;
    assert forall i :: 3 <= i < 16 ==> keywords[i] in KEYWORDS_AFTER;
    assert keywords[0] == "dbname" && keywords[1] == "user";
    assert Place("passfile") == 2 && Place("password") == 2 && "passfile"[4] != "password"[4];
    forall k | k in KEYWORDS_AFTER
      ensures k in keywords
    {
      var i :| 0 <= i < |KEYWORDS_AFTER| && KEYWORDS_AFTER[i] == k;
      assert keywords[i + 3] == k;
    }
    assert keywords[2] in keywords;
  }

  /**
    What format_dsn emits, as conninfo_parse reads it: with a database name no password and no password file, and the
    name is the member's or the default one; without one the password file if there is one, else the password; and
    always what else there is.
   */
  lemma EmittedExactly(params: map<string, string>, includeDbname: bool, database: string)
    ensures
      var m := Added(map[], Emitted(params, includeDbname, database));
      && ("dbname" in m <==> includeDbname)
      && (includeDbname ==> m["dbname"] == if NotEmpty(params, "database") then params["database"] else database)
      && ("passfile" in m <==> !includeDbname && NotEmpty(params, "passfile"))
      && ("password" in m <==> !includeDbname && "password" in params && !NotEmpty(params, "passfile"))
      && ("user" in m <==> "user" in params)
      && (forall k <- KEYWORDS_AFTER :: k in m <==> k in params)
      && (forall k <- m :: k in {"dbname", "user", "passfile", "password"} || k in KEYWORDS_AFTER)
      && (forall k <- m :: k != "dbname" ==> k in params && m[k] == params[k])
  {
    var keywords := Keywords(params);
    KeywordsAreNames(params);
    SpecialKeywords(params);
    Apart(params);
    var dbname := if NotEmpty(params, "database") then params["database"] else database;
    forall k
      ensures var m := Added(map[], Emitted(params, includeDbname, database));
        && (k in m <==>
              k in keywords &&
              if includeDbname then k !in {"passfile", "password"} && (k in params || k == "dbname")
              else k != "dbname" && k in params)
        && (k in m ==> m[k] == if includeDbname && k == "dbname" then dbname else params[k])
    {
      if includeDbname {
        AddedExactly(keywords, {"passfile", "password"}, params["dbname" := dbname], k);
      } else {
        AddedExactly(keywords, {"dbname"}, params, k);
      }
    }
  }

  /** The names that have a part of their own. */
  lemma Apart(params: map<string, string>)
    ensures "dbname" != "user" && "dbname" != "passfile" && "dbname" != "password"
    ensures "user" != "passfile" && "user" != "password"
    ensures forall k <- KEYWORDS_AFTER :: k !in {"dbname", "user", "passfile", "password"}
  {
    Places(params);
    assert Keywords(params)[3..] == KEYWORDS_AFTER;
    assert Place("dbname") == 0 && Place("user") == 1 && Place("passfile") == 2 && Place("password") == 2;
    forall k | k in KEYWORDS_AFTER
      ensures Place(k) >= 3
    {
      var i :| 0 <= i < |KEYWORDS_AFTER| && KEYWORDS_AFTER[i] == k;
      assert Keywords(params)[i + 3] == k;
    }
  }

  // ---------------------------------------------------------------- other texts

  function QuotedChar(c: char): string {
    if c == '\'' || c == '\\' then ['\\', c] else [c]
  }

  function InQuotes(v: string): string {
    if v == "" then "" else QuotedChar(v[0]) + InQuotes(v[1..])
  }

  /** One parameter as somebody may write it: with spaces around it and around the sign, in quotes or not. */
  datatype Piece = Piece(lead: string, name: string, before: string, after: string, quoted: bool, value: string) {
    function ValueText(): string { if quoted then "'" + (InQuotes(value) + "'") else Escape(value) }

    function Followed(tail: string): string {
      lead + (name + (before + ("=" + (after + (ValueText() + tail)))))
    }

    /** A value without quotes ends at a space, or at the end. */
    predicate Allowed(tail: string) {
      && AllSpaces(lead) && AllSpaces(before) && AllSpaces(after) && IsName(name)
      && (quoted || (Clean(value) && Ends(tail)))
    }
  }

  function Text(pieces: seq<Piece>, tail: string): string {
    if pieces == [] then tail else pieces[0].Followed(Text(pieces[1..], tail))
  }

  predicate AllowedAll(pieces: seq<Piece>, tail: string) {
    pieces == [] || (pieces[0].Allowed(Text(pieces[1..], tail)) && AllowedAll(pieces[1..], tail))
  }

  lemma ReadQuotedChar(c: char, rest: string, ret: string)
    ensures ReadQuoted(QuotedChar(c) + rest, ret) == ReadQuoted(rest, ret + [c])
  {
    assert (QuotedChar(c) + rest)[|QuotedChar(c)|..] == rest;
  }

  lemma QuotedFirst(v: string, tail: string)
    requires v != ""
    ensures InQuotes(v) + tail == QuotedChar(v[0]) + (InQuotes(v[1..]) + tail)
  {
  }

  lemma {:induction false} ReadInQuotes(v: string, tail: string, ret: string)
    ensures ReadQuoted(InQuotes(v) + tail, ret) == ReadQuoted(tail, ret + v)
  {
    if v == "" {
      assert InQuotes(v) + tail == tail && ret + v == ret;
    } else {
      QuotedFirst(v, tail);
      ReadQuotedChar(v[0], InQuotes(v[1..]) + tail, ret);
      ReadInQuotes(v[1..], tail, ret + [v[0]]);
      AppendFirst(ret, v);
    }
  }

  lemma ReadQuotedValue(v: string, tail: string)
    ensures ReadValue("'" + (InQuotes(v) + ("'" + tail))) == Some((v, tail))
  {
    var text := "'" + (InQuotes(v) + ("'" + tail));
    assert text[1..] == InQuotes(v) + ("'" + tail);
    ReadInQuotes(v, "'" + tail, "");
    assert ("'" + tail)[1..] == tail && "" + v == v;
  }

  lemma ReadPlainValue(v: string, tail: string)
    requires Clean(v) && Ends(tail)
    ensures ReadValue(Escape(v) + tail) == Some((v, tail))
  {
    WrittenBegins(v, tail);
    ReadEscaped(v, tail, "");
    assert "" + v == v;
  }

  lemma ReadPieceValue(p: Piece, tail: string)
    requires p.Allowed(tail)
    ensures var text := p.ValueText() + tail;
      text != "" && !IsSpace(text[0]) && ReadValue(text) == Some((p.value, tail))
  {
    SpaceFacts();
    if p.quoted {
      ReadQuotedValue(p.value, tail);
      assert p.ValueText() + tail == "'" + (InQuotes(p.value) + ("'" + tail));
    } else {
      WrittenBegins(p.value, tail);
      ReadPlainValue(p.value, tail);
    }
  }

  lemma MatchSpaced(name: string, before: string, after: string, text: string)
    requires IsName(name) && AllSpaces(before) && AllSpaces(after) && (text == "" || !IsSpace(text[0]))
    ensures MatchParameter(name + (before + ("=" + (after + text)))) == Some((name, text))
  {
    var s := name + (before + ("=" + (after + text)));
    SpaceFacts();
    assert before != "" ==> IsSpace(before[0]);
    NameOf(name, before + ("=" + (after + text)));
    assert s[|name|..] == before + ("=" + (after + text)) && s[..|name|] == name;
    StripLead(before, "=" + (after + text));
    assert ("=" + (after + text))[1..] == after + text;
    if text == "" {
      assert after + text == after;
    } else {
      StripLead(after, text);
    }
  }

  lemma {:induction false} ParseSkips(lead: string, s: string, ret: map<string, string>)
    requires AllSpaces(lead)
    ensures ParseOn(lead + s, ret) == ParseOn(s, ret)
  {
    if lead == "" {
      assert lead + s == s;
    } else {
      assert (lead + s)[1..] == lead[1..] + s;
      ParseSkips(lead[1..], s, ret);
    }
  }

  lemma ParsePiece(p: Piece, tail: string, ret: map<string, string>)
    requires p.Allowed(tail)
    ensures ParseOn(p.Followed(tail), ret) == ParseOn(tail, ret[p.name := p.value])
  {
    var text := p.ValueText() + tail;
    var s := p.name + (p.before + ("=" + (p.after + text)));
    ParseSkips(p.lead, s, ret);
    ReadPieceValue(p, tail);
    MatchSpaced(p.name, p.before, p.after, text);
    SpaceFacts();
    assert p.name[0] in p.name && s[0] == p.name[0];
  }

  function PairsOf(pieces: seq<Piece>): seq<Pair> {
    if pieces == [] then [] else [(pieces[0].name, pieces[0].value)] + PairsOf(pieces[1..])
  }

  /** However the parameters are written, they are read, and the text behind them as if it stood alone. */
  lemma {:induction false} ParsePieces(pieces: seq<Piece>, tail: string, ret: map<string, string>)
    requires AllowedAll(pieces, tail)
    ensures ParseOn(Text(pieces, tail), ret) == ParseOn(tail, Added(ret, PairsOf(pieces)))
  {
    if pieces != [] {
      ParsePiece(pieces[0], Text(pieces[1..], tail), ret);
      ParsePieces(pieces[1..], tail, ret[pieces[0].name := pieces[0].value]);
    }
  }

  /** What no parameter begins with: no name, a name without the sign, no value, or a quote that does not end. */
  datatype Fault = NoName(s: string) | NoSign(name: string, spaces: string, s: string)
                 | NoValue(name: string, before: string, after: string)
                 | NoEnd(name: string, before: string, after: string, value: string) {
    predicate Wrong() {
      match this
      case NoName(s) => s != "" && !IsSpace(s[0]) && !IsNameChar(s[0])
      case NoSign(name, spaces, s) =>
        IsName(name) && AllSpaces(spaces) && (s == "" || (!IsSpace(s[0]) && s[0] != '=')) &&
        (spaces == "" && s != "" ==> !IsNameChar(s[0]))
      case NoValue(name, before, after) => IsName(name) && AllSpaces(before) && AllSpaces(after)
      case NoEnd(name, before, after, _) => IsName(name) && AllSpaces(before) && AllSpaces(after)
    }

    function Shown(): string {
      match this
      case NoName(s) => s
      case NoSign(name, spaces, s) => name + (spaces + s)
      case NoValue(name, before, after) => name + (before + ("=" + (after + "")))
      case NoEnd(name, before, after, value) => name + (before + ("=" + (after + ("'" + InQuotes(value)))))
    }
  }

  lemma NoSignNoMatch(name: string, spaces: string, s: string)
    requires NoSign(name, spaces, s).Wrong()
    ensures MatchParameter(name + (spaces + s)).None?
  {
    var text := name + (spaces + s);
    SpaceFacts();
    assert spaces != "" ==> IsSpace(spaces[0]);
    assert spaces == "" ==> spaces + s == s;
    NameOf(name, spaces + s);
    assert text[|name|..] == spaces + s;
    if s == "" {
      assert spaces + s == spaces;
    } else {
      StripLead(spaces, s);
    }
  }

  /** A text with such a fault is refused, whatever has been read before. */
  lemma FaultyRefused(f: Fault, ret: map<string, string>)
    requires f.Wrong()
    ensures ParseOn(f.Shown(), ret).None?
  {
    SpaceFacts();
    match f
    case NoName(s) =>
      assert NameLength(s) == 0;
    case NoSign(name, spaces, s) =>
      assert name[0] in name && f.Shown()[0] == name[0];
      NoSignNoMatch(name, spaces, s);
    case NoValue(name, before, after) =>
      assert name[0] in name && f.Shown()[0] == name[0];
      MatchSpaced(name, before, after, "");
    case NoEnd(name, before, after, value) =>
      var text := "'" + InQuotes(value);
      assert name[0] in name && f.Shown()[0] == name[0];
      MatchSpaced(name, before, after, text);
      assert text[1..] == InQuotes(value) + "";
      ReadInQuotes(value, "", "");
  }

  /** The parser accepts what is made of parameters with spaces behind them, and refuses what has a fault. */
  lemma ParsesExactlyPieces(pieces: seq<Piece>, spaces: string, f: Fault)
    ensures AllSpaces(spaces) && AllowedAll(pieces, spaces) ==>
      ParseOn(Text(pieces, spaces), map[]) == Some(Added(map[], PairsOf(pieces)))
    ensures f.Wrong() && AllowedAll(pieces, f.Shown()) ==> ParseOn(Text(pieces, f.Shown()), map[]).None?
  {
    if AllSpaces(spaces) && AllowedAll(pieces, spaces) {
      ParsePieces(pieces, spaces, map[]);
      ParseSkips(spaces, "", Added(map[], PairsOf(pieces)));
      assert spaces + "" == spaces;
    }
    if f.Wrong() && AllowedAll(pieces, f.Shown()) {
      ParsePieces(pieces, f.Shown(), map[]);
      FaultyRefused(f, Added(map[], PairsOf(pieces)));
    }
  }
}
