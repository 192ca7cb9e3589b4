/**
  iter_response_objects of patroni/utils.py: a stream of JSON messages that arrives in arbitrary chunks.
  The decoder is a parameter: for a text it gives the first message and its length, or None for text that is malformed
  or incomplete.
 */
module Streaming {
  import opened Wrappers
  import opened Utf8

  /** What read_chunked yields. */
  datatype Chunk = Text(text: string) | Raw(bytes: Bytes)

  /** The text of one chunk; None where its decoding raises an exception. */
  function TextOf(chunk: Chunk): Option<string> {
    match chunk
    case Text(t) => Some(t)
    case Raw(bytes) => Decode(bytes)
  }

  predicate AllText(chunks: seq<Chunk>) { forall c <- chunks :: TextOf(c).Some? }

  type Decoder<!M> = string -> Option<(M, nat)>

  /** A decoded message takes up some text. */
  ghost predicate Progresses<M>(decode: Decoder<M>) {
    forall t :: decode(t).Some? ==> 0 < decode(t).value.1 <= |t|
  }

  /** Text that decodes still does, and to the same message, when more text follows. */
  ghost predicate SelfDelimiting<M>(decode: Decoder<M>) {
    forall t, u :: decode(t).Some? ==> decode(t + u) == decode(t)
  }

  /** The same of text that begins with a brace: a JSON object ends with its closing one (section 4 of RFC 8259), while
      a bare number goes on for as long as there are digits. */
  ghost predicate StableObjects<M>(decode: Decoder<M>) {
    forall t, u :: t != "" && t[0] == '{' && decode(t).Some? ==> decode(t + u) == decode(t)
  }

  /** The whitespace of JSON. */
  predicate IsBlank(c: char) { c == ' ' || c == '\t' || c == '\n' || c == '\r' }

  function SkipBlanks(s: string): (t: string)
    ensures |t| <= |s| && (t == "" || !IsBlank(t[0]))
  {
    if s != "" && IsBlank(s[0]) then SkipBlanks(s[1..]) else s
  }

  /** The messages of a text that is read in one piece. */
  ghost function Messages<M>(decode: Decoder<M>, s: string): seq<M>
    requires Progresses(decode)
    decreases |s|
  {
    var t := SkipBlanks(s);
    if t == "" || decode(t).None? then []
    else [decode(t).value.0] + Messages(decode, t[decode(t).value.1..])
  }

  /** What is left of the text. */
  ghost function Rest<M>(decode: Decoder<M>, s: string): string
    requires Progresses(decode)
    decreases |s|
  {
    var t := SkipBlanks(s);
    if t == "" || decode(t).None? then t else Rest(decode, t[decode(t).value.1..])
  }

  /** Every message of the text begins with a brace, and so does what is left. */
  ghost predicate AllObjects<M>(decode: Decoder<M>, s: string)
    requires Progresses(decode)
    decreases |s|
  {
    var t := SkipBlanks(s);
    t == "" || (t[0] == '{' && (decode(t).Some? ==> AllObjects(decode, t[decode(t).value.1..])))
  }

  /** As soon as the beginning of t decodes, it does so to the first message of t. */
  ghost predicate StableAt<M>(decode: Decoder<M>, t: string) {
    forall k, l {:trigger t[..k], t[..l]} ::
      0 <= k <= l <= |t| && decode(t[..k]).Some? ==> decode(t[..l]) == decode(t[..k])
  }

  /** This is so at every message of the text: what streaming needs of decoder and text. */
  ghost predicate CutStable<M>(decode: Decoder<M>, s: string)
    requires Progresses(decode)
    decreases |s|
  {
    var t := SkipBlanks(s);
    t == "" || (StableAt(decode, t) && (decode(t).Some? ==> CutStable(decode, t[decode(t).value.1..])))
  }

  function Concat(chunks: seq<Chunk>): string
    requires AllText(chunks)
  {
    if chunks == [] then "" else Concat(chunks[..|chunks| - 1]) + TextOf(chunks[|chunks| - 1]).value
  }

  lemma {:induction false} SkipMore(s: string, u: string)
    ensures SkipBlanks(s + u) == if SkipBlanks(s) == "" then SkipBlanks(u) else SkipBlanks(s) + u
    ensures SkipBlanks(s) != "" ==> SkipBlanks(SkipBlanks(s) + u) == SkipBlanks(s) + u
  {
    if s == "" {
      assert s + u == u;
    } else if IsBlank(s[0]) {
      assert (s + u)[1..] == s[1..] + u;
      SkipMore(s[1..], u);
    }
  }

  /** Leading whitespace does not matter. */
  lemma BlanksDoNotMatter<M>(decode: Decoder<M>, s: string)
    requires Progresses(decode)
    ensures Messages(decode, SkipBlanks(s)) == Messages(decode, s)
    ensures Rest(decode, SkipBlanks(s)) == Rest(decode, s)
    ensures CutStable(decode, SkipBlanks(s)) == CutStable(decode, s)
  {}

  lemma FirstMessage<M>(decode: Decoder<M>, t: string)
    requires Progresses(decode) && t != "" && !IsBlank(t[0]) && decode(t).Some?
    ensures
      var (m, n) := decode(t).value;
      && Messages(decode, t) == [m] + Messages(decode, t[n..]) && Rest(decode, t) == Rest(decode, t[n..])
      && (CutStable(decode, t) <==> StableAt(decode, t) && CutStable(decode, t[n..]))
  {}

  lemma NoMessage<M>(decode: Decoder<M>, t: string)
    requires Progresses(decode) && (t == "" || (!IsBlank(t[0]) && decode(t).None?))
    ensures Messages(decode, t) == [] && Rest(decode, t) == t
    ensures CutStable(decode, t) <==> t == "" || StableAt(decode, t)
  {}

  lemma StableBeginning<M>(decode: Decoder<M>, t: string, u: string)
    requires StableAt(decode, t + u)
    ensures StableAt(decode, t) && (decode(t).Some? ==> decode(t + u) == decode(t))
  {
    assert forall k :: 0 <= k <= |t| ==> (t + u)[..k] == t[..k];
    assert (t + u)[..|t|] == t && (t + u)[..|t + u|] == t + u;
  }

  lemma Regroup<M>(m: M, a: seq<M>, b: seq<M>)
    ensures [m] + (a + b) == [m] + a + b
  {}

  /** Reading on: the messages of a longer text are those of its beginning and those of what was left of it together
      with the rest. */
  lemma {:induction false} ReadOn<M>(decode: Decoder<M>, s: string, u: string)
    requires Progresses(decode) && CutStable(decode, s + u)
    ensures Messages(decode, s + u) == Messages(decode, s) + Messages(decode, Rest(decode, s) + u)
    ensures Rest(decode, s + u) == Rest(decode, Rest(decode, s) + u)
    ensures CutStable(decode, s) && CutStable(decode, Rest(decode, s) + u)
    decreases |s|
  {
    var t := SkipBlanks(s);
    SkipMore(s, u);
    BlanksDoNotMatter(decode, s);
    BlanksDoNotMatter(decode, s + u);
    if t == "" {
      NoMessage(decode, t);
      BlanksDoNotMatter(decode, u);
      assert t + u == u;
    } else {
      ReadOnFrom(decode, t, u);
    }
  }

  lemma {:induction false} ReadOnFrom<M>(decode: Decoder<M>, t: string, u: string)
    requires Progresses(decode) && CutStable(decode, t + u) && t != "" && !IsBlank(t[0])
    ensures Messages(decode, t + u) == Messages(decode, t) + Messages(decode, Rest(decode, t) + u)
    ensures Rest(decode, t + u) == Rest(decode, Rest(decode, t) + u)
    ensures CutStable(decode, t) && CutStable(decode, Rest(decode, t) + u)
    decreases |t|, 0
  {
    StableBeginning(decode, t, u);
    if decode(t).None? {
      NoMessage(decode, t);
    } else {
      var (m, n) := decode(t).value;
      FirstMessage(decode, t);
      FirstMessage(decode, t + u);
      assert (t + u)[n..] == t[n..] + u;
      ReadOn(decode, t[n..], u);
      Regroup(m, Messages(decode, t[n..]), Messages(decode, Rest(decode, t[n..]) + u));
    }
  }

  lemma ObjectsAreStable<M>(decode: Decoder<M>, t: string)
    requires Progresses(decode) && StableObjects(decode) && t != "" && t[0] == '{'
    ensures StableAt(decode, t)
  {
    forall k, l | 0 <= k <= l <= |t| && decode(t[..k]).Some?
      ensures decode(t[..l]) == decode(t[..k])
    {
      assert t[..k] + t[k..l] == t[..l];
    }
  }

  /** A text of objects may be cut anywhere. */
  lemma {:induction false} ObjectsCutStable<M>(decode: Decoder<M>, s: string)
    requires Progresses(decode) && StableObjects(decode) && AllObjects(decode, s)
    ensures CutStable(decode, s)
    decreases |s|
  {
    var t := SkipBlanks(s);
    if t != "" {
      ObjectsAreStable(decode, t);
      if decode(t).Some? {
        ObjectsCutStable(decode, t[decode(t).value.1..]);
      }
    }
  }

  /** With a decoder that is stable on all texts every text may. */
  lemma {:induction false} SelfDelimitingCutStable<M>(decode: Decoder<M>, s: string)
    requires Progresses(decode) && SelfDelimiting(decode)
    ensures CutStable(decode, s)
    decreases |s|
  {
    var t := SkipBlanks(s);
    if t != "" {
      forall k, l | 0 <= k <= l <= |t| && decode(t[..k]).Some?
        ensures decode(t[..l]) == decode(t[..k])
      {
        assert t[..k] + t[k..l] == t[..l];
      }
      if decode(t).Some? {
        SelfDelimitingCutStable(decode, t[decode(t).value.1..]);
      }
    }
  }

  method SkipFrom(chunk: string, start: nat) returns (idx: nat)
    requires start <= |chunk|
    ensures start <= idx <= |chunk| && chunk[idx..] == SkipBlanks(chunk[start..])
  {
    idx := start;
    while idx < |chunk| && IsBlank(chunk[idx])
      invariant start <= idx <= |chunk| && SkipBlanks(chunk[idx..]) == SkipBlanks(chunk[start..])
    {
      idx := idx + 1;
    }
  }

  /** The text of the chunks before the first one that does not decode. */
  function TextRead(chunks: seq<Chunk>): string {
    if AllText(chunks) then Concat(chunks) else TextRead(chunks[..|chunks| - 1])
  }

  lemma {:induction false} TextReadUpTo(chunks: seq<Chunk>, i: nat)
    requires i < |chunks| && AllText(chunks[..i]) && TextOf(chunks[i]).None?
    ensures !AllText(chunks) && TextRead(chunks) == Concat(chunks[..i])
  {
    assert chunks[i] in chunks;
    var before := chunks[..|chunks| - 1];
    if i < |before| {
      assert before[..i] == chunks[..i];
      TextReadUpTo(before, i);
    } else {
      assert before == chunks[..i];
    }
  }

  lemma {:induction false} ConcatBegins(chunks: seq<Chunk>, i: nat) returns (u: string)
    requires i <= |chunks| && AllText(chunks)
    ensures AllText(chunks[..i]) && Concat(chunks) == Concat(chunks[..i]) + u
  {
    if i == |chunks| {
      assert chunks[..i] == chunks;
      u := "";
    } else {
      var before := chunks[..|chunks| - 1];
      assert before[..i] == chunks[..i];
      u := ConcatBegins(before, i);
      u := u + TextOf(chunks[|chunks| - 1]).value;
    }
  }

  /** The text of some chunks is the beginning of what is read. */
  lemma {:induction false} ReadBegins(chunks: seq<Chunk>, i: nat) returns (u: string)
    requires i <= |chunks| && AllText(chunks[..i])
    ensures TextRead(chunks) == Concat(chunks[..i]) + u
  {
    if AllText(chunks) {
      u := ConcatBegins(chunks, i);
    } else {
      assert i < |chunks| by {
        assert chunks[..|chunks|] == chunks;
      }
      assert chunks[..|chunks| - 1][..i] == chunks[..i];
      u := ReadBegins(chunks[..|chunks| - 1], i);
    }
  }

  /**
    Streaming raises an exception exactly if a chunk does not decode by itself, and for every way of cutting it yields
    the messages of the whole text before that chunk.
   */
  method IterResponseObjects<M>(chunks: seq<Chunk>, decode: Decoder<M>) returns (messages: seq<M>, raised: bool)
    requires Progresses(decode) && CutStable(decode, TextRead(chunks))
    ensures raised <==> !AllText(chunks)
    ensures messages == Messages(decode, TextRead(chunks))
  {
    messages := [];
    var prev := "";
    for i := 0 to |chunks|
      invariant AllText(chunks[..i])
      invariant messages == Messages(decode, Concat(chunks[..i]))
      invariant prev == Rest(decode, Concat(chunks[..i]))
    {
      var text := TextOf(chunks[i]);
      if text.None? {
        TextReadUpTo(chunks, i);
        return messages, true;
      }
      assert chunks[..i + 1][..i] == chunks[..i];
      ghost var u := ReadBegins(chunks, i + 1);
      ReadOn(decode, Concat(chunks[..i + 1]), u);
      ReadOn(decode, Concat(chunks[..i]), text.value);
      var yielded;
      yielded, prev := DecodeChunk(prev + text.value, decode);
      messages := messages + yielded;
    }
    assert chunks[..|chunks|] == chunks;
    return messages, false;
  }

  // ---------------------------------------------------------------- streams of bytes

  function Chunks(stream: seq<Bytes>): (chunks: seq<Chunk>)
    ensures |chunks| == |stream| && forall i :: 0 <= i < |stream| ==> chunks[i] == Raw(stream[i])
  {
    seq(|stream|, i requires 0 <= i < |stream| => Raw(stream[i]))
  }

  function Joined(stream: seq<Bytes>): Bytes {
    if stream == [] then [] else Joined(stream[..|stream| - 1]) + stream[|stream| - 1]
  }

  /** Chunks that decode by themselves join to bytes that decode to the text of all. */
  lemma {:induction false} JoinedDecodes(stream: seq<Bytes>)
    requires AllText(Chunks(stream))
    ensures Decode(Joined(stream)) == Some(Concat(Chunks(stream)))
  {
    if stream != [] {
      var before, last := stream[..|stream| - 1], stream[|stream| - 1];
      assert Chunks(before) == Chunks(stream)[..|stream| - 1];
      assert TextOf(Chunks(stream)[|stream| - 1]).Some?;
      JoinedDecodes(before);
      DecodeJoined(Joined(before), last);
    }
  }

  /** The chunk begins within a character. */
  predicate BeginsWithin(bytes: Bytes) { bytes != [] && IsContinuation(bytes[0]) }

  /** A stream of well-formed bytes is read through exactly if no chunk begins within a character. */
  lemma {:induction false} ReadThroughExactly(stream: seq<Bytes>)
    requires Decode(Joined(stream)).Some?
    ensures AllText(Chunks(stream)) <==> forall c <- stream :: !BeginsWithin(c)
  {
    forall i | 0 <= i < |stream| && BeginsWithin(stream[i])
      ensures TextOf(Chunks(stream)[i]).None?
    {
      DecodeBegins(stream[i]);
    }
    if forall c <- stream :: !BeginsWithin(c) {
      AllDecode(stream);
    }
  }

  lemma {:induction false} AllDecode(stream: seq<Bytes>)
    requires Decode(Joined(stream)).Some? && forall c <- stream :: !BeginsWithin(c)
    ensures AllText(Chunks(stream))
  {
    if stream != [] {
      var before, last := stream[..|stream| - 1], stream[|stream| - 1];
      var all, head := Joined(stream), Joined(stream[..|stream| - 1]);
      assert last in stream && all[..|head|] == head;
      if last == [] {
        assert all == head;
      } else {
        assert all[|head|] == last[0];
        CutExactly(all, |head|);
      }
      DecodeJoined(head, last);
      AllDecode(before);
      assert Chunks(before) == Chunks(stream)[..|stream| - 1];
      forall c | c in Chunks(stream)
        ensures TextOf(c).Some?
      {
        assert c in Chunks(before) || c == Raw(last);
      }
    }
  }

  /** A well-formed stream of objects gives those of its whole text, unless a chunk begins within a character. */
  method ReadStream<M>(stream: seq<Bytes>, decode: Decoder<M>) returns (messages: seq<M>, raised: bool)
    requires Progresses(decode) && StableObjects(decode)
    requires Decode(Joined(stream)).Some? && AllObjects(decode, Decode(Joined(stream)).value)
    ensures raised <==> exists c <- stream :: BeginsWithin(c)
    ensures !raised ==> messages == Messages(decode, Decode(Joined(stream)).value)
  {
    ghost var text := Decode(Joined(stream)).value;
    ObjectsCutStable(decode, text);
    ReadThroughExactly(stream);
    ghost var rest := ReadOfStream(stream);
    ReadOn(decode, TextRead(Chunks(stream)), rest);
    messages, raised := IterResponseObjects(Chunks(stream), decode);
    if !raised {
      JoinedDecodes(stream);
    }
  }

  lemma {:induction false} JoinedBegins(stream: seq<Bytes>, i: nat) returns (t: Bytes)
    requires i <= |stream|
    ensures Joined(stream) == Joined(stream[..i]) + t
  {
    if i == |stream| {
      assert stream[..i] == stream;
      t := [];
    } else {
      assert stream[..|stream| - 1][..i] == stream[..i];
      t := JoinedBegins(stream[..|stream| - 1], i);
      t := t + stream[|stream| - 1];
    }
  }

  lemma {:induction false} FirstBad(chunks: seq<Chunk>) returns (i: nat)
    requires !AllText(chunks)
    ensures i < |chunks| && AllText(chunks[..i]) && TextOf(chunks[i]).None?
  {
    var before := chunks[..|chunks| - 1];
    if AllText(before) {
      i := |chunks| - 1;
      assert chunks == before + [chunks[i]];
    } else {
      i := FirstBad(before);
      assert before[..i] == chunks[..i];
    }
  }

  /** What is read is the beginning of the whole text. */
  lemma ReadOfStream(stream: seq<Bytes>) returns (rest: string)
    requires Decode(Joined(stream)).Some?
    ensures Decode(Joined(stream)).value == TextRead(Chunks(stream)) + rest
  {
    var chunks := Chunks(stream);
    if AllText(chunks) {
      JoinedDecodes(stream);
      rest := "";
    } else {
      var i := FirstBad(chunks);
      TextReadUpTo(chunks, i);
      assert chunks[..i] == Chunks(stream[..i]);
      JoinedDecodes(stream[..i]);
      var t := JoinedBegins(stream, i);
      DecodeJoined(Joined(stream[..i]), t);
      rest := Decode(t).value;
    }
  }

  /** One round of the inner loop: the message at idx and where the next one begins, or the end of the loop. */
  method DecodeAt<M>(chunk: string, idx: nat, decode: Decoder<M>) returns (next: Option<(M, nat)>)
    requires Progresses(decode) && idx < |chunk| && !IsBlank(chunk[idx])
    ensures next.None? ==> Messages(decode, chunk[idx..]) == [] && Rest(decode, chunk[idx..]) == chunk[idx..]
    ensures next.Some? ==>
      var (m, i) := next.value;
      && idx < i <= |chunk| && (i == |chunk| || !IsBlank(chunk[i]))
      && Messages(decode, chunk[idx..]) == [m] + Messages(decode, chunk[i..])
      && Rest(decode, chunk[idx..]) == Rest(decode, chunk[i..])
  {
    var decoded := decode(chunk[idx..]);
    if decoded.None? {
      NoMessage(decode, chunk[idx..]);
      return None;
    }
    var behind := idx + decoded.value.1;
    FirstMessage(decode, chunk[idx..]);
    assert chunk[idx..][decoded.value.1..] == chunk[behind..];
    BlanksDoNotMatter(decode, chunk[behind..]);
    var i := SkipFrom(chunk, behind);
    return Some((decoded.value.0, i));
  }

  lemma Append<M>(a: seq<M>, m: M, b: seq<M>)
    ensures a + ([m] + b) == a + [m] + b
  {}

  /** The inner loop, which needs no assumption about appended text. */
  method DecodeChunk<M>(chunk: string, decode: Decoder<M>) returns (messages: seq<M>, prev: string)
    requires Progresses(decode)
    ensures messages == Messages(decode, chunk) && prev == Rest(decode, chunk)
  {
    ghost var all, rest := Messages(decode, chunk), Rest(decode, chunk);
    messages := [];
    var idx := SkipFrom(chunk, 0);
    assert chunk[0..] == chunk;
    BlanksDoNotMatter(decode, chunk);
    while idx < |chunk|
      invariant idx <= |chunk| && (idx == |chunk| || !IsBlank(chunk[idx]))
      invariant all == messages + Messages(decode, chunk[idx..])
      invariant rest == Rest(decode, chunk[idx..])
      decreases |chunk| - idx
    {
      var next := DecodeAt(chunk, idx, decode);
      if next.None? {
        return messages, chunk[idx..];
      }
      Append(messages, next.value.0, Messages(decode, chunk[next.value.1..]));
      messages, idx := messages + [next.value.0], next.value.1;
    }
    NoMessage(decode, chunk[idx..]);
    prev := chunk[idx..];
  }

  // ---------------------------------------------------------------- written streams

  /** Spaces, tabs and line ends. */
  predicate AllBlank(s: string) { forall c <- s :: c in {' ', '\t', '\n', '\r'} }

  /** Exactly the leading ones are skipped. */
  lemma {:induction false} SkipExactly(blanks: string, t: string)
    requires AllBlank(blanks) && (t == "" || t[0] !in {' ', '\t', '\n', '\r'})
    ensures SkipBlanks(blanks + t) == t
  {
    if blanks == "" {
      assert blanks + t == t;
    } else {
      assert blanks[0] in blanks && (blanks + t)[1..] == blanks[1..] + t;
      assert forall c <- blanks[1..] :: c in blanks;
      SkipExactly(blanks[1..], t);
    }
  }

  /** The decoder reads what is written for a message, whatever follows. */
  ghost predicate Reads<M(!new)>(decode: Decoder<M>, encode: M -> string) {
    forall m, u ::
      && encode(m) != "" && encode(m)[0] !in {' ', '\t', '\n', '\r'}
      && decode(encode(m) + u) == Some((m, |encode(m)|))
  }

  /** The messages, each behind some whitespace, and some at the end. */
  function Written<M>(encode: M -> string, messages: seq<M>, blanks: nat -> string): string {
    if messages == [] then blanks(0)
    else blanks(0) + (encode(messages[0]) + Written(encode, messages[1..], (k: nat) => blanks(k + 1)))
  }

  /** What is written is read: every message, in order, and nothing else. */
  lemma {:induction false} WrittenIsRead<M(!new)>(decode: Decoder<M>, encode: M -> string, messages: seq<M>,
                                            blanks: nat -> string)
    requires Progresses(decode) && Reads(decode, encode) && forall k: nat :: AllBlank(blanks(k))
    ensures Messages(decode, Written(encode, messages, blanks)) == messages
    ensures Rest(decode, Written(encode, messages, blanks)) == ""
  {
    var s := Written(encode, messages, blanks);
    assert AllBlank(blanks(0));
    if messages == [] {
      SkipExactly(blanks(0), "");
      assert blanks(0) + "" == s;
    } else {
      var next := (k: nat) => blanks(k + 1);
      var rest := Written(encode, messages[1..], next);
      var t := encode(messages[0]) + rest;
      SkipExactly(blanks(0), t);
      BlanksDoNotMatter(decode, s);
      FirstMessage(decode, t);
      assert t[|encode(messages[0])|..] == rest;
      WrittenIsRead(decode, encode, messages[1..], next);
    }
  }

  /** The messages that streaming yields, whatever the decoder. */
  ghost function Streamed<M>(decode: Decoder<M>, chunks: seq<string>, prev: string): seq<M>
    requires Progresses(decode)
  {
    if chunks == [] then []
    else Messages(decode, prev + chunks[0]) + Streamed(decode, chunks[1..], Rest(decode, prev + chunks[0]))
  }

  /** A decoder that changes its mind about the first message when text is appended, as one for bare numbers does, makes
      the messages depend on where the stream is cut. */
  lemma CutsMatter<M>(decode: Decoder<M>, t: string, u: string)
    requires Progresses(decode) && t != "" && !IsBlank(t[0]) && decode(t).Some?
    requires decode(t + u).Some? ==> decode(t + u).value.0 != decode(t).value.0
    ensures Streamed(decode, [t, u], "") != Streamed(decode, [t + u], "")
  {
    assert "" + t == t && "" + (t + u) == t + u;
    assert Streamed(decode, [t, u], "")[0] == decode(t).value.0;
    assert [t + u][1..] == [] && SkipBlanks(t + u) == t + u;
    assert Streamed(decode, [t + u], "") == Messages(decode, t + u) + [];
  }
}
