/** The decoding of UTF-8, as bytes.decode does it strictly (section 4 of RFC 3629). */
module Utf8 {
  import opened Wrappers

  newtype Byte = b: int | 0 <= b < 256

  type Bytes = seq<Byte>

  predicate IsContinuation(b: Byte) { 0x80 <= b < 0xC0 }

  /** How many bytes a character takes that begins so. */
  function Length(b: Byte): (n: Option<nat>)
    ensures n.Some? ==> 1 <= n.value <= 4 && !IsContinuation(b)
  {
    if b < 0x80 then Some(1)
    else if 0xC2 <= b < 0xE0 then Some(2)
    else if 0xE0 <= b < 0xF0 then Some(3)
    else if 0xF0 <= b < 0xF5 then Some(4)
    else None
  }

  /** The payload of a continuation byte. */
  function Digit(b: Byte): int { b as int - 0x80 }

  /** The code point of a lead byte and the continuation bytes behind it. */
  function Point(s: Bytes): int
    requires 1 <= |s| <= 4
  {
    if |s| == 1 then s[0] as int
    else if |s| == 2 then (s[0] as int - 0xC0) * 64 + Digit(s[1])
    else if |s| == 3 then ((s[0] as int - 0xE0) * 64 + Digit(s[1])) * 64 + Digit(s[2])
    else (((s[0] as int - 0xF0) * 64 + Digit(s[1])) * 64 + Digit(s[2])) * 64 + Digit(s[3])
  }

  /** No shorter form, no surrogate and nothing beyond the last code point. */
  predicate Permitted(point: int, n: nat) {
    && point >= (if n == 1 then 0 else if n == 2 then 0x80 else if n == 3 then 0x800 else 0x10000)
    && point < 0x110000 && !(0xD800 <= point < 0xE000)
  }

  /** The first character and the number of its bytes. */
  function First(s: Bytes): (r: Option<(char, nat)>)
    ensures r.Some? ==> 1 <= r.value.1 <= |s| && Length(s[0]) == Some(r.value.1)
    ensures r.Some? ==> forall i :: 0 < i < r.value.1 ==> IsContinuation(s[i])
  {
    if s == [] || Length(s[0]).None? || |s| < Length(s[0]).value then None
    else
      var n := Length(s[0]).value;
      var point := Point(s[..n]);
      if (forall i | 0 < i < n :: IsContinuation(s[i])) && Permitted(point, n) then Some((point as char, n)) else None
  }

  function Decode(s: Bytes): Option<string> {
    if s == [] then Some("")
    else
      var first := First(s);
      if first.None? then None
      else
        var rest := Decode(s[first.value.1..]);
        if rest.None? then None else Some([first.value.0] + rest.value)
  }

  lemma FirstStays(s: Bytes, t: Bytes)
    requires First(s).Some?
    ensures First(s + t) == First(s)
  {
    var n := First(s).value.1;
    assert (s + t)[..n] == s[..n];
    assert forall i :: 0 < i < n ==> (s + t)[i] == s[i];
  }

  /** Bytes that begin with a character decode to it and to the rest. */
  lemma DecodeFirst(s: Bytes, c: char, n: nat)
    requires First(s) == Some((c, n))
    ensures Decode(s) == if Decode(s[n..]).None? then None else Some([c] + Decode(s[n..]).value)
  {
  }

  lemma Regroup(c: char, a: string, b: string)
    ensures [c] + (a + b) == [c] + a + b
  {
  }

  /** Behind text that decodes, the rest decodes as it does alone. */
  lemma {:induction false} DecodeJoined(s: Bytes, t: Bytes)
    requires Decode(s).Some?
    ensures Decode(s + t) == if Decode(t).None? then None else Some(Decode(s).value + Decode(t).value)
  {
    if s == [] {
      assert s + t == t;
      assert Decode(t).Some? ==> "" + Decode(t).value == Decode(t).value;
    } else {
      var (c, n) := First(s).value;
      FirstStays(s, t);
      DecodeFirst(s, c, n);
      DecodeFirst(s + t, c, n);
      assert (s + t)[n..] == s[n..] + t;
      DecodeJoined(s[n..], t);
      if Decode(t).Some? {
        Regroup(c, Decode(s[n..]).value, Decode(t).value);
      }
    }
  }

  /** A character begins with a byte that is no continuation. */
  lemma DecodeBegins(s: Bytes)
    requires s != [] && IsContinuation(s[0])
    ensures Decode(s).None?
  {
  }

  lemma SliceBehind(s: Bytes, n: nat, k: nat)
    requires n <= k < |s|
    ensures s[..k][n..] == s[n..][..k - n] && s[n..][k - n] == s[k]
  {
  }

  /** Text that decodes can be cut in front of every byte that is no continuation, and nowhere else. */
  lemma {:induction false} CutExactly(s: Bytes, k: nat)
    requires Decode(s).Some? && k < |s|
    ensures Decode(s[..k]).Some? <==> !IsContinuation(s[k])
  {
    var (c, n) := First(s).value;
    if k == 0 {
      assert s[..k] == [];
    } else if k < n {
      assert s[..k][0] == s[0];
    } else {
      DecodeFirst(s, c, n);
      FirstWithin(s, k);
      DecodeFirst(s[..k], c, n);
      SliceBehind(s, n, k);
      CutExactly(s[n..], k - n);
    }
  }

  lemma FirstWithin(s: Bytes, k: nat)
    requires First(s).Some? && First(s).value.1 <= k <= |s|
    ensures First(s[..k]) == First(s)
  {
    var n := First(s).value.1;
    assert s[..k][..n] == s[..n];
    assert forall i :: 0 < i < n ==> s[..k][i] == s[i];
  }

  // ---------------------------------------------------------------- encoding

  function Continuation(d: int): Byte
    requires 0 <= d < 64
  {
    (0x80 + d) as Byte
  }

  function EncodePoint(p: int, n: nat): (s: Bytes)
    requires 1 <= n <= 4 && Permitted(p, n) && (n < 4 ==> !Permitted(p, n + 1))
    ensures |s| == n
  {
    var q := p / 64;
    var r := q / 64;
    if n == 1 then [p as Byte]
    else if n == 2 then [(0xC0 + q) as Byte, Continuation(p % 64)]
    else if n == 3 then [(0xE0 + r) as Byte, Continuation(q % 64), Continuation(p % 64)]
    else [(0xF0 + r / 64) as Byte, Continuation(r % 64), Continuation(q % 64), Continuation(p % 64)]
  }

  function Size(c: char): (n: nat)
    ensures 1 <= n <= 4 && Permitted(c as int, n) && (n < 4 ==> !Permitted(c as int, n + 1))
  {
    var p := c as int;
    if p < 0x80 then 1 else if p < 0x800 then 2 else if p < 0x10000 then 3 else 4
  }

  function EncodeChar(c: char): Bytes { EncodePoint(c as int, Size(c)) }

  function Encode(t: string): Bytes {
    if t == "" then [] else EncodeChar(t[0]) + Encode(t[1..])
  }

  /** The point of an encoding is the encoded one, and its bytes are as they should be. */
  lemma PointOfEncoded(p: int, n: nat)
    requires 1 <= n <= 4 && Permitted(p, n) && (n < 4 ==> !Permitted(p, n + 1))
    ensures var s := EncodePoint(p, n);
      Length(s[0]) == Some(n) && Point(s) == p && forall i :: 0 < i < n ==> IsContinuation(s[i])
  {
  }

  lemma LastDigit(q: int, d: int)
    requires 0 <= d < 64
    ensures (q * 64 + d) / 64 == q && (q * 64 + d) % 64 == d
  {
  }

  lemma PointTooSmall(s: Bytes)
    requires s != [] && |s| < 4 && Length(s[0]) == Some(|s|) && forall i :: 0 < i < |s| ==> IsContinuation(s[i])
    ensures !Permitted(Point(s), |s| + 1)
  {
  }

  lemma EncodedOfPoint(s: Bytes)
    requires s != [] && Length(s[0]) == Some(|s|)
    requires Permitted(Point(s), |s|) && forall i :: 0 < i < |s| ==> IsContinuation(s[i])
    ensures |s| < 4 ==> !Permitted(Point(s), |s| + 1)
    ensures EncodePoint(Point(s), |s|) == s
  {
    var n := |s|;
    if n < 4 {
      PointTooSmall(s);
    }
    if n > 1 {
      var q := if n == 2 then s[0] as int - 0xC0 else if n == 3 then (s[0] as int - 0xE0) * 64 + Digit(s[1])
               else ((s[0] as int - 0xF0) * 64 + Digit(s[1])) * 64 + Digit(s[2]);
      assert Point(s) == q * 64 + Digit(s[n - 1]);
      LastDigit(q, Digit(s[n - 1]));
      if n > 2 {
        var r := if n == 3 then s[0] as int - 0xE0 else (s[0] as int - 0xF0) * 64 + Digit(s[1]);
        LastDigit(r, Digit(s[n - 2]));
        if n == 4 {
          LastDigit(s[0] as int - 0xF0, Digit(s[1]));
        }
      }
    }
  }

  lemma FirstOfEncoded(c: char)
    ensures First(EncodeChar(c)) == Some((c, Size(c)))
  {
    var s := EncodeChar(c);
    PointOfEncoded(c as int, Size(c));
    assert s[..Size(c)] == s;
  }

  /** What is encoded is decoded. */
  lemma {:induction false} EncodedDecodes(t: string)
    ensures Decode(Encode(t)) == Some(t)
  {
    if t != "" {
      var s, n := Encode(t), Size(t[0]);
      FirstOfEncoded(t[0]);
      FirstStays(EncodeChar(t[0]), Encode(t[1..]));
      DecodeFirst(s, t[0], n);
      assert s[n..] == Encode(t[1..]);
      EncodedDecodes(t[1..]);
      assert [t[0]] + t[1..] == t;
    }
  }

  lemma FirstIsEncoded(s: Bytes)
    requires First(s).Some?
    ensures var (c, n) := First(s).value; s[..n] == EncodeChar(c)
  {
    var (c, n) := First(s).value;
    assert forall i :: 0 < i < n ==> s[..n][i] == s[i];
    EncodedOfPoint(s[..n]);
  }

  /** The bytes that decode to a text are those of its encoding. */
  lemma {:induction false} DecodesExactly(s: Bytes, t: string)
    ensures Decode(s) == Some(t) <==> s == Encode(t)
  {
    EncodedDecodes(t);
    if Decode(s) == Some(t) && s != [] {
      var (c, n) := First(s).value;
      DecodeFirst(s, c, n);
      FirstIsEncoded(s);
      assert t[1..] == Decode(s[n..]).value;
      DecodesExactly(s[n..], t[1..]);
      assert s == s[..n] + s[n..];
    }
  }

  /** The examples of section 7 of RFC 3629, and one for each number of bytes. */
  lemma Examples()
    ensures Encode("A\U{2262}\U{0391}.") == [0x41, 0xE2, 0x89, 0xA2, 0xCE, 0x91, 0x2E]
    ensures Encode("\U{D55C}\U{AD6D}\U{C5B4}") == [0xED, 0x95, 0x9C, 0xEA, 0xB5, 0xAD, 0xEC, 0x96, 0xB4]
    ensures Encode("\U{233B4}") == [0xF0, 0xA3, 0x8E, 0xB4]
  {
    assert EncodeChar('A') == [0x41] && EncodeChar('\U{2262}') == [0xE2, 0x89, 0xA2];
    assert EncodeChar('\U{0391}') == [0xCE, 0x91] && EncodeChar('.') == [0x2E];
    assert EncodeChar('\U{D55C}') == [0xED, 0x95, 0x9C] && EncodeChar('\U{AD6D}') == [0xEA, 0xB5, 0xAD];
    assert EncodeChar('\U{C5B4}') == [0xEC, 0x96, 0xB4] && EncodeChar('\U{233B4}') == [0xF0, 0xA3, 0x8E, 0xB4];
    EncodeFour('A', '\U{2262}', '\U{0391}', '.');
    EncodeThree('\U{D55C}', '\U{AD6D}', '\U{C5B4}');
    assert Encode("\U{233B4}") == EncodeChar('\U{233B4}') + Encode("");
  }

  lemma EncodeFirst(c: char, t: string)
    ensures Encode([c] + t) == EncodeChar(c) + Encode(t)
  {
    assert ([c] + t)[1..] == t;
  }

  lemma EncodeThree(a: char, b: char, c: char)
    ensures Encode([a, b, c]) == EncodeChar(a) + EncodeChar(b) + EncodeChar(c)
  {
    EncodeFirst(a, [b, c]);
    EncodeFirst(b, [c]);
    EncodeFirst(c, []);
    assert [a] + [b, c] == [a, b, c] && [b] + [c] == [b, c] && [c] + [] == [c];
    assert EncodeChar(c) + Encode("") == EncodeChar(c);
  }

  lemma EncodeFour(a: char, b: char, c: char, d: char)
    ensures Encode([a, b, c, d]) == EncodeChar(a) + EncodeChar(b) + EncodeChar(c) + EncodeChar(d)
  {
    EncodeFirst(a, [b, c, d]);
    EncodeThree(b, c, d);
    assert [a] + [b, c, d] == [a, b, c, d];
  }
}
