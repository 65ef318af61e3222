/**
 * The application/x-www-form-urlencoded format of the WHATWG URL Standard,
 * as `URLSearchParams` uses it: the serializer of section 5.2 (what
 * `toString()` returns), and a parser for its output that follows the
 * splitting rules of section 5.1.
 *
 * A Dafny `char` is a Unicode scalar value, so the standard's conversion of
 * lone surrogates to U+FFFD never applies here.
 */
module FormUrlEncoded {
  import opened Wrappers

  // ---------------------------------------------------------------------------
  // Serializer (section 5.2)
  // ---------------------------------------------------------------------------

  /** Characters the serializer leaves as they are: ASCII alphanumerics, `*`, `-`, `.` and `_`. */
  predicate Unreserved(c: char) {
    || ('a' <= c <= 'z')
    || ('A' <= c <= 'Z')
    || ('0' <= c <= '9')
    || c == '*' || c == '-' || c == '.' || c == '_'
  }

  predicate IsScalar(cp: int) {
    (0 <= cp < 0xD800) || (0xE000 <= cp < 0x11_0000)
  }

  /** The UTF-8 encoding of a scalar value. */
  function Utf8(cp: int): (bytes: seq<int>)
    requires IsScalar(cp)
    ensures 1 <= |bytes| <= 4
    ensures forall k :: 0 <= k < |bytes| ==> 0 <= bytes[k] < 0x100
    ensures (|bytes| == 1) == (cp < 0x80)
  {
    var q1 := cp / 64;
    var q2 := q1 / 64;
    var q3 := q2 / 64;
    if cp < 0x80 then [cp]
    else if cp < 0x800 then [0xC0 + q1, 0x80 + cp % 64]
    else if cp < 0x1_0000 then [0xE0 + q2, 0x80 + q1 % 64, 0x80 + cp % 64]
    else [0xF0 + q3, 0x80 + q2 % 64, 0x80 + q1 % 64, 0x80 + cp % 64]
  }

  /** An upper-case hexadecimal digit. */
  function HexDigit(n: int): (c: char)
    requires 0 <= n < 16
    ensures Unreserved(c)
  {
    if n < 10 then ('0' as int + n) as char else ('A' as int + n - 10) as char
  }

  /** Each byte written as `%` followed by two upper-case hexadecimal digits. */
  function PercentEncode(bytes: seq<int>): (s: string)
    requires forall k :: 0 <= k < |bytes| ==> 0 <= bytes[k] < 0x100
    ensures |s| == 3 * |bytes|
    ensures forall k :: 0 <= k < |s| ==> Unreserved(s[k]) || s[k] == '%'
  {
    if bytes == [] then []
    else ['%', HexDigit(bytes[0] / 16), HexDigit(bytes[0] % 16)] + PercentEncode(bytes[1..])
  }

  /** One character as the serializer writes it. */
  function EncodeChar(c: char): (s: string)
    ensures s != []
    ensures forall k :: 0 <= k < |s| ==> Unreserved(s[k]) || s[k] == '+' || s[k] == '%'
  {
    if Unreserved(c) then [c]
    else if c == ' ' then "+"
    else PercentEncode(Utf8(c as int))
  }

  /**
   * A name or a value as the serializer writes it. The output uses only
   * unreserved characters, `+` and `%`, so it never holds the separators
   * `&` and `=`.
   */
  function Encode(s: string): (r: string)
    ensures forall k :: 0 <= k < |r| ==> Unreserved(r[k]) || r[k] == '+' || r[k] == '%'
  {
    if s == [] then []
    else EncodeChar(s[0]) + Encode(s[1..])
  }

  /** One name-value pair: `name=value`. */
  function SerializePair(pair: (string, string)): string {
    Encode(pair.0) + "=" + Encode(pair.1)
  }

  /**
   * The serializer: every pair in order, separated by `&`. The query is
   * empty exactly when there are no pairs, because a pair always writes
   * its `=`.
   */
  function Serialize(pairs: seq<(string, string)>): (query: string)
    ensures query == "" <==> pairs == []
  {
    if pairs == [] then ""
    else if |pairs| == 1 then SerializePair(pairs[0])
    else SerializePair(pairs[0]) + "&" + Serialize(pairs[1..])
  }

  // ---------------------------------------------------------------------------
  // Parser (section 5.1) for the serializer's output
  // ---------------------------------------------------------------------------

  predicate IsHexDigit(c: char) {
    ('0' <= c <= '9') || ('A' <= c <= 'F') || ('a' <= c <= 'f')
  }

  function HexValue(c: char): (v: int)
    requires IsHexDigit(c)
    ensures 0 <= v < 16
  {
    if '0' <= c <= '9' then c as int - '0' as int
    else if 'A' <= c <= 'F' then c as int - 'A' as int + 10
    else c as int - 'a' as int + 10
  }

  /** The byte escaped as `%XY` at position `i` of `t`, if there is one. */
  function EscapedByte(t: string, i: nat): (b: Option<int>)
    ensures b.Some? ==> i + 3 <= |t| && 0 <= b.value < 0x100
  {
    if i + 3 <= |t| && t[i] == '%' && IsHexDigit(t[i + 1]) && IsHexDigit(t[i + 2])
    then Some(HexValue(t[i + 1]) * 16 + HexValue(t[i + 2]))
    else None
  }

  /**
   * Reads the continuation bytes `k..n` of an escaped UTF-8 sequence that
   * starts at the beginning of `t`; `acc` holds the bits read so far.
   * Gives the character and the number of string characters used.
   */
  function Continuation(t: string, k: nat, n: nat, acc: int): (r: Option<(char, nat)>)
    requires 1 <= k <= n + 1
    requires 3 * k <= |t|
    ensures r.Some? ==> 3 <= r.value.1 <= |t|
    decreases n + 1 - k
  {
    if k == n + 1 then
      if IsScalar(acc) then Some((acc as char, 3 * k)) else None
    else
      match EscapedByte(t, 3 * k)
      case Some(b) =>
        if 0x80 <= b < 0xC0 then Continuation(t, k + 1, n, acc * 64 + (b - 0x80)) else None
      case None => None
  }

  /** A whole escaped UTF-8 sequence at the beginning of `t`, if there is one. */
  function DecodeScalar(t: string): (r: Option<(char, nat)>)
    ensures r.Some? ==> 3 <= r.value.1 <= |t|
  {
    match EscapedByte(t, 0)
    case None => None
    case Some(b) =>
      if b < 0x80 then Some((b as char, 3))
      else if 0xC0 <= b < 0xE0 then Continuation(t, 1, 1, b - 0xC0)
      else if 0xE0 <= b < 0xF0 then Continuation(t, 1, 2, b - 0xE0)
      else if 0xF0 <= b < 0xF8 then Continuation(t, 1, 3, b - 0xF0)
      else None
  }

  /** Undoes `Encode`: `+` is a space, escaped UTF-8 is its character, anything else is itself. */
  function Decode(t: string): string
    decreases |t|
  {
    if t == [] then []
    else if t[0] == '+' then " " + Decode(t[1..])
    else match DecodeScalar(t)
      case Some(cn) => [cn.0] + Decode(t[cn.1..])
      case None => [t[0]] + Decode(t[1..])
  }

  /** The position of the first `c` in `s`. */
  function IndexOf(s: string, c: char): (i: nat)
    requires c in s
    ensures i < |s| && s[i] == c && c !in s[..i]
  {
    if s[0] == c then 0
    else
      var j := IndexOf(s[1..], c);
      assert s[..j + 1] == [s[0]] + s[1..][..j];
      j + 1
  }

  /** `s` cut at every `sep`; an input without `sep` is one piece. */
  function Split(s: string, sep: char): (parts: seq<string>)
    ensures parts != []
    decreases |s|
  {
    if sep in s then
      var i := IndexOf(s, sep);
      [s[..i]] + Split(s[i + 1..], sep)
    else [s]
  }

  /** One `name=value` sequence: cut at its first `=`; without one, the value is empty. */
  function ParseSequence(s: string): (string, string) {
    if '=' in s then
      var i := IndexOf(s, '=');
      (Decode(s[..i]), Decode(s[i + 1..]))
    else (Decode(s), "")
  }

  /** Every non-empty sequence, in order. */
  function ParseSequences(parts: seq<string>): seq<(string, string)> {
    if parts == [] then []
    else if parts[0] == "" then ParseSequences(parts[1..])
    else [ParseSequence(parts[0])] + ParseSequences(parts[1..])
  }

  /** The parser: split on `&`, skip empty sequences, split each at `=` and decode both halves. */
  function Parse(query: string): seq<(string, string)> {
    ParseSequences(Split(query, '&'))
  }

  // ---------------------------------------------------------------------------
  // Round trips
  // ---------------------------------------------------------------------------

  lemma HexDigitValue(n: int)
    requires 0 <= n < 16
    ensures IsHexDigit(HexDigit(n)) && HexValue(HexDigit(n)) == n
  {
  }

  /** Reading an escape is unaffected by what comes before it. */
  lemma EscapedByteShift(p: string, t: string, i: nat)
    ensures EscapedByte(p + t, |p| + i) == EscapedByte(t, i)
  {
  }

  /** Byte `k` of a percent-encoded run is read back at position `3 * k`. */
  lemma {:induction false} EscapedByteAt(bytes: seq<int>, rest: string, k: nat)
    requires forall j :: 0 <= j < |bytes| ==> 0 <= bytes[j] < 0x100
    requires k < |bytes|
    ensures EscapedByte(PercentEncode(bytes) + rest, 3 * k) == Some(bytes[k])
  {
    var head := ['%', HexDigit(bytes[0] / 16), HexDigit(bytes[0] % 16)];
    assert PercentEncode(bytes) + rest == head + (PercentEncode(bytes[1..]) + rest);
    if k == 0 {
      HexDigitValue(bytes[0] / 16);
      HexDigitValue(bytes[0] % 16);
    } else {
      EscapedByteAt(bytes[1..], rest, k - 1);
      EscapedByteShift(head, PercentEncode(bytes[1..]) + rest, 3 * (k - 1));
    }
  }

  /** The escapes of a two-byte UTF-8 sequence decode to its scalar value. */
  lemma DecodeTwoBytes(t: string, cp: int)
    requires 0x80 <= cp < 0x800
    requires EscapedByte(t, 0) == Some(0xC0 + cp / 64)
    requires EscapedByte(t, 3) == Some(0x80 + cp % 64)
    ensures DecodeScalar(t) == Some((cp as char, 6))
  {
  }

  /** The escapes of a three-byte UTF-8 sequence decode to its scalar value. */
  lemma DecodeThreeBytes(t: string, cp: int)
    requires 0x800 <= cp < 0x1_0000 && IsScalar(cp)
    requires EscapedByte(t, 0) == Some(0xE0 + cp / 64 / 64)
    requires EscapedByte(t, 3) == Some(0x80 + cp / 64 % 64)
    requires EscapedByte(t, 6) == Some(0x80 + cp % 64)
    ensures DecodeScalar(t) == Some((cp as char, 9))
  {
  }

  /** The escapes of a four-byte UTF-8 sequence decode to its scalar value. */
  lemma DecodeFourBytes(t: string, cp: int)
    requires 0x1_0000 <= cp < 0x11_0000
    requires EscapedByte(t, 0) == Some(0xF0 + cp / 64 / 64 / 64)
    requires EscapedByte(t, 3) == Some(0x80 + cp / 64 / 64 % 64)
    requires EscapedByte(t, 6) == Some(0x80 + cp / 64 % 64)
    requires EscapedByte(t, 9) == Some(0x80 + cp % 64)
    ensures DecodeScalar(t) == Some((cp as char, 12))
  {
  }

  /** A percent-encoded character is decoded back to itself, using exactly its escapes. */
  lemma DecodeScalarOfEscapes(c: char, rest: string)
    requires !Unreserved(c) && c != ' '
    ensures DecodeScalar(EncodeChar(c) + rest) == Some((c, |EncodeChar(c)|))
  {
    var cp := c as int;
    var bytes := Utf8(cp);
    var t := EncodeChar(c) + rest;
    assert t == PercentEncode(bytes) + rest;
    forall k | 0 <= k < |bytes|
      ensures EscapedByte(t, 3 * k) == Some(bytes[k])
    {
      EscapedByteAt(bytes, rest, k);
    }
    assert EscapedByte(t, 0) == Some(bytes[0]);
    if |bytes| == 2 {
      assert EscapedByte(t, 3) == Some(bytes[1]);
      DecodeTwoBytes(t, cp);
    } else if |bytes| == 3 {
      assert EscapedByte(t, 3) == Some(bytes[1]);
      assert EscapedByte(t, 6) == Some(bytes[2]);
      DecodeThreeBytes(t, cp);
    } else if |bytes| == 4 {
      assert EscapedByte(t, 3) == Some(bytes[1]);
      assert EscapedByte(t, 6) == Some(bytes[2]);
      assert EscapedByte(t, 9) == Some(bytes[3]);
      DecodeFourBytes(t, cp);
    }
  }

  /** Decoding an encoded character consumes exactly its encoding. */
  lemma DecodeEncodeChar(c: char, rest: string)
    ensures Decode(EncodeChar(c) + rest) == [c] + Decode(rest)
  {
    var t := EncodeChar(c) + rest;
    if Unreserved(c) {
      assert t[0] == c && t[1..] == rest;
      assert EscapedByte(t, 0) == None;
    } else if c == ' ' {
      assert t[0] == '+' && t[1..] == rest;
    } else {
      DecodeScalarOfEscapes(c, rest);
      assert t[0] == '%';
      assert t[|EncodeChar(c)|..] == rest;
    }
  }

  /** `Decode` undoes `Encode`: the serializer loses no information. */
  lemma {:induction false} DecodeEncode(s: string)
    ensures Decode(Encode(s)) == s
  {
    if s != [] {
      DecodeEncodeChar(s[0], Encode(s[1..]));
      DecodeEncode(s[1..]);
    }
  }

  /** The first `c` in `a + [c] + b` is the one after `a` when `a` has none. */
  lemma {:induction false} IndexOfAfter(a: string, c: char, b: string)
    requires c !in a
    ensures c in a + [c] + b && IndexOf(a + [c] + b, c) == |a|
  {
    var s := a + [c] + b;
    assert s[|a|] == c;
    if a != [] {
      assert s[1..] == a[1..] + [c] + b;
      IndexOfAfter(a[1..], c, b);
    }
  }

  lemma SplitAfter(a: string, sep: char, b: string)
    requires sep !in a
    ensures Split(a + [sep] + b, sep) == [a] + Split(b, sep)
  {
    var s := a + [sep] + b;
    IndexOfAfter(a, sep, b);
    assert s[..|a|] == a;
    assert s[|a| + 1..] == b;
  }

  lemma EncodedHasNoSeparators(s: string)
    ensures '&' !in Encode(s) && '=' !in Encode(s)
  {
  }

  lemma ParsePair(pair: (string, string))
    ensures SerializePair(pair) != ""
    ensures '&' !in SerializePair(pair)
    ensures ParseSequence(SerializePair(pair)) == pair
  {
    var n, v := Encode(pair.0), Encode(pair.1);
    var s := SerializePair(pair);
    assert s == n + ['='] + v;
    EncodedHasNoSeparators(pair.0);
    EncodedHasNoSeparators(pair.1);
    IndexOfAfter(n, '=', v);
    assert s[..|n|] == n;
    assert s[|n| + 1..] == v;
    DecodeEncode(pair.0);
    DecodeEncode(pair.1);
  }

  /** Parsing what the serializer wrote gives back every pair, in order. */
  lemma {:induction false} ParseSerialize(pairs: seq<(string, string)>)
    ensures Parse(Serialize(pairs)) == pairs
  {
    if pairs == [] {
      assert Split("", '&') == [""];
    } else {
      var first := SerializePair(pairs[0]);
      ParsePair(pairs[0]);
      if |pairs| == 1 {
        assert Split(first, '&') == [first];
        assert ParseSequences([first]) == [ParseSequence(first)] + ParseSequences([]);
      } else {
        ParseSerialize(pairs[1..]);
        SplitAfter(first, '&', Serialize(pairs[1..]));
        assert Serialize(pairs) == first + ['&'] + Serialize(pairs[1..]);
      }
    }
  }
}
