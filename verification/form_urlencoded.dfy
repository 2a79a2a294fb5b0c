/** The platform side of query strings, as the WHATWG URL Standard defines
    it: the `application/x-www-form-urlencoded` serializer (section 5.2) that
    `URLSearchParams.toString()` runs, the parser (section 5.1) that turns a
    query back into name-value pairs, and `URLSearchParams.set` (section 6.2).
    Characters are encoded as UTF-8 (section 4 of RFC 3629). */
module FormUrlEncoded {
  import opened Strings

  type Byte = b: int | 0 <= b < 256

  // ------------------------------------------------------------- UTF-8

  /** The UTF-8 encoding of one scalar value. */
  function Utf8Char(c: char): (bs: seq<Byte>)
    ensures 1 <= |bs| <= 4
  {
    var n := c as int;
    if n < 0x80 then [n]
    else if n < 0x800 then [0xC0 + n / 64, 0x80 + n % 64]
    else if n < 0x1_0000 then [0xE0 + n / 4096, 0x80 + (n / 64) % 64, 0x80 + n % 64]
    else [0xF0 + n / 262144, 0x80 + (n / 4096) % 64, 0x80 + (n / 64) % 64, 0x80 + n % 64]
  }

  function Utf8Encode(s: string): seq<Byte>
  {
    if s == [] then [] else Utf8Char(s[0]) + Utf8Encode(s[1..])
  }

  predicate IsContinuation(b: int)
  {
    0x80 <= b < 0xC0
  }

  /** UTF-8 decoding of a byte sequence.  Well-formed sequences decode to
      their scalar values; a byte that does not start a well-formed sequence
      becomes U+FFFD. */
  function Utf8Decode(bs: seq<Byte>): string
    decreases |bs|
  {
    if bs == [] then []
    else
      var b0: int := bs[0];
      var b1: int := if |bs| > 1 then bs[1] else 0;
      var b2: int := if |bs| > 2 then bs[2] else 0;
      var b3: int := if |bs| > 3 then bs[3] else 0;
      var n2 := (b0 - 0xC0) * 64 + (b1 - 0x80);
      var n3 := (b0 - 0xE0) * 4096 + (b1 - 0x80) * 64 + (b2 - 0x80);
      var n4 := (b0 - 0xF0) * 262144 + (b1 - 0x80) * 4096 + (b2 - 0x80) * 64 + (b3 - 0x80);
      if b0 < 0x80 then
        [b0 as char] + Utf8Decode(bs[1..])
      else if 0xC2 <= b0 < 0xE0 && |bs| >= 2 && IsContinuation(b1) then
        [n2 as char] + Utf8Decode(bs[2..])
      else if 0xE0 <= b0 < 0xF0 && |bs| >= 3 && IsContinuation(b1) && IsContinuation(b2)
              && 0x800 <= n3 && !(0xD800 <= n3 < 0xE000) then
        [n3 as char] + Utf8Decode(bs[3..])
      else if 0xF0 <= b0 < 0xF5 && |bs| >= 4 && IsContinuation(b1) && IsContinuation(b2)
              && IsContinuation(b3) && 0x1_0000 <= n4 < 0x11_0000 then
        [n4 as char] + Utf8Decode(bs[4..])
      else
        ['\U{FFFD}'] + Utf8Decode(bs[1..])
  }

  lemma Split64(n: int)
    requires 0 <= n
    ensures n == 64 * (n / 64) + n % 64 && 0 <= n % 64 < 64
  {
  }

  lemma Split4096(n: int)
    requires 0 <= n
    ensures n / 64 == 64 * (n / 4096) + (n / 64) % 64
  {
    var q := n / 4096;
    var r := n % 4096;
    assert n == 4096 * q + r;
    assert n / 64 == 64 * q + r / 64;
  }

  lemma Split262144(n: int)
    requires 0 <= n
    ensures n / 4096 == 64 * (n / 262144) + (n / 4096) % 64
  {
    var q := n / 262144;
    var r := n % 262144;
    assert n == 262144 * q + r;
    assert n / 4096 == 64 * q + r / 4096;
  }

  /** Decoding the encoding of one character gives the character back,
      whatever follows it. */
  lemma Utf8DecodeChar(c: char, rest: seq<Byte>)
    ensures Utf8Decode(Utf8Char(c) + rest) == [c] + Utf8Decode(rest)
  {
    var n := c as int;
    if n < 0x80 {
      assert (Utf8Char(c) + rest)[1..] == rest;
    } else if n < 0x800 {
      DecodeTwo(c, rest);
    } else if n < 0x1_0000 {
      DecodeThree(c, rest);
    } else {
      DecodeFour(c, rest);
    }
  }

  lemma DecodeTwo(c: char, rest: seq<Byte>)
    requires 0x80 <= c as int < 0x800
    ensures Utf8Decode(Utf8Char(c) + rest) == [c] + Utf8Decode(rest)
  {
    var n := c as int;
    var bs := Utf8Char(c) + rest;
    Split64(n);
    assert bs[2..] == rest;
    assert (bs[0] as int - 0xC0) * 64 + (bs[1] as int - 0x80) == n;
  }

  lemma DecodeThree(c: char, rest: seq<Byte>)
    requires 0x800 <= c as int < 0x1_0000
    ensures Utf8Decode(Utf8Char(c) + rest) == [c] + Utf8Decode(rest)
  {
    var n := c as int;
    var bs := Utf8Char(c) + rest;
    Split64(n);
    Split4096(n);
    assert bs[3..] == rest;
    assert (bs[0] as int - 0xE0) * 4096 + (bs[1] as int - 0x80) * 64 + (bs[2] as int - 0x80) == n;
  }

  lemma DecodeFour(c: char, rest: seq<Byte>)
    requires 0x1_0000 <= c as int
    ensures Utf8Decode(Utf8Char(c) + rest) == [c] + Utf8Decode(rest)
  {
    var n := c as int;
    var bs := Utf8Char(c) + rest;
    Split64(n);
    Split4096(n);
    Split262144(n);
    assert bs[4..] == rest;
    assert (bs[0] as int - 0xF0) * 262144 + (bs[1] as int - 0x80) * 4096 + (bs[2] as int - 0x80) * 64 + (bs[3] as int - 0x80) == n;
  }

  lemma {:induction false} Utf8RoundTrip(s: string)
    ensures Utf8Decode(Utf8Encode(s)) == s
  {
    if s != [] {
      Utf8RoundTrip(s[1..]);
      Utf8DecodeChar(s[0], Utf8Encode(s[1..]));
      assert s == [s[0]] + s[1..];
    }
  }

  // ----------------------------------------------------- percent-encoding

  /** The code points the urlencoded serializer leaves as they are: every
      other one is in the application/x-www-form-urlencoded percent-encode
      set (section 1.3), except the space, which becomes `+`. */
  predicate IsUnreserved(c: char)
  {
    ('a' <= c <= 'z') || ('A' <= c <= 'Z') || ('0' <= c <= '9') || c == '*' || c == '-' || c == '.' || c == '_'
  }

  function HexDigit(d: int): (c: char)
    requires 0 <= d < 16
    ensures IsHexDigit(c) && HexValue(c) == d
  {
    "0123456789ABCDEF"[d]
  }

  predicate IsHexDigit(c: char)
  {
    ('0' <= c <= '9') || ('A' <= c <= 'F') || ('a' <= c <= 'f')
  }

  function HexValue(c: char): (d: int)
    requires IsHexDigit(c)
    ensures 0 <= d < 16
  {
    if '0' <= c <= '9' then c as int - '0' as int
    else if 'A' <= c <= 'F' then c as int - 'A' as int + 10
    else c as int - 'a' as int + 10
  }

  /** `%XY` for every byte, upper-case hexadecimal (section 1.3). */
  function PercentEncodeBytes(bs: seq<Byte>): string
  {
    if bs == [] then [] else ['%', HexDigit(bs[0] / 16), HexDigit(bs[0] % 16)] + PercentEncodeBytes(bs[1..])
  }

  function EncodeChar(c: char): string
  {
    if c == ' ' then "+" else if IsUnreserved(c) then [c] else PercentEncodeBytes(Utf8Char(c))
  }

  /** The urlencoded serializer's encoding of one name or value. */
  function FormEncode(s: string): (r: string)
    ensures '&' !in r && '=' !in r
  {
    if s == [] then [] else
      PercentEncodeAvoids(Utf8Char(s[0]));
      EncodeChar(s[0]) + FormEncode(s[1..])
  }

  lemma {:induction false} PercentEncodeAvoids(bs: seq<Byte>)
    ensures '&' !in PercentEncodeBytes(bs) && '=' !in PercentEncodeBytes(bs)
  {
    if bs != [] {
      PercentEncodeAvoids(bs[1..]);
    }
  }

  /** The bytes the parser recovers from an encoded name or value: `+` is a
      space, `%XY` a byte, any other character its UTF-8 bytes (section 5.1,
      and percent-decoding in section 1.3). */
  function FormDecodeBytes(s: string): seq<Byte>
  {
    if s == [] then []
    else if s[0] == '+' then [0x20] + FormDecodeBytes(s[1..])
    else if s[0] == '%' && |s| >= 3 && IsHexDigit(s[1]) && IsHexDigit(s[2]) then
      [HexValue(s[1]) * 16 + HexValue(s[2])] + FormDecodeBytes(s[3..])
    else Utf8Char(s[0]) + FormDecodeBytes(s[1..])
  }

  function FormDecode(s: string): string
  {
    Utf8Decode(FormDecodeBytes(s))
  }

  lemma {:induction false} PercentDecodeBytes(bs: seq<Byte>, rest: string)
    ensures FormDecodeBytes(PercentEncodeBytes(bs) + rest) == bs + FormDecodeBytes(rest)
  {
    if bs != [] {
      var tail := PercentEncodeBytes(bs[1..]) + rest;
      assert PercentEncodeBytes(bs) + rest == ['%', HexDigit(bs[0] / 16), HexDigit(bs[0] % 16)] + tail;
      DecodeTriple(bs[0], tail);
      PercentDecodeBytes(bs[1..], rest);
      assert bs == [bs[0]] + bs[1..];
    } else {
      assert PercentEncodeBytes(bs) + rest == rest;
    }
  }

  /** One `%XY` triple decodes to its byte. */
  lemma DecodeTriple(b: Byte, t: string)
    ensures FormDecodeBytes(['%', HexDigit(b / 16), HexDigit(b % 16)] + t) == [b] + FormDecodeBytes(t)
  {
    var s := ['%', HexDigit(b / 16), HexDigit(b % 16)] + t;
    assert s[0] == '%' && s[1] == HexDigit(b / 16) && s[2] == HexDigit(b % 16) && s[3..] == t;
    assert HexValue(s[1]) * 16 + HexValue(s[2]) == b;
  }

  lemma DecodeEncodedChar(c: char, rest: string)
    ensures FormDecodeBytes(EncodeChar(c) + rest) == Utf8Char(c) + FormDecodeBytes(rest)
  {
    var s := EncodeChar(c) + rest;
    if c == ' ' {
      assert s[1..] == rest;
    } else if IsUnreserved(c) {
      assert s[1..] == rest;
    } else {
      PercentDecodeBytes(Utf8Char(c), rest);
    }
  }

  lemma {:induction false} DecodeEncodedBytes(s: string)
    ensures FormDecodeBytes(FormEncode(s)) == Utf8Encode(s)
  {
    if s != [] {
      DecodeEncodedBytes(s[1..]);
      DecodeEncodedChar(s[0], FormEncode(s[1..]));
    }
  }

  /** Decoding an encoded name or value restores it. */
  lemma FormRoundTrip(s: string)
    ensures FormDecode(FormEncode(s)) == s
  {
    DecodeEncodedBytes(s);
    Utf8RoundTrip(s);
  }

  // ------------------------------------------------ serializer and parser

  type Pairs = seq<(string, string)>

  function EncodePair(p: (string, string)): string
  {
    FormEncode(p.0) + "=" + FormEncode(p.1)
  }

  function EncodePairs(list: Pairs): (r: seq<string>)
    ensures |r| == |list|
    ensures forall i :: 0 <= i < |r| ==> r[i] == EncodePair(list[i])
  {
    if list == [] then [] else [EncodePair(list[0])] + EncodePairs(list[1..])
  }

  /** The application/x-www-form-urlencoded serializer (section 5.2):
      `name=value` for each pair, joined by `&`. */
  function Serialize(list: Pairs): string
  {
    Join(EncodePairs(list), '&')
  }

  /** The index of the first `c` in `s`, if any. */
  function IndexOf(s: string, c: char): (r: int)
    ensures -1 <= r < |s|
    ensures r >= 0 ==> s[r] == c && c !in s[..r]
    ensures r == -1 ==> c !in s
  {
    if s == [] then -1
    else if s[0] == c then 0
    else
      var k := IndexOf(s[1..], c);
      if k == -1 then -1 else
        assert s[..k + 1] == [s[0]] + s[1..][..k];
        k + 1
  }

  /** One `&`-separated piece: split at its first `=` (a piece without one
      is a name with an empty value), then decoded. */
  function ParsePiece(piece: string): (string, string)
  {
    var i := IndexOf(piece, '=');
    if i == -1 then (FormDecode(piece), "")
    else (FormDecode(piece[..i]), FormDecode(piece[i + 1..]))
  }

  function ParsePieces(pieces: seq<string>): Pairs
  {
    if pieces == [] then []
    else if pieces[0] == "" then ParsePieces(pieces[1..])
    else [ParsePiece(pieces[0])] + ParsePieces(pieces[1..])
  }

  /** The application/x-www-form-urlencoded parser (section 5.1): empty
      pieces between `&`s are skipped. */
  function ParseQuery(query: string): Pairs
  {
    ParsePieces(Split(query, '&'))
  }

  lemma ParseEncodedPair(p: (string, string))
    ensures ParsePiece(EncodePair(p)) == p
  {
    var e := EncodePair(p);
    var n := FormEncode(p.0);
    assert e[|n|] == '=';
    assert e[..|n|] == n;
    assert IndexOf(e, '=') == |n|;
    assert e[|n| + 1..] == FormEncode(p.1);
    FormRoundTrip(p.0);
    FormRoundTrip(p.1);
  }

  lemma {:induction false} ParseEncodedPairs(list: Pairs)
    ensures ParsePieces(EncodePairs(list)) == list
  {
    if list != [] {
      var pieces := EncodePairs(list);
      assert pieces[0] != "" by { assert '=' in pieces[0]; }
      assert pieces[1..] == EncodePairs(list[1..]);
      ParseEncodedPairs(list[1..]);
      ParseEncodedPair(list[0]);
    }
  }

  /** Parsing what the serializer wrote gives the same list of pairs. */
  lemma SerializeRoundTrip(list: Pairs)
    ensures ParseQuery(Serialize(list)) == list
  {
    var pieces := EncodePairs(list);
    if list == [] {
      assert Serialize(list) == "";
    } else {
      forall i | 0 <= i < |pieces| ensures '&' !in pieces[i] {
        assert pieces[i] == FormEncode(list[i].0) + "=" + FormEncode(list[i].1);
      }
      SplitJoin(pieces, '&');
      ParseEncodedPairs(list);
    }
  }

  /** The serialization is empty exactly when there are no pairs. */
  lemma SerializeEmpty(list: Pairs)
    ensures Serialize(list) == "" <==> list == []
  {
    if list != [] {
      var pieces := EncodePairs(list);
      assert '=' in pieces[0];
      if |pieces| > 1 {
        assert |Serialize(list)| >= |pieces[0]|;
      }
    }
  }

  // ------------------------------------------------------- URLSearchParams

  /** The pairs named `name`, in order. */
  function Named(list: Pairs, name: string): (r: Pairs)
    ensures forall i :: 0 <= i < |r| ==> r[i].0 == name
  {
    if list == [] then []
    else if list[0].0 == name then [list[0]] + Named(list[1..], name)
    else Named(list[1..], name)
  }

  ghost predicate HasName(list: Pairs, name: string)
  {
    exists i :: 0 <= i < |list| && list[i].0 == name
  }

  function WithoutName(list: Pairs, name: string): (r: Pairs)
    ensures forall i :: 0 <= i < |r| ==> r[i].0 != name
  {
    if list == [] then []
    else if list[0].0 == name then WithoutName(list[1..], name)
    else [list[0]] + WithoutName(list[1..], name)
  }

  function ReplaceFirst(list: Pairs, name: string, value: string): Pairs
  {
    if list == [] then []
    else if list[0].0 == name then [(name, value)] + WithoutName(list[1..], name)
    else [list[0]] + ReplaceFirst(list[1..], name, value)
  }

  /** `set(name, value)` (section 6.2): the first pair named `name` takes the
      new value and the other pairs with that name are removed; without such
      a pair, one is appended. */
  function SetPair(list: Pairs, name: string, value: string): Pairs
  {
    if exists i :: 0 <= i < |list| && list[i].0 == name then ReplaceFirst(list, name, value)
    else list + [(name, value)]
  }

  lemma {:induction false} NamedWithout(list: Pairs, name: string, other: string)
    ensures Named(WithoutName(list, name), other) == if other == name then [] else Named(list, other)
  {
    if list != [] {
      NamedWithout(list[1..], name, other);
    }
  }

  lemma {:induction false} NamedReplaceFirst(list: Pairs, name: string, value: string, other: string)
    requires HasName(list, name)
    ensures Named(ReplaceFirst(list, name, value), other)
            == if other == name then [(name, value)] else Named(list, other)
  {
    if list[0].0 == name {
      NamedWithout(list[1..], name, other);
    } else {
      assert HasName(list[1..], name) by {
        var i :| 0 <= i < |list| && list[i].0 == name;
        assert list[1..][i - 1].0 == name;
      }
      NamedReplaceFirst(list[1..], name, value, other);
    }
  }

  lemma {:induction false} NamedAppend(list: Pairs, p: (string, string), other: string)
    ensures Named(list + [p], other) == Named(list, other) + Named([p], other)
  {
    if list == [] {
      assert list + [p] == [p];
    } else {
      assert (list + [p])[1..] == list[1..] + [p];
      NamedAppend(list[1..], p, other);
    }
  }

  lemma {:induction false} NamedAbsent(list: Pairs, name: string)
    requires !HasName(list, name)
    ensures Named(list, name) == []
  {
    if list != [] {
      assert !HasName(list[1..], name) by {
        forall i | 0 <= i < |list[1..]| ensures list[1..][i].0 != name {
          assert list[1..][i] == list[i + 1];
        }
      }
      NamedAbsent(list[1..], name);
    }
  }

  /** After `set(name, value)` there is exactly one pair named `name`, it
      holds `value`, and the pairs with any other name are as before, in
      the same order. */
  lemma SetPairEffect(list: Pairs, name: string, value: string, other: string)
    ensures Named(SetPair(list, name, value), name) == [(name, value)]
    ensures other != name ==> Named(SetPair(list, name, value), other) == Named(list, other)
  {
    if HasName(list, name) {
      NamedReplaceFirst(list, name, value, name);
      NamedReplaceFirst(list, name, value, other);
    } else {
      NamedAbsent(list, name);
      NamedAppend(list, (name, value), name);
      NamedAppend(list, (name, value), other);
    }
  }

  /** A `URLSearchParams` object: its list of name-value pairs. */
  class URLSearchParams {
    var list: Pairs

    /** `new URLSearchParams()` */
    constructor ()
      ensures list == []
    {
      list := [];
    }

    /** `new URLSearchParams(entries)` */
    constructor FromEntries(entries: Pairs)
      ensures list == entries
    {
      list := entries;
    }

    /** `set(name, value)` */
    method Set(name: string, value: string)
      modifies this
      ensures list == SetPair(old(list), name, value)
    {
      list := SetPair(list, name, value);
    }

    /** `toString()` */
    function ToString(): string
      reads this
    {
      Serialize(list)
    }
  }

  lemma {:induction false} ReplaceFirstAbsent(list: Pairs, name: string, value: string)
    requires !HasName(list, name)
    ensures ReplaceFirst(list, name, value) == list
  {
    if list != [] {
      assert !HasName(list[1..], name) by {
        forall i | 0 <= i < |list[1..]| ensures list[1..][i].0 != name {
          assert list[1..][i] == list[i + 1];
        }
      }
      ReplaceFirstAbsent(list[1..], name, value);
    }
  }
}
