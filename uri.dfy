/**
 * Ruby's URI.escape with its default set of unsafe characters: every character
 * outside the unreserved and reserved sets of RFC 2396 (sections 2.2 and 2.3),
 * plus '[' and ']', which RFC 2732 adds to the reserved set and Ruby's parser
 * keeps, is replaced by the "%XX" form (upper-case hex) of each byte of its UTF-8
 * encoding. Unescape is the inverse the plugin never calls; it is here to show
 * that Escape loses no information.
 */
module Uri {
  import opened Wrappers

  type Byte = b: int | 0 <= b < 256

  /** The characters URI.escape leaves alone. */
  predicate Safe(c: char): (r: bool)
    ensures r ==> (c as int) < 0x80
    ensures r ==> c != '%' && c != '#' && c != ' ' && c != '"' && c != '<' && c != '>'
  {
    || ('a' <= c <= 'z') || ('A' <= c <= 'Z') || ('0' <= c <= '9')
    || c in "-_.!~*'()"
    || c in ";/?:@&=+$,[]"
  }

  /** Text made only of safe characters and percent signs. */
  predicate UriText(s: string) {
    forall i :: 0 <= i < |s| ==> Safe(s[i]) || s[i] == '%'
  }

  // ---------------------------------------------------------------------
  // UTF-8

  /** Fewest bytes UTF-8 needs for the code point n (section 3 of RFC 3629). */
  function Utf8Size(n: int): nat {
    if n < 0x80 then 1 else if n < 0x800 then 2 else if n < 0x10000 then 3 else 4
  }

  /** The shortest-form UTF-8 encoding of one Unicode scalar value. */
  function Utf8(c: char): (r: seq<Byte>)
    ensures |r| == Utf8Size(c as int)
    ensures Utf8Length(r[0]) == |r|
    ensures forall i :: 1 <= i < |r| ==> 0x80 <= r[i] < 0xC0
  {
    var n := c as int;
    if n < 0x80 then [n]
    else if n < 0x800 then [0xC0 + n / 64, 0x80 + n % 64]
    else if n < 0x10000 then [0xE0 + n / 4096, 0x80 + (n / 64) % 64, 0x80 + n % 64]
    else [0xF0 + n / 262144, 0x80 + (n / 4096) % 64, 0x80 + (n / 64) % 64, 0x80 + n % 64]
  }

  /** Number of bytes of the sequence a lead byte starts, 0 if it is no lead byte. */
  function Utf8Length(lead: Byte): nat {
    if lead < 0x80 then 1
    else if 0xC0 <= lead < 0xE0 then 2
    else if 0xE0 <= lead < 0xF0 then 3
    else if 0xF0 <= lead < 0xF8 then 4
    else 0
  }

  predicate IsScalar(n: int) {
    (0 <= n < 0xD800) || (0xE000 <= n < 0x110000)
  }

  /**
   * The character a complete UTF-8 sequence of one to four bytes stands for;
   * overlong forms, surrogates and values past U+10FFFF are rejected.
   */
  function DecodeUtf8(bs: seq<Byte>): (r: Option<char>)
    ensures r.Some? ==> 1 <= |bs| <= 4 && Utf8Length(bs[0]) == |bs| && |bs| == Utf8Size(r.value as int)
  {
    if |bs| == 0 || Utf8Length(bs[0]) != |bs| then None
    else if exists i :: 1 <= i < |bs| && !(0x80 <= bs[i] < 0xC0) then None
    else
      var n := Utf8Value(bs);
      if IsScalar(n) && Utf8Size(n) == |bs| then Some(n as char) else None
  }

  /** Reassembles the code point from the payload bits of the bytes. */
  function Utf8Value(bs: seq<Byte>): int
    requires 1 <= |bs| <= 4
  {
    var b0: int := bs[0];
    if |bs| == 1 then b0
    else
      var b1: int := bs[1];
      if |bs| == 2 then (b0 - 0xC0) * 64 + (b1 - 0x80)
      else
        var b2: int := bs[2];
        if |bs| == 3 then ((b0 - 0xE0) * 64 + (b1 - 0x80)) * 64 + (b2 - 0x80)
        else
          var b3: int := bs[3];
          (((b0 - 0xF0) * 64 + (b1 - 0x80)) * 64 + (b2 - 0x80)) * 64 + (b3 - 0x80)
  }

  lemma Utf8ValueTwo(n: int)
    requires 0x80 <= n < 0x800
    ensures Utf8Value([0xC0 + n / 64, 0x80 + n % 64]) == n
  {
  }

  lemma Utf8ValueThree(n: int)
    requires 0x800 <= n < 0x10000
    ensures Utf8Value([0xE0 + n / 4096, 0x80 + (n / 64) % 64, 0x80 + n % 64]) == n
  {
    assert n / 4096 * 64 + (n / 64) % 64 == n / 64;
  }

  lemma Utf8ValueFour(n: int)
    requires 0x10000 <= n < 0x110000
    ensures Utf8Value([0xF0 + n / 262144, 0x80 + (n / 4096) % 64, 0x80 + (n / 64) % 64, 0x80 + n % 64]) == n
  {
    assert n / 262144 * 64 + (n / 4096) % 64 == n / 4096;
    assert n / 4096 * 64 + (n / 64) % 64 == n / 64;
  }

  lemma DecodeUtf8Encoding(c: char)
    ensures DecodeUtf8(Utf8(c)) == Some(c)
  {
    var n := c as int;
    if n < 0x80 {
    } else if n < 0x800 {
      Utf8ValueTwo(n);
    } else if n < 0x10000 {
      Utf8ValueThree(n);
    } else {
      Utf8ValueFour(n);
    }
    assert Utf8Value(Utf8(c)) == n;
  }

  // ---------------------------------------------------------------------
  // Percent-encoding of bytes

  function HexDigit(d: int): (c: char)
    requires 0 <= d < 16
    ensures Safe(c)
  {
    if d < 10 then (('0' as int) + d) as char else (('A' as int) + d - 10) as char
  }

  function HexValue(c: char): Option<int> {
    if '0' <= c <= '9' then Some(c as int - '0' as int)
    else if 'A' <= c <= 'F' then Some(c as int - 'A' as int + 10)
    else if 'a' <= c <= 'f' then Some(c as int - 'a' as int + 10)
    else None
  }

  lemma HexValueOfDigit(d: int)
    requires 0 <= d < 16
    ensures HexValue(HexDigit(d)) == Some(d)
  {
  }

  /** "%XX" for one byte. */
  function Percent(b: Byte): (r: string)
    ensures |r| == 3 && r[0] == '%' && UriText(r)
  {
    ['%', HexDigit(b / 16), HexDigit(b % 16)]
  }

  function PercentAll(bs: seq<Byte>): (r: string)
    ensures |r| == 3 * |bs|
    ensures UriText(r)
  {
    if bs == [] then [] else Percent(bs[0]) + PercentAll(bs[1..])
  }

  // ---------------------------------------------------------------------
  // Escape

  /** What URI.escape puts in place of one character. */
  function EscapeChar(c: char): (r: string)
    ensures Safe(c) ==> r == [c]
    ensures !Safe(c) ==> r == PercentAll(Utf8(c))
  {
    if Safe(c) then [c] else PercentAll(Utf8(c))
  }

  function Escape(s: string): (r: string)
    ensures UriText(r)
  {
    if s == [] then [] else EscapeChar(s[0]) + Escape(s[1..])
  }

  lemma {:induction false} EscapeConcat(a: string, b: string)
    ensures Escape(a + b) == Escape(a) + Escape(b)
  {
    if a == [] {
      assert a + b == b;
    } else {
      assert (a + b)[0] == a[0];
      assert (a + b)[1..] == a[1..] + b;
      EscapeConcat(a[1..], b);
    }
  }

  lemma {:induction false} EscapeSafeText(s: string)
    requires forall i :: 0 <= i < |s| ==> Safe(s[i])
    ensures Escape(s) == s
  {
    if s != [] {
      EscapeSafeText(s[1..]);
      assert s == [s[0]] + s[1..];
    }
  }

  // ---------------------------------------------------------------------
  // Unescape

  /** Reads one "%XX" from the front of s. */
  function ReadByte(s: string): (r: Option<(Byte, string)>)
    ensures r.Some? ==> |s| >= 3 && r.value.1 == s[3..]
  {
    if |s| >= 3 && s[0] == '%' then
      match (HexValue(s[1]), HexValue(s[2]))
      case (Some(h), Some(l)) => Some(((h * 16 + l) as Byte, s[3..]))
      case _ => None
    else None
  }

  /** Reads n "%XX" groups from the front of s. */
  function ReadBytes(s: string, n: nat): (r: Option<(seq<Byte>, string)>)
    ensures r.Some? ==> |r.value.0| == n && |r.value.1| == |s| - 3 * n
    decreases n
  {
    if n == 0 then Some(([], s))
    else
      match ReadByte(s)
      case None => None
      case Some((b, rest)) =>
        match ReadBytes(rest, n - 1)
        case None => None
        case Some((bs, rest')) => Some(([b] + bs, rest'))
  }

  function Unescape(s: string): Option<string>
    decreases |s|
  {
    if s == [] then Some([])
    else if s[0] != '%' then
      match Unescape(s[1..])
      case None => None
      case Some(t) => Some([s[0]] + t)
    else
      match ReadByte(s)
      case None => None
      case Some((lead, _)) =>
        var n := Utf8Length(lead);
        if n == 0 then None
        else
          match ReadBytes(s, n)
          case None => None
          case Some((bs, rest)) =>
            match DecodeUtf8(bs)
            case None => None
            case Some(c) =>
              match Unescape(rest)
              case None => None
              case Some(t) => Some([c] + t)
  }

  lemma ReadPercent(b: Byte, rest: string)
    ensures ReadByte(Percent(b) + rest) == Some((b, rest))
  {
    HexValueOfDigit(b / 16);
    HexValueOfDigit(b % 16);
    assert (Percent(b) + rest)[3..] == rest;
  }

  /** Concatenation regrouped. */
  lemma ConcatAssoc<T>(a: seq<T>, b: seq<T>, c: seq<T>)
    ensures (a + b) + c == a + (b + c)
  {
  }

  /** ReadBytes takes one group, then the remaining n. */
  lemma ReadBytesCons(s: string, b: Byte, tail: string, n: nat, bs: seq<Byte>, rest: string)
    requires ReadByte(s) == Some((b, tail)) && ReadBytes(tail, n) == Some((bs, rest))
    ensures ReadBytes(s, n + 1) == Some(([b] + bs, rest))
  {
  }

  /** Reading the groups of bs is reading the first byte, then the groups of the others. */
  lemma ReadPercentStep(bs: seq<Byte>, rest: string)
    requires bs != []
    requires ReadBytes(PercentAll(bs[1..]) + rest, |bs| - 1) == Some((bs[1..], rest))
    ensures ReadBytes(PercentAll(bs) + rest, |bs|) == Some((bs, rest))
  {
    var tail := PercentAll(bs[1..]) + rest;
    var s := PercentAll(bs) + rest;
    assert s == Percent(bs[0]) + tail by {
      assert PercentAll(bs) == Percent(bs[0]) + PercentAll(bs[1..]);
      ConcatAssoc(Percent(bs[0]), PercentAll(bs[1..]), rest);
    }
    assert ReadByte(s) == Some((bs[0], tail)) by {
      ReadPercent(bs[0], tail);
    }
    ReadBytesCons(s, bs[0], tail, |bs| - 1, bs[1..], rest);
    assert [bs[0]] + bs[1..] == bs;
  }

  lemma {:induction false} ReadPercentAll(bs: seq<Byte>, rest: string)
    ensures ReadBytes(PercentAll(bs) + rest, |bs|) == Some((bs, rest))
  {
    if bs == [] {
      assert PercentAll(bs) + rest == rest;
    } else {
      ReadPercentAll(bs[1..], rest);
      ReadPercentStep(bs, rest);
    }
  }

  /** Unescape at a '%' that starts the encoding of one character. */
  lemma UnescapeAtPercent(s: string, bs: seq<Byte>, rest: string, c: char)
    requires s != [] && s[0] == '%' && |bs| >= 1
    requires ReadByte(s).Some? && ReadByte(s).value.0 == bs[0] && Utf8Length(bs[0]) == |bs|
    requires ReadBytes(s, |bs|) == Some((bs, rest)) && DecodeUtf8(bs) == Some(c)
    ensures Unescape(s) ==
      match Unescape(rest)
      case None => None
      case Some(t) => Some([c] + t)
  {
  }

  /** The "%XX" groups that encode c read back as its UTF-8 bytes, and leave rest. */
  lemma ReadUtf8Escape(c: char, rest: string)
    ensures var bs, s := Utf8(c), PercentAll(Utf8(c)) + rest;
      && s != [] && s[0] == '%'
      && ReadByte(s).Some? && ReadByte(s).value.0 == bs[0]
      && ReadBytes(s, |bs|) == Some((bs, rest))
  {
    var bs := Utf8(c);
    var s := PercentAll(bs) + rest;
    assert PercentAll(bs) == Percent(bs[0]) + PercentAll(bs[1..]);
    ConcatAssoc(Percent(bs[0]), PercentAll(bs[1..]), rest);
    ReadPercent(bs[0], PercentAll(bs[1..]) + rest);
    ReadPercentAll(bs, rest);
  }

  lemma UnescapeUtf8(c: char, rest: string)
    ensures Unescape(PercentAll(Utf8(c)) + rest) ==
      match Unescape(rest)
      case None => None
      case Some(t) => Some([c] + t)
  {
    ReadUtf8Escape(c, rest);
    DecodeUtf8Encoding(c);
    UnescapeAtPercent(PercentAll(Utf8(c)) + rest, Utf8(c), rest, c);
  }

  lemma UnescapeEscapeChar(c: char, rest: string)
    ensures Unescape(EscapeChar(c) + rest) ==
      match Unescape(rest)
      case None => None
      case Some(t) => Some([c] + t)
  {
    if Safe(c) {
      var s := EscapeChar(c) + rest;
      assert s[0] == c && s[1..] == rest;
    } else {
      UnescapeUtf8(c, rest);
    }
  }

  /** Escape loses nothing: Unescape recovers the original text. */
  lemma {:induction false} UnescapeEscape(s: string)
    ensures Unescape(Escape(s)) == Some(s)
  {
    if s != [] {
      UnescapeEscape(s[1..]);
      UnescapeEscapeChar(s[0], Escape(s[1..]));
      assert [s[0]] + s[1..] == s;
    }
  }

  /** Different texts never escape to the same URL. */
  lemma EscapeInjective(s: string, t: string)
    requires Escape(s) == Escape(t)
    ensures s == t
  {
    UnescapeEscape(s);
    UnescapeEscape(t);
  }
}
