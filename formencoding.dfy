/** The `application/x-www-form-urlencoded` serialisation that both the server
    (for worker calls) and the client (for request URLs) obtain from
    `urllib.parse.urlencode`, and, as its inverse, the parser of section 5.1
    of the WHATWG URL Standard.

    `urlencode` joins `quote_plus(key) + "=" + quote_plus(value)` with `&`.
    `quote_plus` encodes the string as UTF-8, keeps the unreserved bytes of
    section 2.3 of RFC 3986 (letters, digits, `-`, `.`, `_`, `~`), turns a
    space into `+`, and writes every other byte as `%` followed by two
    upper-case hexadecimal digits (section 2.1 of RFC 3986). */
module FormEncoding {
  import opened Common

  /** The unreserved set of section 2.3 of RFC 3986, as bytes. */
  predicate IsUnreservedByte(b: byte)
  {
    || (0x41 <= b <= 0x5A) || (0x61 <= b <= 0x7A) || (0x30 <= b <= 0x39)
    || b == 0x2D || b == 0x2E || b == 0x5F || b == 0x7E
  }

  predicate IsUnreservedChar(c: char)
  {
    || ('A' <= c <= 'Z') || ('a' <= c <= 'z') || ('0' <= c <= '9')
    || c == '-' || c == '.' || c == '_' || c == '~'
  }

  /** The characters a serialised component can contain. */
  predicate IsEncodedChar(c: char)
  {
    IsUnreservedChar(c) || c == '+' || c == '%'
  }

  predicate IsEncoded(s: string)
  {
    forall i :: 0 <= i < |s| ==> IsEncodedChar(s[i])
  }

  /** An upper-case hexadecimal digit. */
  function HexDigit(d: nat): (c: char)
    requires d < 16
    ensures IsUnreservedChar(c)
  {
    if d < 10 then (48 + d) as char else (55 + d) as char
  }

  predicate IsHexChar(c: char)
  {
    ('0' <= c <= '9') || ('A' <= c <= 'F') || ('a' <= c <= 'f')
  }

  function HexValue(c: char): (d: nat)
    requires IsHexChar(c)
    ensures d < 16
  {
    if '0' <= c <= '9' then c as int - 48
    else if 'A' <= c <= 'F' then c as int - 55
    else c as int - 87
  }

  lemma HexDigitValue(d: nat)
    requires d < 16
    ensures IsHexChar(HexDigit(d)) && HexValue(HexDigit(d)) == d
  {
  }

  /** `quote_plus` applied to one byte of the UTF-8 encoding. */
  function QuoteByte(b: byte): (r: string)
    ensures IsEncoded(r)
    ensures r == [(b as int) as char] <==> IsUnreservedByte(b)
    ensures r == "+" <==> b == 0x20
    ensures |r| == 3 <==> !IsUnreservedByte(b) && b != 0x20
  {
    if IsUnreservedByte(b) then [(b as int) as char]
    else if b == 0x20 then "+"
    else ['%', HexDigit(b as int / 16), HexDigit(b as int % 16)]
  }

  function QuoteBytes(bs: seq<byte>): (r: string)
    ensures IsEncoded(r)
  {
    if bs == [] then [] else QuoteByte(bs[0]) + QuoteBytes(bs[1..])
  }

  /** `urllib.parse.quote_plus(s)` with its defaults (no extra safe
      characters, UTF-8). */
  function QuotePlus(s: string): (r: string)
    ensures IsEncoded(r)
  {
    QuoteBytes(Utf8(s))
  }

  /** One `key=value` pair of the serialisation. */
  function EncodePair(p: (string, string)): string
  {
    QuotePlus(p.0) + "=" + QuotePlus(p.1)
  }

  /** `sep.join(parts)`. */
  function Join(parts: seq<string>, sep: char): string
  {
    if |parts| == 0 then ""
    else if |parts| == 1 then parts[0]
    else parts[0] + [sep] + Join(parts[1..], sep)
  }

  function EncodePairs(pairs: seq<(string, string)>): (r: seq<string>)
    ensures |r| == |pairs|
    ensures forall i :: 0 <= i < |pairs| ==> r[i] == EncodePair(pairs[i])
  {
    if pairs == [] then [] else [EncodePair(pairs[0])] + EncodePairs(pairs[1..])
  }

  /** `urllib.parse.urlencode(pairs)` on already stringified pairs, in the
      order given. */
  function Urlencode(pairs: seq<(string, string)>): string
  {
    Join(EncodePairs(pairs), '&')
  }

  // ---------------------------------------------------------------------
  // The parser of section 5.1 of the WHATWG URL Standard.

  /** Splits a string on every occurrence of a separator; the pieces keep
      their order and an empty string still has one (empty) piece. */
  function Split(s: string, sep: char): (r: seq<string>)
    ensures |r| >= 1
    decreases |s|
  {
    if s == [] then [""]
    else
      var rest := Split(s[1..], sep);
      if s[0] == sep then [""] + rest else [[s[0]] + rest[0]] + rest[1..]
  }

  /** Splits at the first occurrence of `c`: the part before it and the part
      after it; without an occurrence the whole string and "". */
  function SplitAtFirst(s: string, c: char): (string, string)
    decreases |s|
  {
    if s == [] then ("", "")
    else if s[0] == c then ("", s[1..])
    else
      var p := SplitAtFirst(s[1..], c);
      ([s[0]] + p.0, p.1)
  }

  /** Replaces `+` by a space and decodes `%` followed by two hexadecimal
      digits into a byte; any other character stands for its UTF-8 bytes. */
  function PercentDecode(s: string): seq<byte>
    decreases |s|
  {
    if s == [] then []
    else if s[0] == '+' then [0x20 as byte] + PercentDecode(s[1..])
    else if s[0] == '%' && |s| >= 3 && IsHexChar(s[1]) && IsHexChar(s[2]) then
      [(HexValue(s[1]) * 16 + HexValue(s[2])) as byte] + PercentDecode(s[3..])
    else Utf8Char(s[0]) + PercentDecode(s[1..])
  }

  /** Percent-decodes a name or value and reads it as UTF-8. Where the URL
      Standard's "UTF-8 decode without BOM" puts U+FFFD in place of a
      malformed sequence, this gives None; a `quote_plus` result is always
      well-formed UTF-8, so the round trips below never meet that case. */
  function DecodeComponent(s: string): Option<string>
  {
    Utf8Decode(PercentDecode(s))
  }

  /** Parses the pieces of a query: empty pieces are skipped, each other one
      is split at its first `=`; None if a component is not UTF-8. */
  function ParsePieces(pieces: seq<string>): Option<seq<(string, string)>>
  {
    if pieces == [] then Some([])
    else
      match ParsePieces(pieces[1..])
      case None => None
      case Some(rest) =>
        if pieces[0] == "" then Some(rest)
        else
          var nv := SplitAtFirst(pieces[0], '=');
          match (DecodeComponent(nv.0), DecodeComponent(nv.1))
          case (Some(n), Some(v)) => Some([(n, v)] + rest)
          case _ => None
  }

  function ParseQuery(q: string): Option<seq<(string, string)>>
  {
    ParsePieces(Split(q, '&'))
  }

  // ---------------------------------------------------------------------
  // Properties of the serialisation.

  lemma {:induction false} SplitNoSep(a: string, sep: char)
    requires sep !in a
    ensures Split(a, sep) == [a]
    decreases |a|
  {
    if a != [] {
      SplitNoSep(a[1..], sep);
      assert [a[0]] + a[1..] == a;
    }
  }

  lemma {:induction false} SplitFirstPiece(a: string, sep: char, b: string)
    requires sep !in a
    ensures Split(a + [sep] + b, sep) == [a] + Split(b, sep)
    decreases |a|
  {
    if a == [] {
      assert a + [sep] + b == [sep] + b;
      assert ([sep] + b)[1..] == b;
    } else {
      var s := a + [sep] + b;
      assert s[0] == a[0];
      assert s[1..] == a[1..] + [sep] + b;
      SplitFirstPiece(a[1..], sep, b);
      assert [a[0]] + a[1..] == a;
    }
  }

  /** Splitting a join gives the parts back when no part holds the separator. */
  lemma {:induction false} SplitJoin(parts: seq<string>, sep: char)
    requires |parts| >= 1
    requires forall i :: 0 <= i < |parts| ==> sep !in parts[i]
    ensures Split(Join(parts, sep), sep) == parts
    decreases |parts|
  {
    if |parts| == 1 {
      SplitNoSep(parts[0], sep);
    } else {
      SplitJoin(parts[1..], sep);
      SplitFirstPiece(parts[0], sep, Join(parts[1..], sep));
      assert [parts[0]] + parts[1..] == parts;
    }
  }

  lemma {:induction false} SplitAtFirstPair(a: string, c: char, b: string)
    requires c !in a
    ensures SplitAtFirst(a + [c] + b, c) == (a, b)
    decreases |a|
  {
    if a == [] {
      assert a + [c] + b == [c] + b;
      assert ([c] + b)[1..] == b;
    } else {
      var s := a + [c] + b;
      assert s[0] == a[0];
      assert s[1..] == a[1..] + [c] + b;
      SplitAtFirstPair(a[1..], c, b);
      assert [a[0]] + a[1..] == a;
    }
  }

  lemma QuoteByteDecodes(b: byte, rest: string)
    ensures PercentDecode(QuoteByte(b) + rest) == [b] + PercentDecode(rest)
  {
    var q := QuoteByte(b);
    var s := q + rest;
    if IsUnreservedByte(b) {
      assert s[0] == (b as int) as char && s[1..] == rest;
    } else if b == 0x20 {
      assert s[0] == '+' && s[1..] == rest;
    } else {
      HexDigitValue(b as int / 16);
      HexDigitValue(b as int % 16);
      assert s[0] == '%' && s[1] == q[1] && s[2] == q[2] && s[3..] == rest;
    }
  }

  /** Percent-decoding undoes `quote_plus` on bytes. */
  lemma {:induction false} QuoteBytesDecode(bs: seq<byte>)
    ensures PercentDecode(QuoteBytes(bs)) == bs
  {
    if bs != [] {
      QuoteByteDecodes(bs[0], QuoteBytes(bs[1..]));
      QuoteBytesDecode(bs[1..]);
      assert [bs[0]] + bs[1..] == bs;
    }
  }

  /** Decoding a component gives back the string `quote_plus` encoded. */
  lemma QuotePlusRoundTrip(s: string)
    ensures DecodeComponent(QuotePlus(s)) == Some(s)
  {
    QuoteBytesDecode(Utf8(s));
    Utf8RoundTrip(s);
  }

  lemma EncodedHasNo(s: string, c: char)
    requires IsEncoded(s) && !IsEncodedChar(c)
    ensures c !in s
  {
  }

  /** One encoded pair is a non-empty piece that splits at its `=` into the
      two encoded components, which decode to the pair. */
  lemma ParseEncodedPair(p: (string, string))
    ensures var e := EncodePair(p);
      && e != ""
      && SplitAtFirst(e, '=') == (QuotePlus(p.0), QuotePlus(p.1))
      && DecodeComponent(QuotePlus(p.0)) == Some(p.0)
      && DecodeComponent(QuotePlus(p.1)) == Some(p.1)
  {
    var k := QuotePlus(p.0);
    var v := QuotePlus(p.1);
    EncodedHasNo(k, '=');
    SplitAtFirstPair(k, '=', v);
    assert EncodePair(p) == k + ['='] + v;
    QuotePlusRoundTrip(p.0);
    QuotePlusRoundTrip(p.1);
  }

  lemma {:induction false} ParseEncodedPairs(pairs: seq<(string, string)>)
    ensures ParsePieces(EncodePairs(pairs)) == Some(pairs)
  {
    if pairs != [] {
      var e := EncodePairs(pairs);
      assert e[1..] == EncodePairs(pairs[1..]);
      ParseEncodedPairs(pairs[1..]);
      ParseEncodedPair(pairs[0]);
      assert e[0] == EncodePair(pairs[0]);
      assert [pairs[0]] + pairs[1..] == pairs;
    }
  }

  /** The serialisation is lossless: parsing it as the URL Standard
      prescribes recovers every pair, in order. */
  lemma UrlencodeRoundTrip(pairs: seq<(string, string)>)
    ensures ParseQuery(Urlencode(pairs)) == Some(pairs)
  {
    var e := EncodePairs(pairs);
    if pairs == [] {
      assert Urlencode(pairs) == "";
    } else {
      forall i | 0 <= i < |e| ensures '&' !in e[i] {
        EncodedHasNo(QuotePlus(pairs[i].0), '&');
        EncodedHasNo(QuotePlus(pairs[i].1), '&');
      }
      SplitJoin(e, '&');
    }
    ParseEncodedPairs(pairs);
  }

  lemma {:induction false} QuoteBytesAppend(a: seq<byte>, b: seq<byte>)
    ensures QuoteBytes(a + b) == QuoteBytes(a) + QuoteBytes(b)
  {
    if a != [] {
      assert (a + b)[0] == a[0];
      assert (a + b)[1..] == a[1..] + b;
      QuoteBytesAppend(a[1..], b);
      calc {
        QuoteBytes(a + b);
        QuoteByte(a[0]) + QuoteBytes(a[1..] + b);
        QuoteByte(a[0]) + (QuoteBytes(a[1..]) + QuoteBytes(b));
        (QuoteByte(a[0]) + QuoteBytes(a[1..])) + QuoteBytes(b);
      }
    } else {
      assert a + b == b;
    }
  }

  /** Quoting works piece by piece: the encoding of a concatenation is the
      concatenation of the encodings. */
  lemma QuotePlusAppend(a: string, b: string)
    ensures QuotePlus(a + b) == QuotePlus(a) + QuotePlus(b)
  {
    Utf8Append(a, b);
    QuoteBytesAppend(Utf8(a), Utf8(b));
  }

  /** A single pair serialises as its two encoded halves joined by `=`. */
  lemma UrlencodeSingle(k: string, v: string)
    ensures Urlencode([(k, v)]) == QuotePlus(k) + "=" + QuotePlus(v)
  {
    assert EncodePairs([(k, v)]) == [EncodePair((k, v))];
  }

  /** Two pairs serialise as their encodings joined by `&`. */
  lemma UrlencodeTwo(k1: string, v1: string, k2: string, v2: string)
    ensures Urlencode([(k1, v1), (k2, v2)])
            == QuotePlus(k1) + "=" + QuotePlus(v1) + "&" + QuotePlus(k2) + "=" + QuotePlus(v2)
  {
    var e := EncodePairs([(k1, v1), (k2, v2)]);
    assert e == [EncodePair((k1, v1)), EncodePair((k2, v2))];
    assert e[1..] == [e[1]];
    assert Join(e, '&') == e[0] + ['&'] + e[1];
  }

  /** Letters, digits, `-`, `.`, `_` and `~` pass through unchanged. */
  lemma {:induction false} UnreservedUnchanged(s: string)
    requires forall i :: 0 <= i < |s| ==> IsUnreservedChar(s[i])
    ensures QuotePlus(s) == s
  {
    if s != [] {
      UnreservedUnchanged(s[1..]);
      var b := Utf8Char(s[0]);
      assert b == [(s[0] as int) as byte];
      assert QuoteByte(b[0]) == [s[0]];
      assert Utf8(s) == b + Utf8(s[1..]);
      assert QuoteBytes(b + Utf8(s[1..])) == QuoteByte(b[0]) + QuoteBytes(Utf8(s[1..])) by {
        assert (b + Utf8(s[1..]))[1..] == Utf8(s[1..]);
      }
      assert [s[0]] + s[1..] == s;
    }
  }

  /** Any other ASCII character but a space becomes `%` and its two
      upper-case hexadecimal digits. */
  lemma ReservedAsciiEscaped(c: char)
    requires (c as int) < 0x80 && !IsUnreservedChar(c) && c != ' '
    ensures QuotePlus([c]) == ['%', HexDigit(c as int / 16), HexDigit(c as int % 16)]
  {
    var b := (c as int) as byte;
    assert Utf8([c]) == [b];
    assert !IsUnreservedByte(b) && b != 0x20;
    assert QuoteBytes([b]) == QuoteByte(b);
  }

  lemma ColonAndSlash()
    ensures QuotePlus(":") == "%3A"
    ensures QuotePlus("/") == "%2F"
  {
    ReservedAsciiEscaped(':');
    ReservedAsciiEscaped('/');
  }

  /** A space becomes `+`, and a literal `+` is escaped so the two stay apart. */
  lemma SpaceAndPlus()
    ensures QuotePlus(" ") == "+"
    ensures QuotePlus("+") == "%2B"
  {
    assert Utf8(" ") == [0x20 as byte];
    ReservedAsciiEscaped('+');
  }

  /** Characters outside ASCII are written as the escapes of their UTF-8 bytes:
      nothing of them passes through. */
  lemma NonAsciiEscaped(c: char)
    requires (c as int) >= 0x80
    ensures |QuotePlus([c])| == 3 * |Utf8Char(c)|
    ensures QuotePlus([c])[0] == '%'
  {
    var b := Utf8Char(c);
    assert Utf8([c]) == b;
    NonAsciiBytesEscaped(b);
  }

  lemma {:induction false} NonAsciiBytesEscaped(b: seq<byte>)
    requires forall i :: 0 <= i < |b| ==> b[i] >= 0x80
    ensures |QuoteBytes(b)| == 3 * |b|
    ensures b != [] ==> QuoteBytes(b)[0] == '%'
  {
    if b != [] {
      NonAsciiBytesEscaped(b[1..]);
    }
  }
}
