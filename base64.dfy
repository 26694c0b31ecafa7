/**
 * The browser's `btoa` and `atob`. `btoa` writes the base64 of a string whose
 * characters are all below U+0100 (each character is one byte), following
 * section 4 of RFC 4648: the standard alphabet, with `=` padding. `atob` is
 * the WHATWG "forgiving-base64 decode": ASCII whitespace is ignored, one or
 * two trailing `=` are optional, and every other deviation is a failure
 * (here `None`; the browser throws). Bits left over in the last character are
 * ignored, as the forgiving decoder does.
 */
module Base64 {
  import opened Wrappers

  /** Every character fits in one byte, as `btoa` demands. */
  predicate IsLatin1(s: string) {
    forall k :: 0 <= k < |s| ==> s[k] as int < 256
  }

  /** The byte of a number below 256, counted up one at a time. */
  function ByteOf(n: nat): (b: bv8)
    requires n < 256
    ensures b as int == n
  {
    if n == 0 then 0 else ByteOf(n - 1) + 1
  }

  /** The byte of a character below U+0100. */
  function CharByte(c: char): (b: bv8)
    requires c as int < 256
    ensures b as int == c as int
  {
    ByteOf(c as int)
  }

  /** The character of a byte. */
  function ByteChar(b: bv8): (c: char)
    ensures c as int == b as int
  {
    b as char
  }

  // ---------------------------------------------------------------------------
  // The alphabet of section 4 of RFC 4648

  /** The character of a 6-bit value: `A`-`Z`, `a`-`z`, `0`-`9`, `+`, `/`. */
  function SextetChar(v: bv8): (c: char)
    requires v < 64
  {
    if v < 26 then ('A' as int + v as int) as char
    else if v < 52 then ('a' as int + (v as int - 26)) as char
    else if v < 62 then ('0' as int + (v as int - 52)) as char
    else if v == 62 then '+'
    else '/'
  }

  /** The 6-bit value of an alphabet character; `None` for any other character. */
  function SextetOf(c: char): (r: Option<bv8>)
    ensures r.Some? ==> r.value < 64 && SextetChar(r.value) == c
  {
    if 'A' <= c <= 'Z' then Some(ByteOf(c as int - 'A' as int))
    else if 'a' <= c <= 'z' then Some(ByteOf(c as int - 'a' as int + 26))
    else if '0' <= c <= '9' then Some(ByteOf(c as int - '0' as int + 52))
    else if c == '+' then Some(62)
    else if c == '/' then Some(63)
    else None
  }

  /** Every value has exactly one character, and reading it back gives the value. */
  lemma SextetRoundTrip(v: bv8)
    requires v < 64
    ensures SextetOf(SextetChar(v)) == Some(v)
  {
    var r := SextetOf(SextetChar(v));
    assert r.Some? && r.value as int == v as int;
  }

  /** Every value is a 6-bit value. */
  predicate AllSextets(v: seq<bv8>) {
    forall k :: 0 <= k < |v| ==> v[k] < 64
  }

  /** The characters of a run of 6-bit values. */
  function Chars(v: seq<bv8>): (r: string)
    requires AllSextets(v)
    ensures |r| == |v|
    ensures forall k :: 0 <= k < |v| ==> SextetOf(r[k]) == Some(v[k])
  {
    var r := seq(|v|, k requires 0 <= k < |v| => SextetChar(v[k]));
    assert forall k :: 0 <= k < |v| ==> SextetOf(r[k]) == Some(v[k]) by {
      forall k | 0 <= k < |v|
        ensures SextetOf(r[k]) == Some(v[k])
      {
        SextetRoundTrip(v[k]);
      }
    }
    r
  }

  // ---------------------------------------------------------------------------
  // Encoding

  /** The four 6-bit values of three bytes `a b c`, most significant bits first. */
  function Sextet0(a: bv8): (v: bv8)
    ensures v < 64
  {
    a >> 2
  }

  function Sextet1(a: bv8, b: bv8): (v: bv8)
    ensures v < 64
  {
    ((a & 3) << 4) | (b >> 4)
  }

  function Sextet2(b: bv8, c: bv8): (v: bv8)
    ensures v < 64
  {
    ((b & 15) << 2) | (c >> 6)
  }

  function Sextet3(c: bv8): (v: bv8)
    ensures v < 64
  {
    c & 63
  }

  /** How many 6-bit values `n` bytes give: four per group of three, two or three for a final one or two. */
  function EncodedLength(n: nat): nat {
    if n == 0 then 0 else if n == 1 then 2 else if n == 2 then 3 else 4 + EncodedLength(n - 3)
  }

  /**
   * The 6-bit values of a byte string, without padding: each group of three
   * bytes gives four values; a final one byte gives two, a final two bytes
   * three, with the missing bytes taken as zero.
   */
  function EncodeSextets(s: string): (v: seq<bv8>)
    requires IsLatin1(s)
    ensures AllSextets(v)
    ensures |v| == EncodedLength(|s|)
  {
    if |s| == 0 then []
    else if |s| == 1 then
      var a := CharByte(s[0]);
      [Sextet0(a), Sextet1(a, 0)]
    else if |s| == 2 then
      var a, b := CharByte(s[0]), CharByte(s[1]);
      [Sextet0(a), Sextet1(a, b), Sextet2(b, 0)]
    else
      var a, b, c := CharByte(s[0]), CharByte(s[1]), CharByte(s[2]);
      [Sextet0(a), Sextet1(a, b), Sextet2(b, c), Sextet3(c)] + EncodeSextets(s[3..])
  }

  /** The `=` characters that fill the last group up to four characters. */
  function Padding(rest: nat): string {
    if rest == 1 then "==" else if rest == 2 then "=" else ""
  }

  /** `q` groups of three bytes and `r` bytes more give four values per group and two or three for the rest. */
  lemma {:induction false} EncodedLengthOf(q: nat, r: nat)
    requires r < 3
    ensures EncodedLength(3 * q + r) == 4 * q + (if r == 0 then 0 else r + 1)
    decreases q
  {
    if q > 0 {
      EncodedLengthOf(q - 1, r);
      assert 3 * q + r - 3 == 3 * (q - 1) + r;
    }
  }

  /** Quotient and remainder by three, from a decomposition. */
  lemma DivThree(n: nat, q: nat, r: nat)
    requires n == 3 * q + r && r < 3
    ensures n / 3 == q && n % 3 == r
  {
  }

  /** Quotient and remainder by four, from a decomposition. */
  lemma DivFour(n: nat, q: nat, r: nat)
    requires n == 4 * q + r && r < 4
    ensures n / 4 == q && n % 4 == r
  {
  }

  /**
   * The length of an encoding: three bytes give four values, a final one or
   * two bytes give two or three, never one; with its padding an encoding is
   * four characters for every started group of three bytes.
   */
  lemma EncodedLengthClosed(n: nat)
    ensures EncodedLength(n) == 4 * (n / 3) + (if n % 3 == 0 then 0 else n % 3 + 1)
    ensures EncodedLength(n) % 4 != 1
    ensures EncodedLength(n) + |Padding(n % 3)| == 4 * ((n + 2) / 3)
    ensures (EncodedLength(n) + |Padding(n % 3)|) % 4 == 0
  {
    var q, r := n / 3, n % 3;
    EncodedLengthOf(q, r);
    var e := EncodedLength(n);
    if r == 0 {
      DivThree(n + 2, q, 2);
      DivFour(e, q, 0);
    } else if r == 1 {
      DivThree(n + 2, q + 1, 0);
      DivFour(e, q, 2);
      DivFour(e + 2, q + 1, 0);
    } else {
      DivThree(n + 2, q + 1, 1);
      DivFour(e, q, 3);
      DivFour(e + 1, q + 1, 0);
    }
  }

  /** `btoa(s)`: four characters for every started group of three bytes. */
  function Btoa(s: string): (r: string)
    requires IsLatin1(s)
    ensures |r| == 4 * ((|s| + 2) / 3)
    ensures |r| % 4 == 0
  {
    EncodedLengthClosed(|s|);
    Chars(EncodeSextets(s)) + Padding(|s| % 3)
  }

  // ---------------------------------------------------------------------------
  // Decoding

  /** The three bytes of four 6-bit values `v0 v1 v2 v3`; bits shifted past the top are dropped. */
  function Byte0(v0: bv8, v1: bv8): bv8 {
    (v0 << 2) | (v1 >> 4)
  }

  function Byte1(v1: bv8, v2: bv8): bv8 {
    (v1 << 4) | (v2 >> 2)
  }

  function Byte2(v2: bv8, v3: bv8): bv8 {
    (v2 << 6) | v3
  }

  /** How many bytes `m` 6-bit values give: three per group of four, one or two for a final two or three. */
  function DecodedLength(m: nat): nat {
    if m <= 1 then 0 else if m == 2 then 1 else if m == 3 then 2 else 3 + DecodedLength(m - 4)
  }

  /**
   * The bytes of a run of 6-bit values: four values give three bytes, a final
   * two give one byte and a final three give two; leftover low bits are
   * dropped. A lone final value gives nothing (`atob` rejects it beforehand).
   */
  function DecodeSextets(v: seq<bv8>): (s: string)
    ensures IsLatin1(s)
    ensures |s| == DecodedLength(|v|)
  {
    if |v| >= 4 then
      var head := [ByteChar(Byte0(v[0], v[1])), ByteChar(Byte1(v[1], v[2])), ByteChar(Byte2(v[2], v[3]))];
      var rest := DecodeSextets(v[4..]);
      assert forall k :: 0 <= k < |head| ==> head[k] as int < 256;
      head + rest
    else if |v| == 3 then
      [ByteChar(Byte0(v[0], v[1])), ByteChar(Byte1(v[1], v[2]))]
    else if |v| == 2 then
      [ByteChar(Byte0(v[0], v[1]))]
    else
      []
  }

  /** Decoding gives three bytes for every four values and one or two for a final two or three. */
  lemma {:induction false} DecodedLengthClosed(m: nat)
    requires m % 4 != 1
    ensures DecodedLength(m) == 3 * (m / 4) + (if m % 4 == 0 then 0 else m % 4 - 1)
    decreases m
  {
    if m >= 4 {
      DecodedLengthClosed(m - 4);
    }
  }

  /** ASCII whitespace: tab, line feed, form feed, carriage return and space. */
  predicate IsAsciiWhitespace(c: char) {
    c == '\t' || c == '\n' || c == '\U{000C}' || c == '\r' || c == ' '
  }

  /** The input with its ASCII whitespace removed. */
  function StripWhitespace(s: string): (r: string)
    ensures forall k :: 0 <= k < |r| ==> !IsAsciiWhitespace(r[k])
  {
    if s == [] then []
    else (if IsAsciiWhitespace(s[0]) then [] else [s[0]]) + StripWhitespace(s[1..])
  }

  /** One or two trailing `=` removed. */
  function StripPadding(s: string): (r: string)
    ensures |s| - 2 <= |r| <= |s| && r == s[..|r|]
    ensures forall k :: |r| <= k < |s| ==> s[k] == '='
  {
    if |s| >= 2 && s[|s| - 2..] == "==" then s[..|s| - 2]
    else if |s| >= 1 && s[|s| - 1] == '=' then s[..|s| - 1]
    else s
  }

  /** The 6-bit values of the characters, or `None` when one is outside the alphabet. */
  function Sextets(s: string): (r: Option<seq<bv8>>)
    ensures r.Some? <==> forall k :: 0 <= k < |s| ==> SextetOf(s[k]).Some?
    ensures r.Some? ==> (|r.value| == |s| && AllSextets(r.value)
      && forall k :: 0 <= k < |s| ==> SextetOf(s[k]) == Some(r.value[k]))
  {
    if s == [] then Some([])
    else
      match SextetOf(s[0])
      case None => None
      case Some(x) =>
        match Sextets(s[1..])
        case None => None
        case Some(rest) => Some([x] + rest)
  }

  /** `atob(s)`: the bytes as a string, or `None` where the browser throws. */
  function Atob(s: string): (r: Option<string>)
    ensures r.Some? ==> IsLatin1(r.value)
  {
    var t := StripWhitespace(s);
    var u := if |t| % 4 == 0 then StripPadding(t) else t;
    if |u| % 4 == 1 then None
    else
      match Sextets(u)
      case None => None
      case Some(v) => Some(DecodeSextets(v))
  }

  // ---------------------------------------------------------------------------
  // Round trip

  /** One group of three bytes survives encoding and decoding. */
  lemma GroupRoundTrip(a: bv8, b: bv8, c: bv8)
    ensures Byte0(Sextet0(a), Sextet1(a, b)) == a
    ensures Byte1(Sextet1(a, b), Sextet2(b, c)) == b
    ensures Byte2(Sextet2(b, c), Sextet3(c)) == c
  {
  }

  /** Decoding the values of an encoding gives the bytes back. */
  lemma {:induction false} DecodeEncode(s: string)
    requires IsLatin1(s)
    ensures DecodeSextets(EncodeSextets(s)) == s
    decreases |s|
  {
    if |s| == 0 {
    } else if |s| < 3 {
      DecodeEncodeTail(s);
    } else {
      DecodeHead(s);
      DecodeEncode(s[3..]);
      assert s == s[..3] + s[3..];
    }
  }

  /** A final group of one or two bytes survives encoding and decoding. */
  lemma DecodeEncodeTail(s: string)
    requires IsLatin1(s) && 1 <= |s| <= 2
    ensures DecodeSextets(EncodeSextets(s)) == s
  {
    var a := CharByte(s[0]);
    var v := EncodeSextets(s);
    if |s| == 1 {
      GroupRoundTrip(a, 0, 0);
      assert v == [Sextet0(a), Sextet1(a, 0)];
      var d := DecodeSextets(v);
      assert d == [ByteChar(Byte0(v[0], v[1]))];
      assert d[0] == s[0];
    } else {
      var b := CharByte(s[1]);
      GroupRoundTrip(a, b, 0);
      assert v == [Sextet0(a), Sextet1(a, b), Sextet2(b, 0)];
      var d := DecodeSextets(v);
      assert d == [ByteChar(Byte0(v[0], v[1])), ByteChar(Byte1(v[1], v[2]))];
      assert d[0] == s[0] && d[1] == s[1];
    }
  }

  /** A leading group of three bytes decodes to itself, ahead of the rest. */
  lemma DecodeHead(s: string)
    requires IsLatin1(s) && |s| >= 3
    ensures var v := EncodeSextets(s);
      |v| >= 4 && v[4..] == EncodeSextets(s[3..]) && DecodeSextets(v) == s[..3] + DecodeSextets(v[4..])
  {
    var a, b, c := CharByte(s[0]), CharByte(s[1]), CharByte(s[2]);
    var v := EncodeSextets(s);
    EncodeUnfold(s);
    GroupRoundTrip(a, b, c);
    DecodeUnfold(v);
    GroupChars(s, v);
  }

  /** The first four values of an encoding come from its first three bytes. */
  lemma EncodeUnfold(s: string)
    requires IsLatin1(s) && |s| >= 3
    ensures var v := EncodeSextets(s);
      var a, b, c := CharByte(s[0]), CharByte(s[1]), CharByte(s[2]);
      |v| >= 4 && v[4..] == EncodeSextets(s[3..])
      && v[0] == Sextet0(a) && v[1] == Sextet1(a, b) && v[2] == Sextet2(b, c) && v[3] == Sextet3(c)
  {
  }

  /** Four leading values decode to three bytes ahead of the rest. */
  lemma DecodeUnfold(v: seq<bv8>)
    requires |v| >= 4
    ensures DecodeSextets(v)
      == [ByteChar(Byte0(v[0], v[1])), ByteChar(Byte1(v[1], v[2])), ByteChar(Byte2(v[2], v[3]))] + DecodeSextets(v[4..])
  {
  }

  /** Three bytes recovered from their values give the leading group back. */
  lemma GroupChars(s: string, v: seq<bv8>)
    requires |s| >= 3 && |v| >= 4 && IsLatin1(s)
    requires Byte0(v[0], v[1]) == CharByte(s[0])
    requires Byte1(v[1], v[2]) == CharByte(s[1])
    requires Byte2(v[2], v[3]) == CharByte(s[2])
    ensures [ByteChar(Byte0(v[0], v[1])), ByteChar(Byte1(v[1], v[2])), ByteChar(Byte2(v[2], v[3]))] == s[..3]
  {
  }

  /** A string with no ASCII whitespace is left as it is. */
  lemma {:induction false} StripWhitespaceKeeps(s: string)
    requires forall k :: 0 <= k < |s| ==> !IsAsciiWhitespace(s[k])
    ensures StripWhitespace(s) == s
  {
    if s != [] {
      StripWhitespaceKeeps(s[1..]);
    }
  }

  /** The padding `btoa` adds is exactly what `atob` strips. */
  lemma StripBtoaPadding(s: string)
    requires IsLatin1(s)
    ensures StripPadding(Btoa(s)) == Chars(EncodeSextets(s))
  {
    var e := EncodeSextets(s);
    var body := Chars(e);
    if |body| > 0 {
      CharsAreNotPadding(e, |body| - 1);
    }
    StripPaddingOf(body, Padding(|s| % 3));
  }

  /** No written character is `=`. */
  lemma CharsAreNotPadding(v: seq<bv8>, k: nat)
    requires AllSextets(v) && k < |v|
    ensures Chars(v)[k] != '='
  {
    assert SextetOf(Chars(v)[k]).Some?;
  }

  /** Up to two `=` after a text that does not end in `=` are exactly what `StripPadding` removes. */
  lemma StripPaddingOf(body: string, pad: string)
    requires pad == "" || pad == "=" || pad == "=="
    requires body == [] || body[|body| - 1] != '='
    ensures StripPadding(body + pad) == body
  {
    if pad == "==" {
      StripTwo(body);
    } else if pad == "=" {
      StripOne(body);
    } else {
      assert body + pad == body;
    }
  }

  lemma StripTwo(body: string)
    ensures StripPadding(body + "==") == body
  {
    var r := body + "==";
    assert r[|r| - 2..] == "==";
    assert r[..|r| - 2] == body;
  }

  lemma StripOne(body: string)
    requires body == [] || body[|body| - 1] != '='
    ensures StripPadding(body + "=") == body
  {
    var r := body + "=";
    if |body| > 0 {
      assert r[|r| - 2..][0] == body[|body| - 1];
    }
    assert r[|r| - 1] == '=';
    assert r[..|r| - 1] == body;
  }

  /** `atob(btoa(s)) == s` for every string `btoa` accepts. */
  lemma AtobBtoa(s: string)
    requires IsLatin1(s)
    ensures Atob(Btoa(s)) == Some(s)
  {
    var e := EncodeSextets(s);
    var r := Btoa(s);
    BtoaHasNoWhitespace(s);
    StripWhitespaceKeeps(r);
    var t := StripWhitespace(r);
    assert t == r && |t| % 4 == 0;
    StripBtoaPadding(s);
    var u := StripPadding(t);
    EncodedLengthClosed(|s|);
    assert u == Chars(e) && |u| == EncodedLength(|s|) && |u| % 4 != 1;
    SextetsOfChars(e);
    assert Sextets(u) == Some(e);
    DecodeEncode(s);
  }

  /** `btoa` writes only alphabet characters and `=`. */
  lemma BtoaHasNoWhitespace(s: string)
    requires IsLatin1(s)
    ensures forall k :: 0 <= k < |Btoa(s)| ==> !IsAsciiWhitespace(Btoa(s)[k])
  {
    var e := EncodeSextets(s);
    var r := Btoa(s);
    forall k | 0 <= k < |r|
      ensures !IsAsciiWhitespace(r[k])
    {
      if k < |e| {
        assert r[k] == Chars(e)[k];
        assert SextetOf(r[k]).Some?;
      } else {
        assert r[k] == Padding(|s| % 3)[k - |e|];
      }
    }
  }

  /** Reading back the characters of a run of values gives the run. */
  lemma SextetsOfChars(v: seq<bv8>)
    requires AllSextets(v)
    ensures Sextets(Chars(v)) == Some(v)
  {
    var r := Sextets(Chars(v));
    assert r.Some?;
    assert |r.value| == |v|;
    assert forall k :: 0 <= k < |v| ==> r.value[k] == v[k];
    assert r.value == v;
  }

  /** A character that is neither whitespace, nor `=`, nor in the alphabet makes `atob` fail. */
  lemma AtobRejectsForeign(s: string, k: nat)
    requires k < |s| && !IsAsciiWhitespace(s[k]) && s[k] != '=' && SextetOf(s[k]).None?
    ensures Atob(s) == None
  {
    var t := StripWhitespace(s);
    StripWhitespaceKeepsChar(s, k);
    var j :| 0 <= j < |t| && t[j] == s[k];
    var u := if |t| % 4 == 0 then StripPadding(t) else t;
    assert j < |u| && u[j] == t[j];
  }

  /** A character that is not whitespace survives whitespace removal. */
  lemma {:induction false} StripWhitespaceKeepsChar(s: string, k: nat)
    requires k < |s| && !IsAsciiWhitespace(s[k])
    ensures exists j :: 0 <= j < |StripWhitespace(s)| && StripWhitespace(s)[j] == s[k]
  {
    var head := if IsAsciiWhitespace(s[0]) then [] else [s[0]];
    assert StripWhitespace(s) == head + StripWhitespace(s[1..]);
    if k == 0 {
      assert StripWhitespace(s)[0] == s[0];
    } else {
      StripWhitespaceKeepsChar(s[1..], k - 1);
      var j :| 0 <= j < |StripWhitespace(s[1..])| && StripWhitespace(s[1..])[j] == s[1..][k - 1];
      assert StripWhitespace(s)[|head| + j] == s[k];
    }
  }

  /** Test vectors of section 10 of RFC 4648: one byte, two bytes (padded), three bytes (unpadded). */
  lemma Rfc4648Vectors()
    ensures Btoa("") == ""
    ensures Btoa("f") == "Zg=="
    ensures Btoa("fo") == "Zm8="
    ensures Btoa("foo") == "Zm9v"
  {
    VectorF();
    VectorFo();
    VectorFoo();
  }

  lemma VectorF()
    ensures Btoa("f") == "Zg=="
  {
    assert EncodeSextets("f") == [25, 32];
    assert SextetChar(25) == 'Z' && SextetChar(32) == 'g';
    assert Chars([25, 32]) == "Zg";
  }

  lemma VectorFo()
    ensures Btoa("fo") == "Zm8="
  {
    assert EncodeSextets("fo") == [25, 38, 60];
    assert SextetChar(25) == 'Z' && SextetChar(38) == 'm' && SextetChar(60) == '8';
    assert Chars([25, 38, 60]) == "Zm8";
  }

  lemma VectorFoo()
    ensures Btoa("foo") == "Zm9v"
  {
    assert EncodeSextets("foo") == [25, 38, 61, 47];
    assert SextetChar(25) == 'Z' && SextetChar(38) == 'm' && SextetChar(61) == '9' && SextetChar(47) == 'v';
    assert Chars([25, 38, 61, 47]) == "Zm9v";
  }
}
