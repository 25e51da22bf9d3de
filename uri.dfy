/** The global `encodeURI` and `decodeURIComponent` functions of ECMAScript,
    as far as the storage URLs need them: `encodeURI` keeps ASCII letters,
    digits and `;/?:@&=+$,-_.!~*'()#` and writes every other character as
    the `%XY` escapes of its UTF-8 bytes, with upper-case hexadecimal
    digits; `decodeURIComponent` turns every well-formed run of escapes back
    into its character and fails on anything else. Strings are sequences of
    Unicode scalar values, which is what a JavaScript string without lone
    surrogates denotes. */
module Uri {
  import opened Wrappers

  /** The characters `encodeURI` writes as they are. */
  predicate Kept(c: char) {
    || ('a' <= c <= 'z') || ('A' <= c <= 'Z') || ('0' <= c <= '9')
    || c in ";/?:@&=+$,-_.!~*'()#"
  }

  /** Every character of `s` is kept. */
  predicate AllKept(s: string) {
    forall i :: 0 <= i < |s| ==> Kept(s[i])
  }

  // ---------------------------------------------------------------------
  // Encoding

  /** The UTF-8 bytes of a character, its code point cut into six-bit
      groups below a lead byte that tells how many follow. */
  function Utf8(c: char): (r: seq<nat>)
    ensures 1 <= |r| <= 4
    ensures forall i :: 0 <= i < |r| ==> r[i] < 256
  {
    var n := c as int;
    var q1 := n / 64;
    var q2 := q1 / 64;
    if n < 0x80 then [n]
    else if n < 0x800 then [0xC0 + q1, 0x80 + n % 64]
    else if n < 0x10000 then [0xE0 + q2, 0x80 + q1 % 64, 0x80 + n % 64]
    else [0xF0 + q2 / 64, 0x80 + q2 % 64, 0x80 + q1 % 64, 0x80 + n % 64]
  }

  /** The upper-case hexadecimal digit of a value below 16. */
  function HexDigit(k: nat): (c: char)
    requires k < 16
    ensures HexChar(c)
  {
    if k < 10 then ('0' as int + k) as char else ('A' as int + k - 10) as char
  }

  predicate HexChar(c: char) {
    ('0' <= c <= '9') || ('A' <= c <= 'F')
  }

  /** `%XY` for one byte. */
  function Escape(b: nat): (r: string)
    requires b < 256
    ensures |r| == 3
  {
    ['%', HexDigit(b / 16), HexDigit(b % 16)]
  }

  function EscapeBytes(bs: seq<nat>): (r: string)
    requires forall i :: 0 <= i < |bs| ==> bs[i] < 256
    ensures |r| == 3 * |bs|
  {
    if bs == [] then [] else Escape(bs[0]) + EscapeBytes(bs[1..])
  }

  /** What `encodeURI` writes for one character. */
  function EncodeChar(c: char): (r: string)
    ensures Kept(c) ==> r == [c]
    ensures !Kept(c) ==> |r| >= 3 && r[0] == '%'
  {
    if Kept(c) then [c] else EscapeBytes(Utf8(c))
  }

  /** `encodeURI`. */
  function EncodeUri(s: string): (r: string)
    ensures |r| >= |s|
  {
    if s == [] then [] else EncodeChar(s[0]) + EncodeUri(s[1..])
  }

  // ---------------------------------------------------------------------
  // Decoding

  /** The value of a hexadecimal digit of either case. */
  function HexValue(c: char): (r: Option<nat>)
    ensures r.Some? ==> r.value < 16
  {
    if '0' <= c <= '9' then Some(c as int - '0' as int)
    else if 'A' <= c <= 'F' then Some(c as int - 'A' as int + 10)
    else if 'a' <= c <= 'f' then Some(c as int - 'a' as int + 10)
    else None
  }

  /** The byte a `%XY` escape at position `i` stands for. */
  function EscapedByte(s: string, i: nat): (r: Option<nat>)
    ensures r.Some? ==> i + 3 <= |s| && r.value < 256
  {
    if i + 3 <= |s| && s[i] == '%' && HexValue(s[i + 1]).Some? && HexValue(s[i + 2]).Some?
    then Some(16 * HexValue(s[i + 1]).value + HexValue(s[i + 2]).value)
    else None
  }

  /** The six payload bits of a continuation byte escaped at `i`. */
  function Continuation(s: string, i: nat): (r: Option<nat>)
    ensures r.Some? ==> i + 3 <= |s| && r.value < 64
  {
    var b := EscapedByte(s, i);
    if b.Some? && 0x80 <= b.value < 0xC0 then Some(b.value - 0x80) else None
  }

  /** The character the escapes at the start of `s` encode and how many
      characters of `s` they take; nothing when they are not well-formed
      UTF-8 (a missing or stray continuation, an overlong form, a
      surrogate, a code point past U+10FFFF). */
  function DecodeFirst(s: string): (r: Option<(char, nat)>)
    ensures r.Some? ==> 3 <= r.value.1 <= |s|
  {
    var b0 := EscapedByte(s, 0);
    if b0.None? then None
    else if b0.value < 0x80 then Some((b0.value as char, 3))
    else if 0xC0 <= b0.value < 0xE0 then DecodeTwo(s, b0.value)
    else if 0xE0 <= b0.value < 0xF0 then DecodeThree(s, b0.value)
    else if 0xF0 <= b0.value < 0xF8 then DecodeFour(s, b0.value)
    else None
  }

  /** A two-byte sequence led by `lead`. */
  function DecodeTwo(s: string, lead: nat): (r: Option<(char, nat)>)
    requires 0xC0 <= lead < 0xE0
    ensures r.Some? ==> r.value.1 == 6 <= |s|
  {
    var x1 := Continuation(s, 3);
    if x1.None? then None
    else
      var n := (lead - 0xC0) * 64 + x1.value;
      if n < 0x80 then None else Some((n as char, 6))
  }

  /** A three-byte sequence led by `lead`. */
  function DecodeThree(s: string, lead: nat): (r: Option<(char, nat)>)
    requires 0xE0 <= lead < 0xF0
    ensures r.Some? ==> r.value.1 == 9 <= |s|
  {
    var x1, x2 := Continuation(s, 3), Continuation(s, 6);
    if x1.None? || x2.None? then None
    else
      var n := ((lead - 0xE0) * 64 + x1.value) * 64 + x2.value;
      if n < 0x800 || 0xD800 <= n < 0xE000 then None else Some((n as char, 9))
  }

  /** A four-byte sequence led by `lead`. */
  function DecodeFour(s: string, lead: nat): (r: Option<(char, nat)>)
    requires 0xF0 <= lead < 0xF8
    ensures r.Some? ==> r.value.1 == 12 <= |s|
  {
    var x1, x2, x3 := Continuation(s, 3), Continuation(s, 6), Continuation(s, 9);
    if x1.None? || x2.None? || x3.None? then None
    else
      var n := (((lead - 0xF0) * 64 + x1.value) * 64 + x2.value) * 64 + x3.value;
      if n < 0x10000 || n > 0x10FFFF then None else Some((n as char, 12))
  }

  /** `decodeURIComponent`: every escape run decoded, every other character
      kept; nothing (a `URIError`) when some `%` does not start a
      well-formed run. */
  function DecodeUriComponent(s: string): (r: Option<string>)
    decreases |s|
  {
    if s == [] then Some([])
    else if s[0] != '%' then
      var rest := DecodeUriComponent(s[1..]);
      if rest.None? then None else Some([s[0]] + rest.value)
    else
      match DecodeFirst(s)
      case None => None
      case Some((c, k)) =>
        var rest := DecodeUriComponent(s[k..]);
        if rest.None? then None else Some([c] + rest.value)
  }

  // ---------------------------------------------------------------------
  // Properties

  lemma HexRoundTrip(k: nat)
    requires k < 16
    ensures HexValue(HexDigit(k)) == Some(k)
  {
  }

  /** An escape written at `i` reads back as its byte. */
  lemma EscapedByteAt(s: string, i: nat, b: nat)
    requires b < 256 && i + 3 <= |s| && s[i..i + 3] == Escape(b)
    ensures EscapedByte(s, i) == Some(b)
  {
    assert s[i] == '%' && s[i + 1] == HexDigit(b / 16) && s[i + 2] == HexDigit(b % 16) by {
      assert s[i..i + 3][0] == s[i] && s[i..i + 3][1] == s[i + 1] && s[i..i + 3][2] == s[i + 2];
    }
    HexRoundTrip(b / 16);
    HexRoundTrip(b % 16);
  }

  /** The `k`-th escape of a run is the escape of the `k`-th byte. */
  lemma {:induction false} EscapeBytesSlice(bs: seq<nat>, k: nat)
    requires forall i :: 0 <= i < |bs| ==> bs[i] < 256
    requires k < |bs|
    ensures EscapeBytes(bs)[3 * k..3 * k + 3] == Escape(bs[k])
  {
    var e := EscapeBytes(bs);
    if k > 0 {
      EscapeBytesSlice(bs[1..], k - 1);
      assert e[3 * k..3 * k + 3] == EscapeBytes(bs[1..])[3 * (k - 1)..3 * (k - 1) + 3];
    }
  }

  /** The `k`-th escape of a run, read from the front of any text, gives
      the `k`-th byte. */
  lemma EscapedByteOfRun(bs: seq<nat>, rest: string, k: nat)
    requires forall i :: 0 <= i < |bs| ==> bs[i] < 256
    requires k < |bs|
    ensures EscapedByte(EscapeBytes(bs) + rest, 3 * k) == Some(bs[k])
  {
    var e := EscapeBytes(bs);
    var s := e + rest;
    EscapeBytesSlice(bs, k);
    assert s[3 * k..3 * k + 3] == e[3 * k..3 * k + 3];
    EscapedByteAt(s, 3 * k, bs[k]);
  }

  lemma DecodeTwoOfEscaped(c: char, rest: string)
    requires 0x80 <= c as int < 0x800
    ensures DecodeFirst(EscapeBytes(Utf8(c)) + rest) == Some((c, 6))
  {
    var bs := Utf8(c);
    var s := EscapeBytes(bs) + rest;
    var n := c as int;
    EscapedByteOfRun(bs, rest, 0);
    EscapedByteOfRun(bs, rest, 1);
    assert Continuation(s, 3) == Some(n % 64);
    assert n == (n / 64) * 64 + n % 64;
  }

  lemma DecodeThreeOfEscaped(c: char, rest: string)
    requires 0x800 <= c as int < 0x10000
    ensures DecodeFirst(EscapeBytes(Utf8(c)) + rest) == Some((c, 9))
  {
    var bs := Utf8(c);
    var s := EscapeBytes(bs) + rest;
    var n := c as int;
    var q1 := n / 64;
    EscapedByteOfRun(bs, rest, 0);
    EscapedByteOfRun(bs, rest, 1);
    EscapedByteOfRun(bs, rest, 2);
    assert Continuation(s, 3) == Some(q1 % 64) && Continuation(s, 6) == Some(n % 64);
    assert n == q1 * 64 + n % 64;
    assert q1 == (q1 / 64) * 64 + q1 % 64;
  }

  lemma DecodeFourOfEscaped(c: char, rest: string)
    requires 0x10000 <= c as int
    ensures DecodeFirst(EscapeBytes(Utf8(c)) + rest) == Some((c, 12))
  {
    var bs := Utf8(c);
    var s := EscapeBytes(bs) + rest;
    var n := c as int;
    var q1 := n / 64;
    var q2 := q1 / 64;
    EscapedByteOfRun(bs, rest, 0);
    EscapedByteOfRun(bs, rest, 1);
    EscapedByteOfRun(bs, rest, 2);
    EscapedByteOfRun(bs, rest, 3);
    assert Continuation(s, 3) == Some(q2 % 64) && Continuation(s, 6) == Some(q1 % 64);
    assert Continuation(s, 9) == Some(n % 64);
    assert n == q1 * 64 + n % 64;
    assert q1 == q2 * 64 + q1 % 64;
    assert q2 == (q2 / 64) * 64 + q2 % 64;
  }

  /** The escapes of a character, read back from the front of any text,
      give the character and their own length. */
  lemma DecodeFirstOfEscaped(c: char, rest: string)
    ensures var e := EscapeBytes(Utf8(c));
      DecodeFirst(e + rest) == Some((c, |e|))
  {
    var n := c as int;
    if n < 0x80 {
      EscapedByteOfRun(Utf8(c), rest, 0);
    } else if n < 0x800 {
      DecodeTwoOfEscaped(c, rest);
    } else if n < 0x10000 {
      DecodeThreeOfEscaped(c, rest);
    } else {
      DecodeFourOfEscaped(c, rest);
    }
  }

  /** `decodeURIComponent` undoes `encodeURI`, whatever the text. */
  lemma {:induction false} DecodeEncode(s: string)
    ensures DecodeUriComponent(EncodeUri(s)) == Some(s)
  {
    if s != [] {
      var e := EncodeChar(s[0]);
      var rest := EncodeUri(s[1..]);
      DecodeEncode(s[1..]);
      assert [s[0]] + s[1..] == s;
      assert EncodeUri(s) == e + rest;
      if Kept(s[0]) {
        assert (e + rest)[1..] == rest;
      } else {
        assert e == EscapeBytes(Utf8(s[0]));
        DecodeFirstOfEscaped(s[0], rest);
        assert (e + rest)[0] == '%';
        assert (e + rest)[|e|..] == rest;
        assert DecodeUriComponent(e + rest) == Some([s[0]] + DecodeUriComponent(rest).value);
      }
    }
  }

  lemma {:induction false} EncodeUriAppend(a: string, b: string)
    ensures EncodeUri(a + b) == EncodeUri(a) + EncodeUri(b)
  {
    if a != [] {
      assert (a + b)[0] == a[0] && (a + b)[1..] == a[1..] + b;
      EncodeUriAppend(a[1..], b);
      calc {
        EncodeUri(a + b);
        EncodeChar(a[0]) + EncodeUri(a[1..] + b);
        EncodeChar(a[0]) + (EncodeUri(a[1..]) + EncodeUri(b));
        (EncodeChar(a[0]) + EncodeUri(a[1..])) + EncodeUri(b);
        EncodeUri(a) + EncodeUri(b);
      }
    } else {
      assert a + b == b;
    }
  }

  /** `encodeURI` changes a text exactly when it holds a character it does
      not keep. */
  lemma {:induction false} EncodeUriIdentity(s: string)
    ensures EncodeUri(s) == s <==> AllKept(s)
  {
    if s != [] {
      EncodeUriIdentity(s[1..]);
      if AllKept(s) {
        assert AllKept(s[1..]) by {
          forall i | 0 <= i < |s[1..]| ensures Kept(s[1..][i]) {
            assert s[1..][i] == s[i + 1];
          }
        }
      } else if Kept(s[0]) {
        assert !AllKept(s[1..]) by {
          var i :| 0 <= i < |s| && !Kept(s[i]);
          assert s[1..][i - 1] == s[i];
        }
        assert EncodeUri(s)[1..] == EncodeUri(s[1..]);
      } else {
        assert |EncodeUri(s)| >= 3 + |s[1..]|;
      }
    }
  }

  lemma EscapeBytesChars(bs: seq<nat>)
    requires forall i :: 0 <= i < |bs| ==> bs[i] < 256
    ensures forall x :: x in EscapeBytes(bs) ==> x == '%' || HexChar(x)
    decreases |bs|
  {
    if bs != [] {
      EscapeBytesChars(bs[1..]);
      assert forall x :: x in EscapeBytes(bs) ==> x in Escape(bs[0]) || x in EscapeBytes(bs[1..]);
    }
  }

  /** The encoded text holds the kept characters of the text and, besides
      them, only `%` and hexadecimal digits. */
  lemma {:induction false} EncodeUriChars(s: string)
    ensures forall x :: x in EncodeUri(s) ==> (x in s && Kept(x)) || x == '%' || HexChar(x)
    ensures forall x :: x in s && Kept(x) ==> x in EncodeUri(s)
  {
    if s != [] {
      EncodeUriChars(s[1..]);
      var e := EncodeChar(s[0]);
      if !Kept(s[0]) {
        EscapeBytesChars(Utf8(s[0]));
      }
      assert forall x :: x in EncodeUri(s) <==> x in e || x in EncodeUri(s[1..]);
      assert forall x :: x in s <==> x == s[0] || x in s[1..];
    }
  }

  /** A kept character that is neither `%` nor a hexadecimal digit, such
      as `/`, `?` or `#`, is in the encoded text exactly when it is in the
      text. */
  lemma EncodeUriKeepsPunctuation(s: string, x: char)
    requires Kept(x) && x != '%' && !HexChar(x)
    ensures x in EncodeUri(s) <==> x in s
  {
    EncodeUriChars(s);
  }
}
