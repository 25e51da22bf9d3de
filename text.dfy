/** The JavaScript string operations the application relies on: `trim`,
    `includes`, `startsWith`, `slice(0, n)`, `split(sep).pop()`, the `||`
    fallback on strings, `Number.prototype.toString` on integers and
    `parseInt`. Strings are sequences of Unicode code points; where
    JavaScript counts UTF-16 code units (`length`, `slice`), `Utf16Length`
    and `Utf16Take` count them. */
module Text {
  import opened Wrappers

  /** ECMAScript WhiteSpace and LineTerminator code points: what `trim` and
      `parseInt` skip. */
  predicate IsJsSpace(c: char) {
    c == '\U{0009}' || c == '\U{000A}' || c == '\U{000B}' || c == '\U{000C}' ||
    c == '\U{000D}' || c == ' ' || c == '\U{00A0}' || c == '\U{1680}' ||
    ('\U{2000}' <= c <= '\U{200A}') || c == '\U{2028}' || c == '\U{2029}' ||
    c == '\U{202F}' || c == '\U{205F}' || c == '\U{3000}' || c == '\U{FEFF}'
  }

  /** Leading white space removed. */
  function TrimStart(s: string): (r: string)
    ensures |r| <= |s|
    ensures r == [] || !IsJsSpace(r[0])
    ensures forall i :: 0 <= i < |s| - |r| ==> IsJsSpace(s[i])
  {
    if |s| > 0 && IsJsSpace(s[0]) then TrimStart(s[1..]) else s
  }

  /** Trailing white space removed. */
  function TrimEnd(s: string): (r: string)
    ensures |r| <= |s|
    ensures r == [] || !IsJsSpace(r[|r| - 1])
    ensures forall i :: |r| <= i < |s| ==> IsJsSpace(s[i])
  {
    if |s| > 0 && IsJsSpace(s[|s| - 1]) then TrimEnd(s[..|s| - 1]) else s
  }

  /** What `TrimStart` keeps is the end of its input. */
  lemma {:induction false} TrimStartIsSuffix(s: string)
    ensures TrimStart(s) == s[|s| - |TrimStart(s)|..]
    decreases |s|
  {
    if |s| > 0 && IsJsSpace(s[0]) {
      TrimStartIsSuffix(s[1..]);
    }
  }

  /** What `TrimEnd` keeps is the start of its input. */
  lemma {:induction false} TrimEndIsPrefix(s: string)
    ensures TrimEnd(s) == s[..|TrimEnd(s)|]
    decreases |s|
  {
    if |s| > 0 && IsJsSpace(s[|s| - 1]) {
      TrimEndIsPrefix(s[..|s| - 1]);
    }
  }

  /** `String.prototype.trim`. */
  function Trim(s: string): (r: string)
  {
    TrimEnd(TrimStart(s))
  }

  /** The trimmed string is a contiguous piece of the input whose two ends
      are not white space. */
  lemma TrimIsTrimmedInfix(s: string)
    ensures var r := Trim(s);
      && r == s[|s| - |TrimStart(s)|..|s| - |TrimStart(s)| + |r|]
      && (r == [] || (!IsJsSpace(r[0]) && !IsJsSpace(r[|r| - 1])))
  {
    var t := TrimStart(s);
    var r := TrimEnd(t);
    TrimStartIsSuffix(s);
    TrimEndIsPrefix(t);
    if r != [] {
      assert r[0] == t[0];
    }
  }

  /** A string whose ends are not white space is its own trim. */
  lemma TrimOfTrimmed(s: string)
    requires s == [] || (!IsJsSpace(s[0]) && !IsJsSpace(s[|s| - 1]))
    ensures Trim(s) == s
  {
  }

  /** Trimming twice is trimming once. */
  lemma TrimIdempotent(s: string)
    ensures Trim(Trim(s)) == Trim(s)
  {
    TrimIsTrimmedInfix(s);
    TrimOfTrimmed(Trim(s));
  }

  /** A string is blank when its trim is empty (`!s.trim()`). */
  predicate IsBlank(s: string) {
    Trim(s) == []
  }

  /** Blank means every character is white space. */
  lemma BlankIffAllSpace(s: string)
    ensures IsBlank(s) <==> forall i :: 0 <= i < |s| ==> IsJsSpace(s[i])
  {
    var t := TrimStart(s);
    TrimStartIsSuffix(s);
    if |t| > 0 {
      assert t[0] == s[|s| - |t|];
    }
    forall i | |s| - |t| <= i < |s|
      ensures s[i] == t[i - (|s| - |t|)]
    {
    }
  }

  /** JavaScript `a || b` on two strings: the empty string is falsy. */
  function OrElse(a: string, b: string): (r: string)
    ensures r == if a != "" then a else b
  {
    if a != "" then a else b
  }

  /** `a || b` where `a` may be absent (`undefined`). */
  function OptOrElse(a: Option<string>, b: string): (r: string)
    ensures a.Some? && a.value != "" ==> r == a.value
    ensures (a.None? || a.value == "") ==> r == b
  {
    if a.Some? && a.value != "" then a.value else b
  }

  /** `s.startsWith(p)`. */
  predicate StartsWith(s: string, p: string) {
    |p| <= |s| && s[..|p|] == p
  }

  /** `s.includes(sub)`: `sub` occurs at some position of `s`. */
  predicate Contains(s: string, sub: string)
    decreases |s|
  {
    StartsWith(s, sub) || (|s| > 0 && Contains(s[1..], sub))
  }

  /** `sub` occurs in `s` at position `k`. */
  predicate OccursAt(s: string, sub: string, k: int) {
    0 <= k && k + |sub| <= |s| && s[k..k + |sub|] == sub
  }

  /** `includes` holds exactly when there is a position where `sub` occurs. */
  lemma {:induction false} ContainsIffOccurs(s: string, sub: string)
    ensures Contains(s, sub) <==> exists k :: OccursAt(s, sub, k)
    decreases |s|
  {
    if StartsWith(s, sub) {
      assert OccursAt(s, sub, 0);
    } else if |s| > 0 {
      ContainsIffOccurs(s[1..], sub);
      if exists k :: OccursAt(s, sub, k) {
        var k :| OccursAt(s, sub, k);
        assert k != 0;
        assert OccursAt(s[1..], sub, k - 1);
      }
      if Contains(s[1..], sub) {
        var k :| OccursAt(s[1..], sub, k);
        assert OccursAt(s, sub, k + 1);
      }
    }
  }

  /** A string starting with `p` contains `p`. */
  lemma PrefixContained(s: string, p: string, rest: string)
    requires s == p + rest
    ensures Contains(s, p)
  {
    assert s[..|p|] == p;
  }

  /** The empty string is contained in every string. */
  lemma ContainsEmpty(s: string)
    ensures Contains(s, "")
  {
    assert s[..0] == "";
  }

  /** `s.slice(0, n)` for a non-negative `n`. */
  function Take(s: string, n: nat): (r: string)
    ensures |r| == if n < |s| then n else |s|
    ensures r == s[..|r|]
  {
    if n < |s| then s[..n] else s
  }

  /** The UTF-16 code units of one code point: a surrogate pair above
      U+FFFF, one unit otherwise. */
  function Units(c: char): nat {
    if c > '\U{FFFF}' then 2 else 1
  }

  /** `s.length`: the number of UTF-16 code units. */
  function Utf16Length(s: string): (n: nat)
    ensures |s| <= n <= 2 * |s|
  {
    if s == [] then 0 else Units(s[0]) + Utf16Length(s[1..])
  }

  /** Text within the Basic Multilingual Plane has one code unit per
      character, and text wholly above it has two. */
  lemma {:induction false} Utf16LengthOfPlanes(s: string)
    ensures (forall i :: 0 <= i < |s| ==> s[i] <= '\U{FFFF}') ==> Utf16Length(s) == |s|
    ensures (forall i :: 0 <= i < |s| ==> s[i] > '\U{FFFF}') ==> Utf16Length(s) == 2 * |s|
    ensures Utf16Length(s) == |s| ==> forall i :: 0 <= i < |s| ==> s[i] <= '\U{FFFF}'
  {
    if s != [] {
      Utf16LengthOfPlanes(s[1..]);
      assert forall i :: 1 <= i < |s| ==> s[i] == s[1..][i - 1];
    }
  }

  /** Code units add up over a concatenation. */
  lemma {:induction false} Utf16LengthAppend(a: string, b: string)
    ensures Utf16Length(a + b) == Utf16Length(a) + Utf16Length(b)
  {
    if a != [] {
      assert (a + b)[0] == a[0] && (a + b)[1..] == a[1..] + b;
      Utf16LengthAppend(a[1..], b);
    } else {
      assert a + b == b;
    }
  }

  /** `s.slice(0, n)` counted in UTF-16 code units: the longest prefix whose
      code units fit in `n` (`Utf16TakeKeepsFittingPrefix`). A surrogate
      pair that the cut would split is left out whole. */
  function Utf16Take(s: string, n: nat): (r: string)
    ensures |r| <= |s| && r == s[..|r|]
    ensures Utf16Length(r) <= n
  {
    if s == [] || Units(s[0]) > n then []
    else
      var rest := Utf16Take(s[1..], n - Units(s[0]));
      assert s[1..][..|rest|] == rest;
      assert [s[0]] + rest == s[..1 + |rest|];
      assert ([s[0]] + rest)[0] == s[0] && ([s[0]] + rest)[1..] == rest;
      [s[0]] + rest
  }

  /** Every prefix whose code units fit in `n` is kept by the slice. */
  lemma {:induction false} Utf16TakeKeepsFittingPrefix(s: string, j: nat, n: nat)
    requires j <= |s| && Utf16Length(s[..j]) <= n
    ensures j <= |Utf16Take(s, n)|
  {
    if j > 0 {
      var u := Units(s[0]);
      assert s[..j][0] == s[0] && s[..j][1..] == s[1..][..j - 1];
      Utf16TakeKeepsFittingPrefix(s[1..], j - 1, n - u);
    }
  }

  /** A text that fits is kept whole, and a text that is cut loses the
      first character that would not fit. */
  lemma Utf16TakeWhole(s: string, n: nat)
    ensures Utf16Take(s, n) == s <==> Utf16Length(s) <= n
    ensures var r := Utf16Take(s, n); |r| < |s| ==> Utf16Length(s[..|r| + 1]) > n
  {
    var r := Utf16Take(s, n);
    assert s[..|s|] == s;
    if Utf16Length(s) <= n {
      Utf16TakeKeepsFittingPrefix(s, |s|, n);
    }
    if |r| < |s| && Utf16Length(s[..|r| + 1]) <= n {
      Utf16TakeKeepsFittingPrefix(s, |r| + 1, n);
    }
  }

  /** A larger budget keeps at least as much. */
  lemma Utf16TakeGrows(s: string, m: nat, n: nat)
    requires m <= n
    ensures |Utf16Take(s, m)| <= |Utf16Take(s, n)|
  {
    var a := Utf16Take(s, m);
    Utf16TakeKeepsFittingPrefix(s, |a|, n);
  }

  /** Within the Basic Multilingual Plane a code unit is a character, and
      the code-unit slice is the character slice. */
  lemma {:induction false} Utf16TakeOfBmp(s: string, n: nat)
    requires forall i :: 0 <= i < |s| ==> s[i] <= '\U{FFFF}'
    ensures Utf16Take(s, n) == Take(s, n)
  {
    if s != [] && n > 0 {
      assert forall i :: 0 <= i < |s[1..]| ==> s[1..][i] == s[i + 1];
      Utf16TakeOfBmp(s[1..], n - 1);
    }
  }

  /** `s.split(sep).pop()`: what follows the last `sep`, or all of `s` when
      `sep` does not occur. */
  function LastSegment(s: string, sep: char): (r: string)
    ensures |r| <= |s|
    ensures sep !in r
  {
    if s == [] then []
    else if s[|s| - 1] == sep then []
    else LastSegment(s[..|s| - 1], sep) + [s[|s| - 1]]
  }

  /** The last segment ends `s` and, unless it is all of `s`, follows a
      `sep`. */
  lemma {:induction false} LastSegmentIsSuffix(s: string, sep: char)
    ensures var r := LastSegment(s, sep);
      r == s[|s| - |r|..] && (|r| < |s| ==> s[|s| - |r| - 1] == sep)
  {
    if s != [] && s[|s| - 1] != sep {
      LastSegmentIsSuffix(s[..|s| - 1], sep);
    }
  }

  /** The last segment after appending `sep + tail` is `tail` when `tail`
      holds no `sep`. */
  lemma {:induction false} LastSegmentOfJoin(head: string, sep: char, tail: string)
    requires sep !in tail
    ensures LastSegment(head + [sep] + tail, sep) == tail
    decreases |tail|
  {
    var s := head + [sep] + tail;
    if tail != [] {
      assert s[..|s| - 1] == head + [sep] + tail[..|tail| - 1];
      LastSegmentOfJoin(head, sep, tail[..|tail| - 1]);
    }
  }

  // ---------------------------------------------------------------------
  // Integers: `n.toString()` and `parseInt`.

  predicate IsDigit(c: char) {
    '0' <= c <= '9'
  }

  function DigitChar(d: nat): (c: char)
    requires d < 10
    ensures IsDigit(c)
  {
    ['0', '1', '2', '3', '4', '5', '6', '7', '8', '9'][d]
  }

  function DigitValue(c: char): (d: nat)
    requires IsDigit(c)
    ensures d < 10
  {
    (c as int - '0' as int) as nat
  }

  /** Decimal digits of a natural number, most significant first. */
  function NatToString(n: nat): (r: string)
    ensures |r| > 0 && forall i :: 0 <= i < |r| ==> IsDigit(r[i])
  {
    if n < 10 then [DigitChar(n)] else NatToString(n / 10) + [DigitChar(n % 10)]
  }

  /** `Number.prototype.toString` on an integer. */
  function IntToString(i: int): (r: string)
  {
    if i < 0 then "-" + NatToString(-i) else NatToString(i)
  }

  /** The value of a string of decimal digits. */
  function DigitsValue(ds: string): nat
    requires forall i :: 0 <= i < |ds| ==> IsDigit(ds[i])
  {
    if ds == [] then 0 else DigitsValue(ds[..|ds| - 1]) * 10 + DigitValue(ds[|ds| - 1])
  }

  /** The longest prefix of decimal digits. */
  function LeadingDigits(s: string): (r: string)
    ensures |r| <= |s| && r == s[..|r|]
    ensures forall i :: 0 <= i < |r| ==> IsDigit(r[i])
    ensures |r| < |s| ==> !IsDigit(s[|r|])
  {
    if s != [] && IsDigit(s[0]) then [s[0]] + LeadingDigits(s[1..]) else []
  }

  predicate IsHexDigit(c: char) {
    IsDigit(c) || ('a' <= c <= 'f') || ('A' <= c <= 'F')
  }

  function HexDigitValue(c: char): (d: nat)
    requires IsHexDigit(c)
    ensures d < 16
  {
    if IsDigit(c) then DigitValue(c)
    else if 'a' <= c <= 'f' then (c as int - 'a' as int + 10) as nat
    else (c as int - 'A' as int + 10) as nat
  }

  /** The value of a string of hexadecimal digits. */
  function HexDigitsValue(ds: string): nat
    requires forall i :: 0 <= i < |ds| ==> IsHexDigit(ds[i])
  {
    if ds == [] then 0 else HexDigitsValue(ds[..|ds| - 1]) * 16 + HexDigitValue(ds[|ds| - 1])
  }

  /** The longest prefix of hexadecimal digits. */
  function LeadingHexDigits(s: string): (r: string)
    ensures |r| <= |s| && r == s[..|r|]
    ensures forall i :: 0 <= i < |r| ==> IsHexDigit(r[i])
    ensures |r| < |s| ==> !IsHexDigit(s[|r|])
  {
    if s != [] && IsHexDigit(s[0]) then [s[0]] + LeadingHexDigits(s[1..]) else []
  }

  /** After the sign, a `0x` or `0X` switches `parseInt` without a radix
      to base 16. */
  predicate HasHexPrefix(body: string) {
    |body| >= 2 && body[0] == '0' && (body[1] == 'x' || body[1] == 'X')
  }

  /** `parseInt(s)` without a radix: skip leading white space, read an
      optional sign, then, after a `0x` or `0X`, the longest run of
      hexadecimal digits, otherwise the longest run of decimal digits;
      `None` stands for `NaN` (no digit at all). */
  function ParseInt(s: string): (r: Option<int>)
  {
    var t := TrimStart(s);
    var negative := |t| > 0 && t[0] == '-';
    var body := if |t| > 0 && (t[0] == '-' || t[0] == '+') then t[1..] else t;
    var magnitude: Option<nat> :=
      if HasHexPrefix(body) then
        var hs := LeadingHexDigits(body[2..]);
        if hs == [] then None else Some(HexDigitsValue(hs))
      else
        var ds := LeadingDigits(body);
        if ds == [] then None else Some(DigitsValue(ds));
    if magnitude.None? then None
    else if negative then Some(-(magnitude.value as int))
    else Some(magnitude.value)
  }

  /** A hexadecimal page number is read as such: "0x2" is 2, "0X1f" is
      31, and "0x" alone, with no digit after the prefix, is `NaN`. */
  lemma ParseIntReadsHex()
    ensures ParseInt("0x2") == Some(2)
    ensures ParseInt("0X1f") == Some(31)
    ensures ParseInt("0x") == None
  {
    assert TrimStart("0x2") == "0x2";
    assert TrimStart("0X1f") == "0X1f";
    assert TrimStart("0x") == "0x";
    assert LeadingHexDigits("2") == "2";
    assert LeadingHexDigits("1f") == "1f";
    assert "1f"[..1] == "1";
  }

  lemma {:induction false} DigitsOfNat(n: nat)
    ensures DigitsValue(NatToString(n)) == n
  {
    if n >= 10 {
      var s := NatToString(n);
      assert s[..|s| - 1] == NatToString(n / 10);
      DigitsOfNat(n / 10);
    }
  }

  lemma AllDigitsLead(ds: string)
    requires forall i :: 0 <= i < |ds| ==> IsDigit(ds[i])
    ensures LeadingDigits(ds) == ds
  {
  }

  /** `parseInt(n.toString())` gives back `n`: the page number written into
      a URL is the page number read back from it. */
  lemma ParseIntToString(i: int)
    ensures ParseInt(IntToString(i)) == Some(i)
  {
    var s := IntToString(i);
    var n: nat := if i < 0 then -i else i;
    var digits := NatToString(n);
    assert TrimStart(s) == s;
    DigitsOfNat(n);
    AllDigitsLead(digits);
    assert !HasHexPrefix(digits) by {
      if |digits| >= 2 { assert IsDigit(digits[1]); }
    }
    if i < 0 {
      assert s[1..] == digits;
    } else {
      assert s[0] != '-' && s[0] != '+';
    }
  }

  // ---------------------------------------------------------------------
  // Ordering strings by code point, as `.order("name")` does under the
  // byte-order collation.

  /** `a` sorts before or equal to `b`: `a` is a prefix of `b`, or at the
      first position where they differ `a` has the smaller code point. */
  predicate LexLe(a: string, b: string)
    decreases |a|
  {
    a == [] || (b != [] && (a[0] < b[0] || (a[0] == b[0] && LexLe(a[1..], b[1..]))))
  }

  /** Any two strings are ordered one way or the other. */
  lemma {:induction false} LexLeTotal(a: string, b: string)
    ensures LexLe(a, b) || LexLe(b, a)
    decreases |a|
  {
    if a != [] && b != [] && a[0] == b[0] {
      LexLeTotal(a[1..], b[1..]);
    }
  }

  /** The order is transitive. */
  lemma {:induction false} LexLeTrans(a: string, b: string, c: string)
    requires LexLe(a, b) && LexLe(b, c)
    ensures LexLe(a, c)
    decreases |a|
  {
    if a != [] && a[0] == b[0] && b[0] == c[0] {
      LexLeTrans(a[1..], b[1..], c[1..]);
    }
  }

  /** Only equal strings are ordered both ways. */
  lemma {:induction false} LexLeAntisymmetric(a: string, b: string)
    requires LexLe(a, b) && LexLe(b, a)
    ensures a == b
    decreases |a|
  {
    if a != [] {
      LexLeAntisymmetric(a[1..], b[1..]);
      assert a == [a[0]] + a[1..] && b == [b[0]] + b[1..];
    }
  }
}
