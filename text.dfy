/** String helpers of the reading tracker: number rendering (`String(n)`),
    `safeInt`, `trim`, ASCII `toLowerCase`, `includes`, the `mm:ss` timer
    display `fmtHM`, and `escapeHtml`. */
module Text {
  import opened Wrappers

  // ---- decimal numbers ----

  predicate IsDigit(c: char) { '0' <= c <= '9' }

  predicate AllDigits(s: string) { forall i :: 0 <= i < |s| ==> IsDigit(s[i]) }

  function DigitChar(d: nat): (c: char)
    requires d < 10
    ensures IsDigit(c) && c as int - '0' as int == d
  {
    ('0' as int + d) as char
  }

  /** The decimal digits of `n`, most significant first, without leading zeros. */
  function Digits(n: nat): (r: string)
    ensures |r| >= 1 && AllDigits(r)
    ensures r[0] == '0' ==> n == 0
    decreases n
  {
    if n < 10 then [DigitChar(n)] else Digits(n / 10) + [DigitChar(n % 10)]
  }

  /** `String(n)` for an integer `n` (JavaScript prints no exponent below 1e21). */
  function Decimal(n: int): string
  {
    if n < 0 then "-" + Digits(-n) else Digits(n)
  }

  /** The value of a string of decimal digits (the empty string is 0). */
  function DigitsValue(s: string): nat
    requires AllDigits(s)
  {
    if s == [] then 0
    else DigitsValue(s[..|s| - 1]) * 10 + (s[|s| - 1] as int - '0' as int)
  }

  /** Reading back the digits of `n` gives `n`. */
  lemma {:induction false} DigitsValueOfDigits(n: nat)
    ensures DigitsValue(Digits(n)) == n
    decreases n
  {
    if n >= 10 {
      var d := Digits(n);
      assert d[..|d| - 1] == Digits(n / 10);
      DigitsValueOfDigits(n / 10);
    }
  }

  /** A leading zero does not change the value of a digit string. */
  lemma {:induction false} LeadingZero(s: string)
    requires AllDigits(s)
    ensures DigitsValue("0" + s) == DigitsValue(s)
  {
    if s != [] {
      assert ("0" + s)[..|s|] == "0" + s[..|s| - 1];
      LeadingZero(s[..|s| - 1]);
    } else {
      assert "0" + s == "0";
      assert "0"[..0] == "";
    }
  }

  /** The number of leading decimal digits of `s`. */
  function LeadingDigits(s: string): (k: nat)
    ensures k <= |s| && AllDigits(s[..k])
    ensures k < |s| ==> !IsDigit(s[k])
  {
    if s == [] || !IsDigit(s[0]) then 0
    else
      var k := LeadingDigits(s[1..]);
      assert s[..k + 1] == [s[0]] + s[1..][..k];
      k + 1
  }

  // ---- whitespace, case, substrings ----

  /** The characters JavaScript's `String.prototype.trim` removes
      (WhiteSpace and LineTerminator of ECMAScript). */
  predicate IsJsSpace(c: char)
  {
    c == ' ' || c == '\t' || c == '\n' || c == '\r' || c == '\U{000B}' || c == '\U{000C}'
    || c == '\U{00A0}' || c == '\U{1680}' || ('\U{2000}' <= c <= '\U{200A}')
    || c == '\U{2028}' || c == '\U{2029}' || c == '\U{202F}' || c == '\U{205F}'
    || c == '\U{3000}' || c == '\U{FEFF}'
  }

  /** Number of whitespace characters at the start of `s`. */
  function SpacesBefore(s: string): (k: nat)
    ensures k <= |s|
    ensures forall i :: 0 <= i < k ==> IsJsSpace(s[i])
    ensures k < |s| ==> !IsJsSpace(s[k])
  {
    if s == [] || !IsJsSpace(s[0]) then 0 else SpacesBefore(s[1..]) + 1
  }

  /** Number of whitespace characters at the end of `s`. */
  function SpacesAfter(s: string): (k: nat)
    ensures k <= |s|
    ensures forall i :: |s| - k <= i < |s| ==> IsJsSpace(s[i])
    ensures k < |s| ==> !IsJsSpace(s[|s| - 1 - k])
  {
    if s == [] || !IsJsSpace(s[|s| - 1]) then 0 else SpacesAfter(s[..|s| - 1]) + 1
  }

  /** `s.trim()`. */
  function Trim(s: string): (r: string)
  {
    var t := s[SpacesBefore(s)..];
    t[..|t| - SpacesAfter(t)]
  }

  /** `trim` removes exactly the outer whitespace: the result is a slice of
      the input whose cut-off prefix and suffix are whitespace, it is empty
      exactly when the input is all whitespace, and it has no whitespace at
      either end. */
  lemma TrimSpec(s: string)
    ensures exists i, j :: 0 <= i <= j <= |s| && Trim(s) == s[i..j]
              && (forall k :: 0 <= k < i ==> IsJsSpace(s[k]))
              && (forall k :: j <= k < |s| ==> IsJsSpace(s[k]))
    ensures Trim(s) == "" <==> forall i :: 0 <= i < |s| ==> IsJsSpace(s[i])
    ensures Trim(s) != "" ==> !IsJsSpace(Trim(s)[0]) && !IsJsSpace(Trim(s)[|Trim(s)| - 1])
  {
    var a := SpacesBefore(s);
    var t := s[a..];
    var b := SpacesAfter(t);
    assert Trim(s) == s[a..|s| - b];
    forall k | |s| - b <= k < |s|
      ensures IsJsSpace(s[k])
    {
      assert s[k] == t[k - a];
    }
    if Trim(s) == "" {
      assert a == |s|;
    }
  }

  /** A string without whitespace at either end is its own trim. */
  lemma TrimNoOuterSpace(s: string)
    requires s != [] ==> !IsJsSpace(s[0]) && !IsJsSpace(s[|s| - 1])
    ensures Trim(s) == s
  {
  }

  /** ASCII part of `toLowerCase`. */
  function LowerChar(c: char): char
  {
    if 'A' <= c <= 'Z' then (c as int + 32) as char else c
  }

  /** `s.toLowerCase()` on the ASCII letters. */
  function Lower(s: string): (r: string)
  {
    seq(|s|, i requires 0 <= i < |s| => LowerChar(s[i]))
  }

  lemma LowerConcat(a: string, b: string)
    ensures Lower(a + b) == Lower(a) + Lower(b)
  {
  }

  /** `hay.includes(needle)`. */
  predicate Contains(hay: string, needle: string)
  {
    exists i | 0 <= i <= |hay| - |needle| :: OccursAt(hay, needle, i)
  }

  predicate OccursAt(hay: string, needle: string, i: int)
  {
    0 <= i <= |hay| - |needle| && hay[i..i + |needle|] == needle
  }

  /** A substring of a part is a substring of the whole. */
  lemma ContainsInContext(pre: string, mid: string, post: string, needle: string)
    requires Contains(mid, needle)
    ensures Contains(pre + mid + post, needle)
  {
    var i :| 0 <= i <= |mid| - |needle| && OccursAt(mid, needle, i);
    var whole := pre + mid + post;
    assert whole[|pre| + i..|pre| + i + |needle|] == mid[i..i + |needle|];
    assert OccursAt(whole, needle, |pre| + i);
  }

  // ---- safeInt ----

  /** `safeInt(v)` for a string `v`: `parseInt(String(v||'').trim(), 10)`,
      with NaN reported as `None`. An optional sign is followed by the
      longest run of digits; anything after it is ignored. */
  function SafeInt(v: string): Option<int>
  {
    ParseSigned(Trim(v))
  }

  /** The integer prefix of an already trimmed string: an optional sign, then
      at least one digit; whatever follows the digits is ignored. */
  function ParseSigned(t: string): Option<int>
  {
    var signed := |t| > 0 && (t[0] == '-' || t[0] == '+');
    var body := if signed then t[1..] else t;
    var k := LeadingDigits(body);
    if k == 0 then None
    else
      var m: int := DigitsValue(body[..k]);
      Some(if signed && t[0] == '-' then -m else m)
  }

  /** A string of digits is all leading digits. */
  lemma {:induction false} LeadingDigitsOfDigits(s: string)
    requires AllDigits(s)
    ensures LeadingDigits(s) == |s|
  {
    if s != [] {
      LeadingDigitsOfDigits(s[1..]);
    }
  }

  lemma ParseSignedOfDecimal(n: int)
    ensures ParseSigned(Decimal(n)) == Some(n)
  {
    var m: nat := if n < 0 then -n else n;
    var d := Digits(m);
    LeadingDigitsOfDigits(d);
    DigitsValueOfDigits(m);
    assert d[..|d|] == d;
    if n < 0 {
      assert Decimal(n)[1..] == d;
    }
  }

  /** `safeInt(String(n)) == n`: printing and re-parsing an integer is the identity. */
  lemma SafeIntOfDecimal(n: int)
    ensures SafeInt(Decimal(n)) == Some(n)
  {
    var s := Decimal(n);
    var d := Digits(if n < 0 then -n else n);
    assert s[|s| - 1] == d[|d| - 1];
    TrimNoOuterSpace(s);
    ParseSignedOfDecimal(n);
  }

  /** Nothing but whitespace parses to NaN. */
  lemma SafeIntOfBlank(v: string)
    requires forall i :: 0 <= i < |v| ==> IsJsSpace(v[i])
    ensures SafeInt(v) == None
  {
    TrimSpec(v);
  }

  // ---- the timer display ----

  /** `String(x).padStart(2, '0')`. */
  function PadStart2(s: string): (r: string)
  {
    if |s| >= 2 then s else if |s| == 1 then "0" + s else "00"
  }

  /** JavaScript's `a % b`: the remainder takes the sign of the dividend. */
  function JsRem(a: int, b: int): (r: int)
    requires b > 0
    ensures -b < r < b && (a >= 0 ==> r == a % b) && (a < 0 ==> r <= 0)
    ensures a == b * TruncDiv(a, b) + r
  {
    if a >= 0 then a % b else -((-a) % b)
  }

  /** The quotient `Math.trunc(a / b)` that goes with `a % b`. */
  function TruncDiv(a: int, b: int): int
    requires b > 0
  {
    if a >= 0 then a / b else -((-a) / b)
  }

  /** The remainder of a negated dividend is the negated remainder, which
      with the case `a >= 0` fixes `a % b` for every sign. */
  lemma JsRemOdd(a: int, b: int)
    requires b > 0
    ensures JsRem(-a, b) == -JsRem(a, b)
  {
  }

  /** `fmtHM(sec)`: whole minutes, a colon, then the seconds, each padded to
      two digits. */
  function FmtHM(sec: int): string
  {
    PadStart2(Decimal(sec / 60)) + ":" + PadStart2(Decimal(JsRem(sec, 60)))
  }

  /** Position of the first ':' in `s`, or `|s|` when there is none. */
  function ColonAt(s: string): (k: nat)
    ensures k <= |s| && (k < |s| ==> s[k] == ':')
    ensures forall i :: 0 <= i < k ==> s[i] != ':'
  {
    if s == [] || s[0] == ':' then 0 else ColonAt(s[1..]) + 1
  }

  lemma {:induction false} ColonAfterDigits(a: string, b: string)
    requires AllDigits(a)
    ensures ColonAt(a + ":" + b) == |a|
  {
    if a != [] {
      assert (a + ":" + b)[1..] == a[1..] + ":" + b;
      ColonAfterDigits(a[1..], b);
    }
  }

  /** Reads an `m:ss` display back into seconds. */
  function ParseClock(s: string): Option<int>
  {
    var k := ColonAt(s);
    if k == |s| then None
    else
      var mm, ss := s[..k], s[k + 1..];
      if mm == [] || ss == [] || !AllDigits(mm) || !AllDigits(ss) then None
      else Some(DigitsValue(mm) * 60 + DigitsValue(ss))
  }

  lemma {:induction false} PaddedDigits(n: nat)
    ensures var p := PadStart2(Digits(n)); |p| >= 2 && AllDigits(p) && DigitsValue(p) == n
    ensures n < 100 ==> |PadStart2(Digits(n))| == 2
  {
    DigitsValueOfDigits(n);
    var d := Digits(n);
    if |d| == 1 {
      LeadingZero(d);
    }
    if 10 <= n < 100 {
      assert |Digits(n / 10)| == 1;
    }
  }

  /** For a non-negative count of seconds the display reads back exactly:
      `fmtHM` loses nothing. */
  lemma FmtHMRoundTrip(sec: nat)
    ensures ParseClock(FmtHM(sec)) == Some(sec)
  {
    var m, s := sec / 60, sec % 60;
    PaddedDigits(m);
    PaddedDigits(s);
    var mm, ss := PadStart2(Digits(m)), PadStart2(Digits(s));
    var f := FmtHM(sec);
    assert f == mm + ":" + ss;
    ColonAfterDigits(mm, ss);
    assert f[..|mm|] == mm;
    assert f[|mm| + 1..] == ss;
  }

  /** Below 100 minutes the display is always five characters, `mm:ss`. */
  lemma FmtHMShape(sec: nat)
    requires sec < 6000
    ensures var f := FmtHM(sec);
      |f| == 5 && f[2] == ':' && IsDigit(f[0]) && IsDigit(f[1]) && IsDigit(f[3]) && IsDigit(f[4])
  {
    PaddedDigits(sec / 60);
    PaddedDigits(sec % 60);
  }

  // ---- escapeHtml ----

  /** The replacement `escapeHtml` makes for one character: an entity for
      each of the five markup characters, the character itself otherwise. */
  function EscapeChar(c: char): (r: string)
    ensures r == [c] <==> c !in "&<>\"'"
    ensures forall i :: 0 <= i < |r| ==> r[i] !in "<>\"'"
    ensures c in "&<>\"'" ==> |r| > 1 && r[0] == '&' && r[|r| - 1] == ';'
  {
    if c == '&' then "&amp;"
    else if c == '<' then "&lt;"
    else if c == '>' then "&gt;"
    else if c == '"' then "&quot;"
    else if c == '\'' then "&#39;"
    else [c]
  }

  /** `escapeHtml(s)`: the five markup characters become entities, so the
      result has no `<`, `>`, `"` or `'` left. */
  function EscapeHtml(s: string): (r: string)
    ensures |r| >= |s|
    ensures forall i :: 0 <= i < |r| ==> r[i] != '<' && r[i] != '>' && r[i] != '"' && r[i] != '\''
  {
    if s == [] then "" else EscapeChar(s[0]) + EscapeHtml(s[1..])
  }

  predicate StartsWith(s: string, p: string)
  {
    |p| <= |s| && s[..|p|] == p
  }

  /** Decoding of the five entities `escapeHtml` produces (what a browser
      does when it reads the escaped text). */
  function UnescapeHtml(s: string): string
  {
    if s == [] then ""
    else if s[0] != '&' then [s[0]] + UnescapeHtml(s[1..])
    else if StartsWith(s, "&amp;") then "&" + UnescapeHtml(s[5..])
    else if StartsWith(s, "&lt;") then "<" + UnescapeHtml(s[4..])
    else if StartsWith(s, "&gt;") then ">" + UnescapeHtml(s[4..])
    else if StartsWith(s, "&quot;") then "\"" + UnescapeHtml(s[6..])
    else if StartsWith(s, "&#39;") then "'" + UnescapeHtml(s[5..])
    else "&" + UnescapeHtml(s[1..])
  }

  lemma UnescapeChar(c: char, rest: string)
    ensures UnescapeHtml(EscapeChar(c) + rest) == [c] + UnescapeHtml(rest)
  {
    var e := EscapeChar(c) + rest;
    if c == '&' {
      assert StartsWith(e, "&amp;") && e[5..] == rest;
    } else if c == '<' {
      assert e[1] == 'l';
      assert !StartsWith(e, "&amp;");
      assert StartsWith(e, "&lt;") && e[4..] == rest;
    } else if c == '>' {
      assert e[1] == 'g';
      assert !StartsWith(e, "&amp;") && !StartsWith(e, "&lt;");
      assert StartsWith(e, "&gt;") && e[4..] == rest;
    } else if c == '"' {
      assert e[1] == 'q';
      assert !StartsWith(e, "&amp;") && !StartsWith(e, "&lt;") && !StartsWith(e, "&gt;");
      assert StartsWith(e, "&quot;") && e[6..] == rest;
    } else if c == '\'' {
      assert e[1] == '#';
      assert !StartsWith(e, "&amp;") && !StartsWith(e, "&lt;") && !StartsWith(e, "&gt;");
      assert !StartsWith(e, "&quot;");
      assert StartsWith(e, "&#39;") && e[5..] == rest;
    } else {
      assert e[0] == c && e[1..] == rest;
    }
  }

  /** The escaped text displays as the original: decoding undoes `escapeHtml`. */
  lemma {:induction false} EscapeHtmlRoundTrip(s: string)
    ensures UnescapeHtml(EscapeHtml(s)) == s
  {
    if s != [] {
      UnescapeChar(s[0], EscapeHtml(s[1..]));
      EscapeHtmlRoundTrip(s[1..]);
    }
  }
}
