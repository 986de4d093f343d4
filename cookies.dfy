/** The string handling of persistence.js: the cookie-string lookup of getCookie
    (with String.prototype.split and trim) and the `parseInt(..., 10) || 0`
    reading of saved credits. */
module Cookies {
  // ---------------------------------------------------------------------------
  // Cookie strings
  // ---------------------------------------------------------------------------

  /** The characters String.prototype.trim removes: the white space and line
      terminators of ECMAScript (tab, vertical tab, form feed, the space
      separators of Unicode category Zs, the byte order mark, LF, CR, U+2028 and
      U+2029). */
  predicate IsSpace(c: char)
  {
    c == ' ' || c == '\t' || c == '\n' || c == '\r' || c == '\U{000B}' || c == '\U{000C}' || c == '\U{00A0}' ||
    c == '\U{1680}' || '\U{2000}' <= c <= '\U{200A}' || c == '\U{2028}' || c == '\U{2029}' || c == '\U{202F}' ||
    c == '\U{205F}' || c == '\U{3000}' || c == '\U{FEFF}'
  }

  function TrimStart(s: string): (r: string)
    ensures |r| <= |s|
    ensures r != [] ==> !IsSpace(r[0])
  {
    if s != [] && IsSpace(s[0]) then TrimStart(s[1..]) else s
  }

  function TrimEnd(s: string): (r: string)
    ensures |r| <= |s|
    ensures r != [] ==> !IsSpace(r[|r| - 1])
  {
    if s != [] && IsSpace(s[|s| - 1]) then TrimEnd(s[..|s| - 1]) else s
  }

  /** String.prototype.trim. */
  function Trim(s: string): string
  {
    TrimEnd(TrimStart(s))
  }

  /** Trimming leaves a string with no leading or trailing whitespace unchanged. */
  lemma TrimIdle(s: string)
    requires s != [] ==> !IsSpace(s[0]) && !IsSpace(s[|s| - 1])
    ensures Trim(s) == s
  {
  }

  /** The position of the first `c` in `s`. */
  function IndexOf(s: string, c: char): (i: nat)
    requires c in s
    ensures i < |s| && s[i] == c && c !in s[..i]
  {
    if s[0] == c then 0 else 1 + IndexOf(s[1..], c)
  }

  /** String.prototype.split with a one-character separator. */
  function Split(s: string, c: char): (parts: seq<string>)
    ensures |parts| >= 1
    decreases |s|
  {
    if c !in s then [s]
    else
      var i := IndexOf(s, c);
      [s[..i]] + Split(s[i + 1..], c)
  }

  /** Array.prototype.join with a one-character separator. */
  function Join(parts: seq<string>, c: char): string
    requires |parts| >= 1
  {
    if |parts| == 1 then parts[0] else parts[0] + [c] + Join(parts[1..], c)
  }

  /** Splitting then joining on the same separator gives the string back, and no
      piece holds the separator. */
  lemma {:induction false} SplitJoin(s: string, c: char)
    ensures Join(Split(s, c), c) == s
    ensures forall k :: 0 <= k < |Split(s, c)| ==> c !in Split(s, c)[k]
    decreases |s|
  {
    if c in s {
      var i := IndexOf(s, c);
      SplitJoin(s[i + 1..], c);
      assert s == s[..i] + [c] + s[i + 1..];
    }
  }

  /** Splitting a string joined from separator-free pieces gives the pieces back. */
  lemma {:induction false} JoinSplit(parts: seq<string>, c: char)
    requires |parts| >= 1
    requires forall k :: 0 <= k < |parts| ==> c !in parts[k]
    ensures Split(Join(parts, c), c) == parts
  {
    if |parts| > 1 {
      JoinSplit(parts[1..], c);
      var s := Join(parts, c);
      assert s == parts[0] + [c] + Join(parts[1..], c);
      assert c in s by { assert s[|parts[0]|] == c; }
      IndexOfAfterFree(parts[0], c, Join(parts[1..], c));
      assert s[..|parts[0]|] == parts[0];
      assert s[|parts[0]| + 1..] == Join(parts[1..], c);
    } else {
      assert Join(parts, c) == parts[0];
    }
  }

  lemma IndexOfAfterFree(a: string, c: char, b: string)
    requires c !in a
    ensures c in a + [c] + b && IndexOf(a + [c] + b, c) == |a|
  {
    var s := a + [c] + b;
    assert s[|a|] == c;
    assert s[..|a|] == a;
    var i := IndexOf(s, c);
    assert i <= |a|;
    assert s[..i] == a[..i];
  }

  /** What `const [cookieName, cookieValue] = cookie.trim().split('=')` leaves in
      cookieValue: the text between the first and second '=', or undefined. */
  datatype CookieValue = NotFound | NoValue | Value(text: string)

  /** The cookie name of one entry: the trimmed text before its first '='. */
  function EntryName(entry: string): string
  {
    Split(Trim(entry), '=')[0]
  }

  /** The cookie value of one entry: the text between its first and second '='. */
  function EntryValue(entry: string): CookieValue
  {
    var parts := Split(Trim(entry), '=');
    if |parts| >= 2 then Value(parts[1]) else NoValue
  }

  /** The loop of getCookie over the ';'-separated entries: the value of the first
      entry whose trimmed name equals `name`. */
  function CookieLookup(entries: seq<string>, name: string): (v: CookieValue)
  {
    if entries == [] then NotFound
    else if EntryName(entries[0]) == name then EntryValue(entries[0])
    else CookieLookup(entries[1..], name)
  }

  /** getCookie over the given cookie string. */
  method GetCookie(cookie: string, name: string) returns (v: CookieValue)
    ensures v == CookieLookup(Split(cookie, ';'), name)
  {
    var cookies := Split(cookie, ';');
    var i := 0;
    while i < |cookies|
      invariant 0 <= i <= |cookies|
      invariant CookieLookup(cookies, name) == CookieLookup(cookies[i..], name)
    {
      assert cookies[i..][1..] == cookies[i + 1..];
      var parts := Split(Trim(cookies[i]), '=');
      if parts[0] == name {
        if |parts| >= 2 {
          return Value(parts[1]);
        }
        return NoValue;
      }
      i := i + 1;
    }
    return NotFound;
  }

  /** A name and a value that a cookie entry can carry and read back intact. */
  predicate CookieToken(s: string, nonEmpty: bool)
  {
    (nonEmpty ==> s != []) && '=' !in s && ';' !in s &&
    (s != [] ==> !IsSpace(s[0]) && !IsSpace(s[|s| - 1]))
  }

  /** An entry `name=value`, written after entries that do not carry the name,
      is read back as that value, whatever leading space the browser puts before it. */
  lemma CookieReadBack(entries: seq<string>, pad: string, name: string, value: string)
    requires CookieLookup(entries, name) == NotFound
    requires forall k :: 0 <= k < |pad| ==> pad[k] == ' '
    requires CookieToken(name, true) && CookieToken(value, false)
    ensures CookieLookup(entries + [pad + name + "=" + value], name) == Value(value)
  {
    EntryReadBack(pad, name, value);
    LookupSkips(entries, [pad + name + "=" + value], name);
  }

  lemma EntryReadBack(pad: string, name: string, value: string)
    requires forall k :: 0 <= k < |pad| ==> pad[k] == ' '
    requires CookieToken(name, true) && CookieToken(value, false)
    ensures CookieLookup([pad + name + "=" + value], name) == Value(value)
  {
    var e := pad + name + "=" + value;
    TrimStartPad(pad, name + "=" + value);
    var t := name + "=" + value;
    assert e == pad + t;
    assert t[|t| - 1] == (if value == [] then '=' else value[|value| - 1]);
    TrimIdle(t);
    JoinSplit([name, value], '=');
    assert Join([name, value], '=') == t;
  }

  lemma {:induction false} TrimStartPad(pad: string, t: string)
    requires forall k :: 0 <= k < |pad| ==> pad[k] == ' '
    requires t != [] && !IsSpace(t[0])
    ensures TrimStart(pad + t) == TrimStart(t) == t
  {
    if pad != [] {
      assert (pad + t)[1..] == pad[1..] + t;
      TrimStartPad(pad[1..], t);
    }
  }

  lemma {:induction false} LookupSkips(a: seq<string>, b: seq<string>, name: string)
    requires CookieLookup(a, name) == NotFound
    ensures CookieLookup(a + b, name) == CookieLookup(b, name)
  {
    if a != [] {
      assert (a + b)[0] == a[0] && (a + b)[1..] == a[1..] + b;
      assert EntryName(a[0]) != name;
      assert CookieLookup(a + b, name) == CookieLookup(a[1..] + b, name);
      LookupSkips(a[1..], b, name);
    } else {
      assert a + b == b;
    }
  }

  // ---------------------------------------------------------------------------
  // Saved credits
  // ---------------------------------------------------------------------------

  predicate IsDigit(c: char)
  {
    '0' <= c <= '9'
  }

  /** The longest prefix of decimal digits. */
  function DigitPrefix(s: string): (d: string)
    ensures |d| <= |s| && d == s[..|d|]
    ensures forall k :: 0 <= k < |d| ==> IsDigit(d[k])
  {
    if s != [] && IsDigit(s[0]) then [s[0]] + DigitPrefix(s[1..]) else []
  }

  /** The value of a string of decimal digits. */
  function DigitsValue(d: string): (n: int)
    requires forall k :: 0 <= k < |d| ==> IsDigit(d[k])
    ensures n >= 0
  {
    if d == [] then 0
    else
      assert IsDigit(d[|d| - 1]);
      10 * DigitsValue(d[..|d| - 1]) + (d[|d| - 1] as int - '0' as int)
  }

  /** `parseInt(s, 10) || 0`: skip leading whitespace, take an optional sign and
      the digits that follow; no digits (NaN) reads as 0, and so does -0. */
  function ParseIntOrZero(s: string): int
  {
    var t := TrimStart(s);
    var neg := t != [] && t[0] == '-';
    var body := if t != [] && (t[0] == '-' || t[0] == '+') then t[1..] else t;
    var digits := DigitPrefix(body);
    if digits == [] then 0
    else if neg then 0 - DigitsValue(digits) else DigitsValue(digits)
  }

  /** The decimal text of a natural number, as `toString()` writes it. */
  function NatToString(n: nat): (s: string)
    ensures s != [] && forall k :: 0 <= k < |s| ==> IsDigit(s[k])
  {
    var last := ['0' + (n % 10) as char];
    if n < 10 then last else NatToString(n / 10) + last
  }

  lemma {:induction false} NatToStringValue(n: nat)
    ensures DigitsValue(NatToString(n)) == n
  {
    if n >= 10 {
      NatToStringValue(n / 10);
      var s := NatToString(n);
      assert s[..|s| - 1] == NatToString(n / 10);
    }
  }

  /** The saved credit count reads back as itself: parsing what `toString()`
      wrote gives the number back, for every non-negative count. */
  lemma CreditsRoundTrip(n: nat)
    ensures ParseIntOrZero(NatToString(n)) == n
  {
    var s := NatToString(n);
    NatToStringValue(n);
    assert TrimStart(s) == s;
    DigitPrefixAll(s);
  }

  lemma {:induction false} DigitPrefixAll(s: string)
    requires forall k :: 0 <= k < |s| ==> IsDigit(s[k])
    ensures DigitPrefix(s) == s
  {
    if s != [] {
      DigitPrefixAll(s[1..]);
    }
  }

  /** The credits loadProgress reads from the cookie lookup: a missing cookie leaves
      the current count; an entry without '=' parses as NaN and reads as 0. */
  function LoadedCredits(saved: CookieValue, current: int): (c: int)
    ensures saved.NotFound? ==> c == current
    ensures saved.NoValue? ==> c == 0
    ensures saved.Value? && (forall k :: 0 <= k < |saved.text| ==> IsDigit(saved.text[k])) && saved.text != [] ==>
      c == DigitsValue(saved.text)
  {
    match saved
    case NotFound => current
    case NoValue => 0
    case Value(text) =>
      DigitsParse(text);
      ParseIntOrZero(text)
  }

  /** A non-empty digit string parses as its value. */
  lemma DigitsParse(text: string)
    ensures text != [] && (forall k :: 0 <= k < |text| ==> IsDigit(text[k])) ==> ParseIntOrZero(text) == DigitsValue(text)
  {
    if text != [] && forall k :: 0 <= k < |text| ==> IsDigit(text[k]) {
      DigitPrefixAll(text);
      assert TrimStart(text) == text;
    }
  }

}
