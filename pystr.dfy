/** The few Python `str` operations the program relies on, with their Python
    meaning: `rfind`, `rsplit(sep, maxsplit)`, `sep.join(parts)`,
    `split(sep)[-1]`, `replace(c, "")`, `strip()` and `int(text)`. */
module PyStr {
  import opened Common

  /** Number of occurrences of `c` in `s` (`s.count(c)`). */
  function Count(s: string, c: char): nat
  {
    if s == [] then 0 else Count(s[..|s| - 1], c) + (if s[|s| - 1] == c then 1 else 0)
  }

  lemma {:induction false} CountAppend(a: string, b: string, c: char)
    ensures Count(a + b, c) == Count(a, c) + Count(b, c)
    decreases |b|
  {
    if b == [] {
      assert a + b == a;
    } else {
      assert (a + b)[..|a + b| - 1] == a + b[..|b| - 1];
      CountAppend(a, b[..|b| - 1], c);
    }
  }

  lemma {:induction false} CountZero(s: string, c: char)
    ensures Count(s, c) == 0 <==> c !in s
    decreases |s|
  {
    if s != [] {
      CountZero(s[..|s| - 1], c);
      assert s == s[..|s| - 1] + [s[|s| - 1]];
    }
  }

  /** Index of the last occurrence of `c` in `s`, or -1 (`s.rfind(c)`). */
  function RFind(s: string, c: char): (i: int)
    ensures -1 <= i < |s|
    ensures i == -1 <==> c !in s
    ensures i >= 0 ==> s[i] == c && c !in s[i + 1..]
    decreases |s|
  {
    if s == [] then -1
    else if s[|s| - 1] == c then |s| - 1
    else
      var front := s[..|s| - 1];
      var j := RFind(front, c);
      assert s == front + [s[|s| - 1]];
      assert j >= 0 ==> s[j + 1..] == front[j + 1..] + [s[|s| - 1]];
      j
  }

  /** `sep.join(parts)`. */
  function Join(sep: char, parts: seq<string>): string
  {
    if parts == [] then ""
    else if |parts| == 1 then parts[0]
    else Join(sep, parts[..|parts| - 1]) + [sep] + parts[|parts| - 1]
  }

  /** Joining is associative on the first separator:
      `sep.join([a] + rest) == a + sep + sep.join(rest)` when `rest` is non-empty. */
  lemma {:induction false} JoinFirst(sep: char, parts: seq<string>)
    requires |parts| >= 2
    ensures Join(sep, parts) == parts[0] + [sep] + Join(sep, parts[1..])
    decreases |parts|
  {
    if |parts| > 2 {
      JoinFirst(sep, parts[..|parts| - 1]);
      assert parts[..|parts| - 1][1..] == parts[1..][..|parts[1..]| - 1];
    } else {
      assert parts[1..] == [parts[1]];
    }
  }

  /** `s.rsplit(sep, maxsplit)`: split at the rightmost `maxsplit` occurrences
      of `sep` at most. Joining the parts again gives back `s`, and every part
      but the first is free of `sep`. */
  function RSplit(s: string, sep: char, maxsplit: nat): (parts: seq<string>)
    ensures |parts| == 1 + (if Count(s, sep) < maxsplit then Count(s, sep) else maxsplit)
    ensures forall k :: 1 <= k < |parts| ==> sep !in parts[k]
    ensures Join(sep, parts) == s
    ensures Count(parts[0], sep) == Count(s, sep) - (|parts| - 1)
    decreases maxsplit
  {
    var i := RFind(s, sep);
    if maxsplit == 0 || i < 0 then
      CountZero(s, sep);
      [s]
    else
      var front := RSplit(s[..i], sep, maxsplit - 1);
      assert s == s[..i] + [sep] + s[i + 1..];
      CountAppend(s[..i] + [sep], s[i + 1..], sep);
      CountAppend(s[..i], [sep], sep);
      CountZero(s[i + 1..], sep);
      assert Count([sep], sep) == 1 by { assert [sep][..0] == []; }
      front + [s[i + 1..]]
  }

  /** `s.split(sep)[-1]`: the text after the last `sep`, or all of `s`. */
  function LastField(s: string, sep: char): (r: string)
    ensures sep !in r
    ensures r == s || (|r| < |s| && s == s[..|s| - |r| - 1] + [sep] + r)
  {
    var i := RFind(s, sep);
    assert i >= 0 ==> s == s[..i] + [sep] + s[i + 1..];
    s[i + 1..]
  }

  /** `s.replace(c, "")`. */
  function RemoveAll(s: string, c: char): (r: string)
    ensures c !in r
    ensures |r| == |s| - Count(s, c)
    ensures forall x :: x != c ==> (x in r <==> x in s)
    decreases |s|
  {
    if s == [] then ""
    else
      var front := RemoveAll(s[..|s| - 1], c);
      assert s == s[..|s| - 1] + [s[|s| - 1]];
      if s[|s| - 1] == c then front else front + [s[|s| - 1]]
  }

  /** `replace` works piecewise: the kept characters stay in their order and
      number, and a single character is dropped exactly when it is `c`. */
  lemma {:induction false} RemoveAllAppend(a: string, b: string, c: char)
    ensures RemoveAll(a + b, c) == RemoveAll(a, c) + RemoveAll(b, c)
    ensures |b| == 1 ==> RemoveAll(b, c) == if b[0] == c then "" else b
    decreases |b|
  {
    if b == [] {
      assert a + b == a;
    } else {
      assert (a + b)[..|a + b| - 1] == a + b[..|b| - 1];
      RemoveAllAppend(a, b[..|b| - 1], c);
      assert |b| == 1 ==> b[..0] == "";
    }
  }

  predicate IsDigit(c: char)
  {
    '0' <= c <= '9'
  }

  /** Value of a string of decimal digits, most significant first. */
  function DigitsValue(ds: string): nat
    requires forall k :: 0 <= k < |ds| ==> IsDigit(ds[k])
  {
    if ds == [] then 0
    else
      var d := ds[|ds| - 1];
      assert IsDigit(d);
      10 * DigitsValue(ds[..|ds| - 1]) + (d as int - '0' as int)
  }

  predicate AllDigits(ds: string)
  {
    |ds| > 0 && forall k :: 0 <= k < |ds| ==> IsDigit(ds[k])
  }

  /** The ASCII whitespace `str.strip()` and `int()` remove: space, tab,
      line feed, carriage return, vertical tab and form feed. */
  predicate IsSpace(c: char)
  {
    c == ' ' || c == '\t' || c == '\n' || c == '\r' || c as int == 0x0B || c as int == 0x0C
  }

  /** `s.lstrip()`: the leading whitespace goes. */
  function TrimStart(s: string): (r: string)
    ensures |r| <= |s| && r == s[|s| - |r|..]
    ensures forall k :: 0 <= k < |s| - |r| ==> IsSpace(s[k])
    ensures r == [] || !IsSpace(r[0])
  {
    if s != [] && IsSpace(s[0]) then TrimStart(s[1..]) else s
  }

  /** `s.rstrip()`: the trailing whitespace goes. */
  function TrimEnd(s: string): (r: string)
    ensures |r| <= |s| && r == s[..|r|]
    ensures forall k :: |r| <= k < |s| ==> IsSpace(s[k])
    ensures r == [] || !IsSpace(r[|r| - 1])
  {
    if s != [] && IsSpace(s[|s| - 1]) then TrimEnd(s[..|s| - 1]) else s
  }

  /** `s.strip()`. */
  function Strip(s: string): string
  {
    TrimEnd(TrimStart(s))
  }

  /** The text `int()` accepts once stripped: decimal digits with an optional sign. */
  predicate IsIntText(t: string)
  {
    AllDigits(t) || (|t| > 0 && t[0] in "+-" && AllDigits(t[1..]))
  }

  /** `int(text)`: surrounding whitespace is ignored, then an optional sign and
      decimal digits give the value; any other text raises ValueError,
      modelled as None. */
  function ParseInt(text: string): (r: Option<int>)
    ensures r.Some? <==> IsIntText(Strip(text))
    ensures r.Some? && AllDigits(Strip(text)) ==> r.value == DigitsValue(Strip(text))
    ensures r.Some? && !AllDigits(Strip(text)) ==>
              r.value == if Strip(text)[0] == '-' then -(DigitsValue(Strip(text)[1..]) as int) else DigitsValue(Strip(text)[1..])
  {
    var t := Strip(text);
    if AllDigits(t) then Some(DigitsValue(t))
    else if |t| > 0 && t[0] == '+' && AllDigits(t[1..]) then Some(DigitsValue(t[1..]))
    else if |t| > 0 && t[0] == '-' && AllDigits(t[1..]) then Some(-(DigitsValue(t[1..]) as int))
    else None
  }

  /** Whitespace after a text that does not end in whitespace is what `rstrip` removes. */
  lemma {:induction false} TrimEndSpaces(a: string, ws: string)
    requires a == [] || !IsSpace(a[|a| - 1])
    requires forall k :: 0 <= k < |ws| ==> IsSpace(ws[k])
    ensures TrimEnd(a + ws) == a
    decreases |ws|
  {
    if ws == [] {
      assert a + ws == a;
    } else {
      assert (a + ws)[..|a + ws| - 1] == a + ws[..|ws| - 1];
      TrimEndSpaces(a, ws[..|ws| - 1]);
    }
  }

  /** Digits followed by whitespace strip to the digits. */
  lemma StripDigits(ds: string, ws: string)
    requires AllDigits(ds)
    requires forall k :: 0 <= k < |ws| ==> IsSpace(ws[k])
    ensures Strip(ds + ws) == ds
  {
    assert (ds + ws)[0] == ds[0] && IsDigit(ds[0]);
    assert IsDigit(ds[|ds| - 1]);
    TrimEndSpaces(ds, ws);
  }

  /** Decimal rendering of a natural number, the inverse of `int()` on it. */
  function Decimal(n: nat): (ds: string)
    ensures AllDigits(ds)
  {
    if n < 10 then ['0' + n as char] else Decimal(n / 10) + ['0' + (n % 10) as char]
  }

  lemma {:induction false} DigitsOfDecimal(n: nat)
    ensures DigitsValue(Decimal(n)) == n
  {
    if n >= 10 {
      var ds := Decimal(n);
      assert ds[..|ds| - 1] == Decimal(n / 10);
      DigitsOfDecimal(n / 10);
    }
  }

  /** `int(str(n) + ws) == n` for every natural number and whitespace `ws`. */
  lemma ParseDecimal(n: nat, ws: string)
    requires forall k :: 0 <= k < |ws| ==> IsSpace(ws[k])
    ensures ParseInt(Decimal(n) + ws) == Some(n)
  {
    StripDigits(Decimal(n), ws);
    DigitsOfDecimal(n);
  }
}
