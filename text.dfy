/**
 * The few Python string operations the program applies to typed input and
 * file lines: `str.strip()`, `str.lower()`, `str.split(sep)`,
 * `str.isdigit()` and `int(str)`.
 */
module Text {
  import opened Wrappers

  /** The characters `str.isspace()` accepts (the set `str.strip()` removes). */
  predicate IsSpace(c: char)
  {
    || c == ' ' || c == '\t' || c == '\n' || c == '\r' || c == '\U{B}' || c == '\U{C}'
    || ('\U{1C}' <= c <= '\U{1F}') || c == '\U{85}' || c == '\U{A0}' || c == '\U{1680}'
    || ('\U{2000}' <= c <= '\U{200A}') || c == '\U{2028}' || c == '\U{2029}' || c == '\U{202F}'
    || c == '\U{205F}' || c == '\U{3000}'
  }

  function StripLeft(s: string): (r: string)
    ensures r == [] || !IsSpace(r[0])
    ensures |r| <= |s|
  {
    if s != [] && IsSpace(s[0]) then StripLeft(s[1..]) else s
  }

  function StripRight(s: string): (r: string)
    ensures r == [] || !IsSpace(r[|r| - 1])
    ensures |r| <= |s| && r == s[..|r|]
  {
    if s != [] && IsSpace(s[|s| - 1]) then StripRight(s[..|s| - 1]) else s
  }

  /** `s.strip()`: no white space at either end. */
  function Strip(s: string): (r: string)
    ensures r == [] || (!IsSpace(r[0]) && !IsSpace(r[|r| - 1]))
  {
    StripRight(StripLeft(s))
  }

  function LowerChar(c: char): char
  {
    if 'A' <= c <= 'Z' then (c as int + 32) as char else c
  }

  /** `s.lower()` on ASCII letters; other characters are kept. */
  function Lower(s: string): (r: string)
    ensures |r| == |s|
    ensures forall i :: 0 <= i < |s| ==> r[i] == LowerChar(s[i])
  {
    seq(|s|, i requires 0 <= i < |s| => LowerChar(s[i]))
  }

  /** `s.split(sep)` with an explicit separator: every occurrence splits, empty pieces are kept. */
  function Split(s: string, sep: char): (r: seq<string>)
    ensures |r| > 0
  {
    if s == [] then [""]
    else
      var rest := Split(s[1..], sep);
      if s[0] == sep then [""] + rest else [[s[0]] + rest[0]] + rest[1..]
  }

  /** `sep.join(parts)` */
  function Join(parts: seq<string>, sep: char): string
    requires |parts| > 0
  {
    if |parts| == 1 then parts[0] else parts[0] + [sep] + Join(parts[1..], sep)
  }

  function Occurrences(s: string, c: char): nat
  {
    if s == [] then 0 else (if s[0] == c then 1 else 0) + Occurrences(s[1..], c)
  }

  /** Splitting and joining again give back the string; there is one piece more than separators. */
  lemma {:induction false} SplitJoin(s: string, sep: char)
    ensures Join(Split(s, sep), sep) == s
    ensures |Split(s, sep)| == Occurrences(s, sep) + 1
    ensures forall i :: 0 <= i < |Split(s, sep)| ==> sep !in Split(s, sep)[i]
  {
    if s != [] {
      var rest := Split(s[1..], sep);
      SplitJoin(s[1..], sep);
      assert s == [s[0]] + s[1..];
      if s[0] == sep {
        var r := [""] + rest;
        assert r[1..] == rest;
      } else {
        var r := [[s[0]] + rest[0]] + rest[1..];
        if |rest| > 1 {
          assert r[1..] == rest[1..];
          assert Join(rest, sep) == rest[0] + [sep] + Join(rest[1..], sep);
        }
        forall i | 0 <= i < |r| ensures sep !in r[i] {
          if i > 0 { assert r[i] == rest[i]; }
        }
      }
    }
  }

  predicate IsDigit(c: char)
  {
    '0' <= c <= '9'
  }

  /** `s.isdigit()` (for ASCII digits): non-empty and digits only. */
  predicate IsDigits(s: string)
  {
    |s| > 0 && forall i :: 0 <= i < |s| ==> IsDigit(s[i])
  }

  /** The value of a string of decimal digits. */
  function DigitsValue(s: string): nat
    requires forall i :: 0 <= i < |s| ==> IsDigit(s[i])
  {
    if s == [] then 0
    else
      assert IsDigit(s[|s| - 1]);
      DigitsValue(s[..|s| - 1]) * 10 + (s[|s| - 1] as int - '0' as int)
  }

  /**
   * The body `int()` accepts after its optional sign: digits, with single
   * underscores allowed between two digits.
   */
  predicate IsIntBody(t: string)
  {
    && |t| > 0
    && forall i {:trigger t[i]} :: 0 <= i < |t| ==>
         IsDigit(t[i]) || (t[i] == '_' && 0 < i < |t| - 1 && IsDigit(t[i - 1]) && IsDigit(t[i + 1]))
  }

  function RemoveUnderscores(t: string): (r: string)
    ensures forall i :: 0 <= i < |r| ==> r[i] != '_' && r[i] in t
  {
    if t == [] then []
    else
      var rest := RemoveUnderscores(t[1..]);
      assert forall i :: 0 <= i < |rest| ==> rest[i] in t;
      if t[0] == '_' then rest else [t[0]] + rest
  }

  lemma RemoveUnderscoresDigits(t: string)
    requires IsIntBody(t)
    ensures forall i :: 0 <= i < |RemoveUnderscores(t)| ==> IsDigit(RemoveUnderscores(t)[i])
  {
    var r := RemoveUnderscores(t);
    assert forall k :: 0 <= k < |r| ==> r[k] in t && r[k] != '_';
    forall i | 0 <= i < |r| ensures IsDigit(r[i]) {
      assert r[i] in t && r[i] != '_';
      var j :| 0 <= j < |t| && t[j] == r[i];
      assert IsDigit(t[j]);
    }
  }

  /** `int(s)` in base 10: None where Python raises ValueError. */
  function PyInt(s: string): (r: Option<int>)
  {
    var t := Strip(s);
    if |t| > 0 && (t[0] == '+' || t[0] == '-') then
      if IsIntBody(t[1..]) then
        RemoveUnderscoresDigits(t[1..]);
        var n: int := DigitsValue(RemoveUnderscores(t[1..]));
        var v: int := if t[0] == '-' then -n else n;
        Some(v)
      else None
    else if IsIntBody(t) then
      RemoveUnderscoresDigits(t);
      Some(DigitsValue(RemoveUnderscores(t)))
    else None
  }

  function DigitChar(d: nat): char
    requires d < 10
  {
    ('0' as int + d) as char
  }

  /** `str(n)` for a natural number. */
  function Show(n: nat): (r: string)
    ensures IsDigits(r)
    decreases n
  {
    if n < 10 then [DigitChar(n)] else Show(n / 10) + [DigitChar(n % 10)]
  }

  lemma {:induction false} DigitsValueShow(n: nat)
    ensures DigitsValue(Show(n)) == n
    decreases n
  {
    if n >= 10 {
      DigitsValueShow(n / 10);
      assert Show(n)[..|Show(n)| - 1] == Show(n / 10);
    }
  }

  lemma RemoveUnderscoresDigitsOnly(t: string)
    requires forall i :: 0 <= i < |t| ==> IsDigit(t[i])
    ensures RemoveUnderscores(t) == t
  {
    if t != [] {
      RemoveUnderscoresDigitsOnly(t[1..]);
    }
  }

  /** `int(str(n)) == n`: the parser reads back what `str` writes. */
  lemma PyIntShow(n: nat)
    ensures PyInt(Show(n)) == Some(n)
  {
    var s := Show(n);
    assert IsDigit(s[0]) && IsDigit(s[|s| - 1]);
    assert !IsSpace(s[0]) && !IsSpace(s[|s| - 1]);
    assert StripLeft(s) == s;
    assert s[..|s|] == s;
    assert StripRight(s) == s;
    assert Strip(s) == s;
    assert s[0] != '+' && s[0] != '-';
    assert IsIntBody(s);
    RemoveUnderscoresDigitsOnly(s);
    DigitsValueShow(n);
  }

  /** Splitting at the only separator gives the two sides. */
  lemma {:induction false} SplitAround(a: string, sep: char, b: string)
    requires sep !in a && sep !in b
    ensures Split(a + [sep] + b, sep) == [a, b]
  {
    if a == [] {
      assert a + [sep] + b == [sep] + b;
      assert ([sep] + b)[1..] == b;
      SplitNone(b, sep);
    } else {
      assert (a + [sep] + b)[1..] == a[1..] + [sep] + b;
      assert (a + [sep] + b)[0] == a[0];
      SplitAround(a[1..], sep, b);
      assert [a[0]] + a[1..] == a;
    }
  }

  /** A string without the separator splits into itself. */
  lemma {:induction false} SplitNone(s: string, sep: char)
    requires sep !in s
    ensures Split(s, sep) == [s]
  {
    if s != [] {
      SplitNone(s[1..], sep);
      assert [s[0]] + s[1..] == s;
    }
  }

  /** A string that neither starts nor ends with white space is its own strip. */
  lemma StripNoSpace(s: string)
    requires s != [] && !IsSpace(s[0]) && !IsSpace(s[|s| - 1])
    ensures Strip(s) == s
  {
    assert StripLeft(s) == s;
    assert s[..|s|] == s;
  }
}
