/**
 * The few Python string operations the skill relies on, written out:
 * `str.split(sep)` with an explicit one-character separator, `sep.join(parts)`,
 * `str.strip()`, `sub in s` on strings, and `str(n)` for integers.
 */
module PyText {

  /** The characters for which Python's `str.isspace()` holds; `strip()` removes exactly these. */
  predicate IsSpace(c: char) {
    || c == ' '
    || '\t' <= c <= '\r'
    || '\U{1C}' <= c <= '\U{1F}'
    || c == '\U{85}' || c == '\U{A0}' || c == '\U{1680}'
    || '\U{2000}' <= c <= '\U{200A}'
    || c == '\U{2028}' || c == '\U{2029}' || c == '\U{202F}' || c == '\U{205F}' || c == '\U{3000}'
  }

  // ---------------------------------------------------------------------------
  // split and join

  /** `s.split(sep)`: never empty, and no part holds the separator. */
  function Split(s: string, sep: char): (parts: seq<string>)
    ensures |parts| >= 1
    ensures forall k :: 0 <= k < |parts| ==> sep !in parts[k]
  {
    if s == [] then [[]]
    else
      var rest := Split(s[1..], sep);
      if s[0] == sep then [[]] + rest
      else [[s[0]] + rest[0]] + rest[1..]
  }

  /** `sep.join(parts)`. */
  function Join(sep: char, parts: seq<string>): string {
    if |parts| == 0 then []
    else if |parts| == 1 then parts[0]
    else parts[0] + [sep] + Join(sep, parts[1..])
  }

  /** `parts[:n]`: Python slices clip at the end of the list. */
  function Take<T>(parts: seq<T>, n: nat): (r: seq<T>)
    ensures |r| == if |parts| < n then |parts| else n
    ensures r <= parts
  {
    if |parts| < n then parts else parts[..n]
  }

  /** `parts[-1]` on a list that is never empty. */
  function Last<T>(parts: seq<T>): T
    requires |parts| > 0
  {
    parts[|parts| - 1]
  }

  /** Splitting and joining again with the same separator gives back the string. */
  lemma {:induction false} JoinSplit(s: string, sep: char)
    ensures Join(sep, Split(s, sep)) == s
  {
    if s != [] {
      var rest := Split(s[1..], sep);
      JoinSplit(s[1..], sep);
      if s[0] != sep {
        var parts := [[s[0]] + rest[0]] + rest[1..];
        if |rest| > 1 {
          assert parts[1..] == rest[1..];
          assert Join(sep, rest) == rest[0] + [sep] + Join(sep, rest[1..]);
        }
        assert Join(sep, parts) == [s[0]] + Join(sep, rest);
      } else {
        assert ([[]] + rest)[1..] == rest;
      }
      assert s == [s[0]] + s[1..];
    }
  }

  /** A string without the separator splits into itself alone. */
  lemma {:induction false} SplitWithoutSep(h: string, sep: char)
    requires sep !in h
    ensures Split(h, sep) == [h]
  {
    if h != [] {
      assert sep !in h[1..];
      SplitWithoutSep(h[1..], sep);
      assert [h[0]] + h[1..] == h;
    }
  }

  /** The first part of `h + sep + t` is `h` when `h` has no separator. */
  lemma {:induction false} SplitAtFirstSep(h: string, sep: char, t: string)
    requires sep !in h
    ensures Split(h + [sep] + t, sep) == [h] + Split(t, sep)
  {
    var s := h + [sep] + t;
    if h == [] {
      assert s[0] == sep && s[1..] == t;
    } else {
      assert s[0] == h[0] && s[1..] == h[1..] + [sep] + t;
      assert sep !in h[1..];
      SplitAtFirstSep(h[1..], sep, t);
      assert [h[0]] + h[1..] == h;
    }
  }

  /** Splitting at a separator between two texts splits each text on its own. */
  lemma {:induction false} SplitConcat(h: string, sep: char, t: string)
    ensures Split(h + [sep] + t, sep) == Split(h, sep) + Split(t, sep)
  {
    var s := h + [sep] + t;
    if h == [] {
      assert s[0] == sep && s[1..] == t;
    } else {
      assert s[0] == h[0] && s[1..] == h[1..] + [sep] + t;
      SplitConcat(h[1..], sep, t);
      if h[0] != sep {
        ExtendFirstPart(h[0], Split(h[1..], sep), Split(t, sep));
      }
    }
  }

  /** Extending the first part of a list of parts, before or after appending more parts, is the same. */
  lemma ExtendFirstPart(c: char, front: seq<string>, back: seq<string>)
    requires |front| >= 1
    ensures [[c] + (front + back)[0]] + (front + back)[1..] == ([[c] + front[0]] + front[1..]) + back
  {
    assert (front + back)[1..] == front[1..] + back;
  }


  /** Joining a list of at least two parts puts the separator after the first. */
  lemma JoinCons(sep: char, parts: seq<string>)
    requires |parts| >= 2
    ensures Join(sep, parts) == parts[0] + [sep] + Join(sep, parts[1..])
  {
  }

  /** A string holding the separator splits into at least two parts. */
  lemma {:induction false} SplitAtSep(s: string, sep: char)
    requires sep in s
    ensures |Split(s, sep)| >= 2
  {
    if s[0] != sep {
      assert sep in s[1..];
      SplitAtSep(s[1..], sep);
    }
  }

  /** After the last separator of `h + sep + t` comes `t`: the last part is `t`. */
  lemma {:induction false} LastPartAfterSep(h: string, sep: char, t: string)
    requires sep !in t
    ensures Last(Split(h + [sep] + t, sep)) == t
  {
    var s := h + [sep] + t;
    if h == [] {
      assert s == [] + [sep] + t;
      SplitAtFirstSep(h, sep, t);
      SplitWithoutSep(t, sep);
    } else {
      assert s[1..] == h[1..] + [sep] + t;
      LastPartAfterSep(h[1..], sep, t);
      SplitAtSep(s[1..], sep);
    }
  }

  // ---------------------------------------------------------------------------
  // strip

  /** `s.lstrip()`: drops the leading whitespace and nothing else. */
  function LStrip(s: string): (r: string)
    ensures |r| <= |s| && r == s[|s| - |r|..]
    ensures forall k :: 0 <= k < |s| - |r| ==> IsSpace(s[k])
    ensures r != [] ==> !IsSpace(r[0])
  {
    if s != [] && IsSpace(s[0]) then LStrip(s[1..]) else s
  }

  /** `s.rstrip()`: drops the trailing whitespace and nothing else. */
  function RStrip(s: string): (r: string)
    ensures |r| <= |s| && r == s[..|r|]
    ensures forall k :: |r| <= k < |s| ==> IsSpace(s[k])
    ensures r != [] ==> !IsSpace(r[|r| - 1])
  {
    if s != [] && IsSpace(s[|s| - 1]) then RStrip(s[..|s| - 1]) else s
  }

  /** `s.strip()`. */
  function Strip(s: string): string {
    RStrip(LStrip(s))
  }

  /** Stripping twice is stripping once. */
  lemma StripIdempotent(s: string)
    ensures Strip(Strip(s)) == Strip(s)
  {
    var r := Strip(s);
    assert r != [] ==> !IsSpace(r[0]);
    assert LStrip(r) == r;
    assert r != [] ==> !IsSpace(r[|r| - 1]);
  }

  /** A string with no whitespace at either end is left as it is. */
  lemma StripUntrimmed(s: string)
    requires s != [] ==> !IsSpace(s[0]) && !IsSpace(s[|s| - 1])
    ensures Strip(s) == s
  {
  }

  // ---------------------------------------------------------------------------
  // `sub in s` on strings

  /** Python's `sub in s` for two strings: `sub` occurs somewhere in `s`. */
  predicate IsInfix(sub: string, s: string)
    decreases |s|
  {
    sub <= s || (s != [] && IsInfix(sub, s[1..]))
  }

  // ---------------------------------------------------------------------------
  // str(n) for integers

  function DigitChar(d: nat): (c: char)
    requires d < 10
    ensures '0' <= c <= '9'
  {
    ('0' as int + d) as char
  }

  predicate IsDigit(c: char) {
    '0' <= c <= '9'
  }

  /** `str(n)` for `n >= 0`: decimal digits, no leading zero. */
  function NatText(n: nat): (r: string)
    ensures |r| >= 1
    ensures forall k :: 0 <= k < |r| ==> IsDigit(r[k])
    ensures |r| > 1 ==> r[0] != '0'
  {
    if n < 10 then [DigitChar(n)] else NatText(n / 10) + [DigitChar(n % 10)]
  }

  /** `str(i)` for any integer: a minus sign before the digits of a negative one. */
  function IntText(i: int): string {
    if i < 0 then "-" + NatText(-i) else NatText(i)
  }

  /** The value of a string of decimal digits, read left to right. */
  function ParseNat(s: string): nat
    requires forall k :: 0 <= k < |s| ==> IsDigit(s[k])
  {
    if s == [] then 0
    else
      var c := s[|s| - 1];
      assert IsDigit(c);
      10 * ParseNat(s[..|s| - 1]) + (c as int - '0' as int)
  }

  /** The value of an optionally signed decimal text. */
  function ParseInt(s: string): int
    requires s != [] && (s[0] == '-' ==> |s| > 1)
    requires forall k :: (if s[0] == '-' then 1 else 0) <= k < |s| ==> IsDigit(s[k])
  {
    if s[0] == '-' then -(ParseNat(s[1..]) as int) else ParseNat(s)
  }

  /** Reading back the decimal text of a natural number gives the number. */
  lemma {:induction false} NatTextRoundTrip(n: nat)
    ensures ParseNat(NatText(n)) == n
  {
    if n >= 10 {
      var t := NatText(n / 10);
      NatTextRoundTrip(n / 10);
      var s := t + [DigitChar(n % 10)];
      assert s[..|s| - 1] == t;
    }
  }

  /** Reading back `str(i)` gives `i`, for every integer. */
  lemma IntTextRoundTrip(i: int)
    ensures var t := IntText(i);
      t != [] && (t[0] == '-' ==> |t| > 1)
      && (forall k :: (if t[0] == '-' then 1 else 0) <= k < |t| ==> IsDigit(t[k]))
      && ParseInt(t) == i
  {
    if i < 0 {
      NatTextRoundTrip(-i);
      assert IntText(i)[1..] == NatText(-i);
    } else {
      NatTextRoundTrip(i);
    }
  }
}
