/** The Python string builtins the scraper and its helper classes rely on:
    `str.isspace`, `str.split()` with no separator, `str.strip()`,
    `removeprefix`/`removesuffix`, one-character `str.replace`, `str.join`
    and `int(str)` in base 10. */
module Strings {
  import opened Common

  /** Python's `str.isspace()` for one character. */
  predicate IsSpace(c: char) {
    || c == ' ' || c == '\t' || c == '\n' || c == '\r'
    || c == '\U{000B}' || c == '\U{000C}'
    || ('\U{001C}' <= c <= '\U{001F}')
    || c == '\U{0085}' || c == '\U{00A0}' || c == '\U{1680}'
    || ('\U{2000}' <= c <= '\U{200A}')
    || c == '\U{2028}' || c == '\U{2029}' || c == '\U{202F}'
    || c == '\U{205F}' || c == '\U{3000}'
  }

  predicate NoSpace(s: string) {
    forall i :: 0 <= i < |s| ==> !IsSpace(s[i])
  }

  /** `s.lstrip()`: the suffix left after dropping leading whitespace. */
  function DropSpaces(s: string): (r: string)
    ensures |r| <= |s| && r == s[|s| - |r|..]
    ensures r == [] || !IsSpace(r[0])
  {
    if s == [] || !IsSpace(s[0]) then s else DropSpaces(s[1..])
  }

  /** Only whitespace is dropped. */
  lemma {:induction false} DropSpacesDropsSpaces(s: string)
    ensures forall i :: 0 <= i < |s| - |DropSpaces(s)| ==> IsSpace(s[i])
  {
    if s != [] && IsSpace(s[0]) {
      DropSpacesDropsSpaces(s[1..]);
    }
  }

  /** `s.rstrip()`: the prefix left after dropping trailing whitespace. */
  function DropTrailingSpaces(s: string): (r: string)
    ensures |r| <= |s| && r == s[..|r|]
    ensures r == [] || !IsSpace(r[|r| - 1])
  {
    if s == [] || !IsSpace(s[|s| - 1]) then s else DropTrailingSpaces(s[..|s| - 1])
  }

  /** `s.strip()`. */
  function Strip(s: string): string {
    DropTrailingSpaces(DropSpaces(s))
  }

  /** The longest prefix of `s` that holds no whitespace. */
  function TakeWord(s: string): (w: string)
    ensures |w| <= |s| && w == s[..|w|]
    ensures s != [] && !IsSpace(s[0]) ==> |w| > 0
  {
    if s == [] || IsSpace(s[0]) then [] else [s[0]] + TakeWord(s[1..])
  }

  /** The run taken holds no whitespace. */
  lemma {:induction false} TakeWordNoSpace(s: string)
    ensures NoSpace(TakeWord(s))
  {
    if s != [] && !IsSpace(s[0]) {
      TakeWordNoSpace(s[1..]);
      var w := TakeWord(s);
      assert w == [s[0]] + TakeWord(s[1..]);
      forall i | 0 < i < |w| ensures !IsSpace(w[i]) {
        assert w[i] == TakeWord(s[1..])[i - 1];
      }
    }
  }

  /** The run taken is maximal: it stops only at whitespace or at the end. */
  lemma {:induction false} TakeWordMaximal(s: string)
    ensures |TakeWord(s)| < |s| ==> IsSpace(s[|TakeWord(s)|])
  {
    if s != [] && !IsSpace(s[0]) {
      TakeWordMaximal(s[1..]);
    }
  }

  /** `s.split()`: the maximal runs of non-whitespace characters, in order. */
  function Words(s: string): (ws: seq<string>)
    decreases |s|
  {
    var t := DropSpaces(s);
    if t == [] then []
    else
      var w := TakeWord(t);
      assert |w| > 0;
      [w] + Words(t[|w|..])
  }

  predicate IsWord(w: string) {
    w != [] && NoSpace(w)
  }

  /** Every word is non-empty and holds no whitespace. */
  lemma {:induction false} WordsAreWords(s: string)
    ensures forall k :: 0 <= k < |Words(s)| ==> IsWord(Words(s)[k])
    decreases |s|
  {
    var t := DropSpaces(s);
    if t != [] {
      var w := TakeWord(t);
      var rest := t[|w|..];
      TakeWordNoSpace(t);
      WordsAreWords(rest);
      var ws := Words(s);
      assert ws == [w] + Words(rest);
      assert IsWord(w);
      forall k | 0 <= k < |ws| ensures IsWord(ws[k]) {
        if k > 0 {
          assert ws[k] == Words(rest)[k - 1];
        }
      }
    }
  }

  /** `split()` cuts at maximal runs: once the leading whitespace is gone
      (and only whitespace goes, by `DropSpacesDropsSpaces`), the first word
      is a prefix of the rest that is followed by whitespace or by the end,
      and the other words are those of the text after it. */
  lemma WordsSplitsAtRuns(s: string)
    requires Words(s) != []
    ensures var t := DropSpaces(s);
      var w := Words(s)[0];
      && |w| <= |t| && t[..|w|] == w
      && (|w| < |t| ==> IsSpace(t[|w|]))
      && Words(s)[1..] == Words(t[|w|..])
  {
    WordsFirst(s);
    TakeWordMaximal(DropSpaces(s));
  }

  /** The first split step: the leading whitespace goes, then one word. */
  lemma WordsFirst(s: string)
    requires Words(s) != []
    ensures DropSpaces(s) != []
    ensures Words(s)[0] == TakeWord(DropSpaces(s))
    ensures Words(s)[1..] == Words(DropSpaces(s)[|TakeWord(DropSpaces(s))|..])
  {
    var t := DropSpaces(s);
    var w := TakeWord(t);
    assert Words(s) == [w] + Words(t[|w|..]);
  }

  /** A word followed by whitespace (or nothing) is the first word split off. */
  lemma WordsOfLeadingWord(w: string, rest: string)
    requires w != [] && NoSpace(w)
    requires rest == [] || IsSpace(rest[0])
    ensures Words(w + rest) == [w] + Words(rest)
  {
    var s := w + rest;
    assert !IsSpace(s[0]);
    assert DropSpaces(s) == s;
    TakeWordOfSpaced(w, rest);
    assert s[|w|..] == rest;
  }

  /** Leading whitespace does not start a word. */
  lemma WordsSkipSpace(c: char, rest: string)
    requires IsSpace(c)
    ensures Words([c] + rest) == Words(rest)
  {
    assert DropSpaces([c] + rest) == DropSpaces(rest) by {
      assert ([c] + rest)[1..] == rest;
    }
  }

  /** A single word with nothing around it splits to itself. */
  lemma WordsOfWord(w: string)
    requires w != [] && NoSpace(w)
    ensures Words(w) == [w]
  {
    WordsOfLeadingWord(w, []);
    assert w + [] == w;
  }

  /** Splitting a single space-separated pair of words gives back the two words. */
  lemma WordsOfPair(a: string, b: string)
    requires a != [] && NoSpace(a) && b != [] && NoSpace(b)
    ensures Words(a + " " + b) == [a, b]
  {
    var tail := [' '] + b;
    assert a + " " + b == a + tail;
    WordsOfLeadingWord(a, tail);
    WordsSkipSpace(' ', b);
    WordsOfWord(b);
    PairDisplay(a, b);
  }

  lemma PairDisplay<T>(a: T, b: T)
    ensures [a] + [b] == [a, b]
  {
  }

  /** The word taken from `w` followed by whitespace (or nothing) is `w`. */
  lemma {:induction false} TakeWordOfSpaced(w: string, rest: string)
    requires NoSpace(w)
    requires rest == [] || IsSpace(rest[0])
    ensures TakeWord(w + rest) == w
  {
    if w != [] {
      assert (w + rest)[1..] == w[1..] + rest;
      TakeWordOfSpaced(w[1..], rest);
    } else {
      assert w + rest == rest;
    }
  }

  /** `s.removeprefix(p)`. */
  function RemovePrefix(s: string, p: string): (r: string)
    ensures p <= s ==> p + r == s
    ensures !(p <= s) ==> r == s
  {
    if p <= s then s[|p|..] else s
  }

  /** `s.removesuffix(p)`. */
  function RemoveSuffix(s: string, p: string): (r: string)
    ensures |p| <= |s| && s[|s| - |p|..] == p ==> r + p == s
    ensures !(|p| <= |s| && s[|s| - |p|..] == p) ==> r == s
  {
    if |p| <= |s| && s[|s| - |p|..] == p then s[..|s| - |p|] else s
  }

  /** `s.replace(a, b)` for one-character `a` and `b`. */
  function ReplaceChar(s: string, a: char, b: char): (r: string)
    ensures |r| == |s|
    ensures forall i :: 0 <= i < |s| ==> r[i] == (if s[i] == a then b else s[i])
  {
    if s == [] then [] else [if s[0] == a then b else s[0]] + ReplaceChar(s[1..], a, b)
  }

  /** Replacing a character that no longer occurs changes nothing, so the
      replacement is idempotent. */
  lemma {:induction false} ReplaceCharIdempotent(s: string, a: char, b: char)
    requires a != b
    ensures a !in ReplaceChar(s, a, b)
    ensures ReplaceChar(ReplaceChar(s, a, b), a, b) == ReplaceChar(s, a, b)
  {
    if s != [] {
      ReplaceCharIdempotent(s[1..], a, b);
      var r := ReplaceChar(s, a, b);
      assert r == [r[0]] + ReplaceChar(s[1..], a, b);
      assert r[1..] == ReplaceChar(s[1..], a, b);
    }
  }

  /** `sep.join(parts)`. */
  function Join(sep: string, parts: seq<string>): (r: string)
    decreases |parts|
  {
    if |parts| == 0 then []
    else if |parts| == 1 then parts[0]
    else parts[0] + sep + Join(sep, parts[1..])
  }

  function SumLengths(parts: seq<string>): nat {
    if parts == [] then 0 else |parts[0]| + SumLengths(parts[1..])
  }

  /** The joined string is as long as all the parts together plus one
      separator for each adjacent pair. */
  lemma {:induction false} JoinLength(sep: string, parts: seq<string>)
    requires |parts| > 0
    ensures |Join(sep, parts)| == SumLengths(parts) + (|parts| - 1) * |sep|
  {
    if |parts| > 1 {
      JoinLength(sep, parts[1..]);
    }
  }

  /** Each part sits in the joined string between the join of the parts
      before it and the join of the parts after it, one separator on each
      side; the first and the last part are its ends. */
  lemma JoinPlacesPart(sep: string, parts: seq<string>, k: nat)
    requires k < |parts|
    ensures 0 < k < |parts| - 1 ==>
      Join(sep, parts) == Join(sep, parts[..k]) + sep + parts[k] + sep + Join(sep, parts[k + 1..])
    ensures k == 0 < |parts| - 1 ==> Join(sep, parts) == parts[0] + sep + Join(sep, parts[1..])
    ensures 0 < k == |parts| - 1 ==> Join(sep, parts) == Join(sep, parts[..k]) + sep + parts[k]
    ensures |parts| == 1 ==> Join(sep, parts) == parts[0]
  {
    if 0 < k {
      assert parts == parts[..k] + parts[k..];
      JoinAppend(sep, parts[..k], parts[k..]);
      if k < |parts| - 1 {
        assert parts[k..][1..] == parts[k + 1..];
      }
    }
  }

  /** Joining a concatenation is joining each half and separating them. */
  lemma {:induction false} JoinAppend(sep: string, xs: seq<string>, ys: seq<string>)
    requires xs != [] && ys != []
    ensures Join(sep, xs + ys) == Join(sep, xs) + sep + Join(sep, ys)
  {
    if |xs| == 1 {
      assert (xs + ys)[1..] == ys;
    } else {
      assert (xs + ys)[1..] == xs[1..] + ys;
      JoinAppend(sep, xs[1..], ys);
    }
  }

  predicate IsDigit(c: char) {
    '0' <= c <= '9'
  }

  /** The digit part accepted by Python's `int()` in base 10: ASCII digits,
      with single underscores allowed between two digits. */
  predicate DigitGroups(s: string) {
    && s != []
    && IsDigit(s[0]) && IsDigit(s[|s| - 1])
    && (forall i :: 0 <= i < |s| ==> IsDigit(s[i]) || s[i] == '_')
    && (forall i :: 0 <= i < |s| - 1 ==> !(s[i] == '_' && s[i + 1] == '_'))
  }

  /** The number written by the digits of `s`, underscores skipped. */
  function DigitsValue(s: string): nat
    requires forall i :: 0 <= i < |s| ==> IsDigit(s[i]) || s[i] == '_'
  {
    if s == [] then 0
    else if s[|s| - 1] == '_' then DigitsValue(s[..|s| - 1])
    else 10 * DigitsValue(s[..|s| - 1]) + DigitValue(s[|s| - 1])
  }

  function DigitValue(c: char): nat
    requires IsDigit(c)
  {
    c as int - '0' as int
  }

  /** Python's `int(s)`: `None` where Python raises `ValueError`. */
  function ParseInt(s: string): (r: Option<int>)
  {
    var t := Strip(s);
    if |t| > 0 && t[0] == '-' && DigitGroups(t[1..]) then Some(-(DigitsValue(t[1..]) as int))
    else if |t| > 0 && t[0] == '+' && DigitGroups(t[1..]) then Some(DigitsValue(t[1..]))
    else if DigitGroups(t) then Some(DigitsValue(t))
    else None
  }

  /** The decimal numeral of `n`, as `str(n)` writes it. */
  function NatToString(n: nat): (s: string)
    ensures s != [] && forall i :: 0 <= i < |s| ==> IsDigit(s[i])
  {
    var d := [(48 + n % 10) as char];
    if n < 10 then d else NatToString(n / 10) + d
  }

  lemma {:induction false} DigitsValueOfNumeral(n: nat)
    ensures DigitsValue(NatToString(n)) == n
  {
    var s := NatToString(n);
    if n >= 10 {
      DigitsValueOfNumeral(n / 10);
      assert s[..|s| - 1] == NatToString(n / 10);
    }
  }

  /** `int(str(n)) == n` for every non-negative `n`. */
  lemma ParseIntOfNumeral(n: nat)
    ensures ParseInt(NatToString(n)) == Some(n)
  {
    var s := NatToString(n);
    assert !IsSpace(s[0]);
    assert DropSpaces(s) == s;
    assert !IsSpace(s[|s| - 1]);
    assert DropTrailingSpaces(s) == s;
    assert Strip(s) == s;
    assert DigitGroups(s);
    DigitsValueOfNumeral(n);
  }
}
