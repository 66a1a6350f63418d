/** The Python string built-ins that the downloader relies on, as functions on `seq<char>`:
    substring search (`t in s`), `str.endswith`, `str.replace(c, "")`, `str.strip()`,
    the file-name splitting `s.split(c)[-1]` and `s.rsplit(c, 1)[0]`, `sep.join(xs)`,
    and `float(s)` restricted to unsigned decimal notation. */
module Text {
  import opened Wrappers

  // ---------------------------------------------------------------------------
  // Substring search: Python's `t in s`
  // ---------------------------------------------------------------------------

  /** `t` occurs in `s` starting at index `i`. */
  predicate OccursAt(s: string, t: string, i: int)
  {
    0 <= i && i + |t| <= |s| && s[i..i + |t|] == t
  }

  /** Python's `t in s` for two strings: some window of `s` equals `t`. */
  function Contains(s: string, t: string): (r: bool)
    ensures r <==> exists i :: OccursAt(s, t, i)
    decreases |s|
  {
    if |s| < |t| then
      false
    else if s[..|t|] == t then
      assert OccursAt(s, t, 0);
      true
    else
      OccursShift(s, t);
      Contains(s[1..], t)
  }

  /** When `t` is not at the front of `s`, its occurrences in `s` are those in `s[1..]`. */
  lemma OccursShift(s: string, t: string)
    requires |t| <= |s| && s[..|t|] != t
    ensures (exists i :: OccursAt(s, t, i)) <==> (exists i :: OccursAt(s[1..], t, i))
  {
    if exists i :: OccursAt(s, t, i) {
      var i :| OccursAt(s, t, i);
      assert i != 0;
      assert s[1..][i - 1..i - 1 + |t|] == s[i..i + |t|];
      assert OccursAt(s[1..], t, i - 1);
    }
    if exists i :: OccursAt(s[1..], t, i) {
      var i :| OccursAt(s[1..], t, i);
      assert s[1..][i..i + |t|] == s[i + 1..i + 1 + |t|];
      assert OccursAt(s, t, i + 1);
    }
  }

  /** A text with a character that `s` lacks does not occur in `s`. */
  lemma AbsentCharNoOccurrence(s: string, t: string, k: int)
    requires 0 <= k < |t| && t[k] !in s
    ensures !exists i :: OccursAt(s, t, i)
  {
  }

  /** Python's `s.endswith(t)`: some occurrence of `t` in `s` ends where `s` ends. */
  predicate EndsWith(s: string, t: string): (r: bool)
    ensures r <==> exists i :: OccursAt(s, t, i) && i + |t| == |s|
  {
    if |t| <= |s| && s[|s| - |t|..] == t then
      assert OccursAt(s, t, |s| - |t|);
      true
    else
      false
  }

  /** A suffix of `b` is a suffix of `a + b`. */
  lemma {:induction false} EndsWithAppend(a: string, b: string, t: string)
    requires EndsWith(b, t)
    ensures EndsWith(a + b, t)
  {
    assert (a + b)[|a + b| - |t|..] == b[|b| - |t|..];
  }

  // ---------------------------------------------------------------------------
  // `s.replace(c, "")` and `s.strip()`
  // ---------------------------------------------------------------------------

  /** Python's `s.replace(c, "")` for a one-character `c`: every `c` is dropped, the rest keeps its order. */
  function RemoveAll(s: string, c: char): (r: string)
    ensures c !in r
    ensures c !in s ==> r == s
  {
    if s == [] then
      []
    else
      var rest := RemoveAll(s[1..], c);
      if s[0] == c then rest else [s[0]] + rest
  }

  /** `s.replace(c, "")` keeps every other character as often as `s` has it. */
  lemma {:induction false} RemoveAllCounts(s: string, c: char)
    ensures multiset(RemoveAll(s, c)) == multiset(s)[c := 0]
  {
    if s != [] {
      RemoveAllCounts(s[1..], c);
      assert s == [s[0]] + s[1..];
    }
  }

  /** Removing a character distributes over concatenation. */
  lemma {:induction false} RemoveAllAppend(a: string, b: string, c: char)
    ensures RemoveAll(a + b, c) == RemoveAll(a, c) + RemoveAll(b, c)
    decreases |a|
  {
    if a != [] {
      assert (a + b)[0] == a[0] && (a + b)[1..] == a[1..] + b;
      RemoveAllAppend(a[1..], b, c);
    } else {
      assert a + b == b;
    }
  }

  /** The characters for which Python's `str.isspace()` holds; `str.strip()` removes exactly these. */
  predicate IsSpace(ch: char)
  {
    var n := ch as int;
    (9 <= n <= 13) || (0x1c <= n <= 0x20) || n == 0x85 || n == 0xa0 || n == 0x1680
    || (0x2000 <= n <= 0x200a) || n == 0x2028 || n == 0x2029 || n == 0x202f || n == 0x205f
    || n == 0x3000
  }

  /** Python's `s.lstrip()`: the suffix of `s` left after its leading whitespace. */
  function StripLeft(s: string): (r: string)
    ensures |r| <= |s| && r == s[|s| - |r|..]
    ensures r == [] || !IsSpace(r[0])
    ensures forall i :: 0 <= i < |s| - |r| ==> IsSpace(s[i])
  {
    if s == [] || !IsSpace(s[0]) then s else StripLeft(s[1..])
  }

  /** Python's `s.rstrip()`: the prefix of `s` left after its trailing whitespace. */
  function StripRight(s: string): (r: string)
    ensures |r| <= |s| && r == s[..|r|]
    ensures r == [] || !IsSpace(r[|r| - 1])
    ensures forall i :: |r| <= i < |s| ==> IsSpace(s[i])
  {
    if s == [] || !IsSpace(s[|s| - 1]) then s else StripRight(s[..|s| - 1])
  }

  /** `r` occurs in `s` at `i`, and everything of `s` before and after that occurrence is whitespace. */
  predicate TrimmedAt(s: string, r: string, i: int)
  {
    && OccursAt(s, r, i)
    && (forall j :: 0 <= j < i ==> IsSpace(s[j]))
    && (forall j :: i + |r| <= j < |s| ==> IsSpace(s[j]))
  }

  /** Python's `s.strip()`: `s` with only its leading and trailing whitespace dropped. */
  function Strip(s: string): (r: string)
    ensures exists i :: TrimmedAt(s, r, i)
    ensures r == [] || (!IsSpace(r[0]) && !IsSpace(r[|r| - 1]))
    ensures r == [] ==> forall i :: 0 <= i < |s| ==> IsSpace(s[i])
  {
    StripBothTrimmed(s);
    StripRight(StripLeft(s))
  }

  /** Stripping the left end and then the right one drops whitespace only. */
  lemma {:induction false} StripBothTrimmed(s: string)
    ensures TrimmedAt(s, StripRight(StripLeft(s)), |s| - |StripLeft(s)|)
  {
    var left := StripLeft(s);
    TrimmedFromEnds(s, left, StripRight(left));
  }

  /** A whitespace-only prefix dropped from `s`, then a whitespace-only suffix from what is left. */
  lemma {:induction false} TrimmedFromEnds(s: string, left: string, r: string)
    requires |left| <= |s| && left == s[|s| - |left|..]
    requires forall i :: 0 <= i < |s| - |left| ==> IsSpace(s[i])
    requires |r| <= |left| && r == left[..|r|]
    requires forall i :: |r| <= i < |left| ==> IsSpace(left[i])
    ensures TrimmedAt(s, r, |s| - |left|)
  {
    var i := |s| - |left|;
    assert s[i..i + |r|] == left[..|r|];
    forall j | i + |r| <= j < |s|
      ensures IsSpace(s[j])
    {
      assert s[j] == left[j - i];
    }
  }

  /** A string with no whitespace at either end is left alone by `strip()`. */
  lemma StripTrimmed(s: string)
    requires s == [] || (!IsSpace(s[0]) && !IsSpace(s[|s| - 1]))
    ensures Strip(s) == s
  {
    assert StripLeft(s) == s;
  }

  // ---------------------------------------------------------------------------
  // File-name splitting
  // ---------------------------------------------------------------------------

  /** `r` is the suffix of `s` after its last `c`: it holds no `c`, and it is all of `s` or
      follows a `c`. */
  predicate SuffixAfterLast(s: string, c: char, r: string)
  {
    && |r| <= |s| && r == s[|s| - |r|..]
    && c !in r
    && (|r| < |s| ==> s[|s| - |r| - 1] == c)
  }

  /** `r` is the prefix of `s` before its last `c`: it is all of `s` or is followed by a `c` after
      which no `c` occurs. */
  predicate PrefixBeforeLast(s: string, c: char, r: string)
  {
    && |r| <= |s| && r == s[..|r|]
    && (|r| < |s| ==> s[|r|] == c)
    && (forall j :: |r| < j < |s| ==> s[j] != c)
  }

  /** Python's `s.split(c)[-1]`: what follows the last `c` in `s`, or all of `s` when it has none. */
  function AfterLast(s: string, c: char): (r: string)
    ensures SuffixAfterLast(s, c, r)
  {
    if s == [] || s[|s| - 1] == c then
      []
    else
      var r := AfterLast(s[..|s| - 1], c) + [s[|s| - 1]];
      assert s == s[..|s| - 1] + [s[|s| - 1]];
      r
  }

  /** Python's `s.rsplit(c, 1)[0]`: what precedes the last `c` in `s`, or all of `s` when it has none. */
  function BeforeLast(s: string, c: char): (r: string)
    ensures PrefixBeforeLast(s, c, r)
    ensures |r| == |s| <==> c !in s
  {
    if c !in s then
      s
    else if s[|s| - 1] == c then
      s[..|s| - 1]
    else
      BeforeLast(s[..|s| - 1], c)
  }

  /** Python's `sep.join(xs)`: the strings of `xs` in order with `sep` between neighbours. */
  function Join(xs: seq<string>, sep: string): (r: string)
    ensures xs == [] ==> r == []
    ensures |xs| == 1 ==> r == xs[0]
    ensures xs != [] ==> OccursAt(r, xs[0], 0) && EndsWith(r, xs[|xs| - 1])
    ensures |xs| >= 2 ==> OccursAt(r, sep, |xs[0]|)
  {
    if xs == [] then ""
    else if |xs| == 1 then xs[0]
    else
      var rest := Join(xs[1..], sep);
      JoinStep(xs[0], sep, rest, xs[|xs| - 1]);
      xs[0] + sep + rest
  }

  /** Joining two non-empty lists is joining each and putting `sep` between the two results; with
      the cases of no and one string this determines `Join` completely. */
  lemma {:induction false} JoinAppend(a: seq<string>, b: seq<string>, sep: string)
    requires a != [] && b != []
    ensures Join(a + b, sep) == Join(a, sep) + sep + Join(b, sep)
    decreases |a|
  {
    var ab := a + b;
    assert ab[0] == a[0] && |ab| >= 2;
    assert ab[1..] == a[1..] + b;
    var jb := Join(b, sep);
    if |a| == 1 {
      assert ab[1..] == b;
    } else {
      var ja := Join(a[1..], sep);
      JoinAppend(a[1..], b, sep);
      assert Join(ab, sep) == a[0] + sep + (ja + sep + jb);
      assert Join(a, sep) == a[0] + sep + ja;
      JoinRegroup(a[0], sep, ja, jb);
    }
  }

  /** Regrouping the pieces of a join. */
  lemma JoinRegroup(x: string, sep: string, y: string, z: string)
    ensures x + sep + (y + sep + z) == (x + sep + y) + sep + z
  {
  }

  /** `first + sep + rest` starts with `first`, has `sep` right after it and ends as `rest` does. */
  lemma {:induction false} JoinStep(first: string, sep: string, rest: string, last: string)
    requires EndsWith(rest, last)
    ensures var r := first + sep + rest;
      OccursAt(r, first, 0) && OccursAt(r, sep, |first|) && EndsWith(r, last)
  {
    var r := first + sep + rest;
    assert r[..|first|] == first;
    assert r[|first|..|first| + |sep|] == sep;
    EndsWithAppend(first + sep, rest, last);
  }

  // ---------------------------------------------------------------------------
  // Decimal numbers: Python's `float(s)` on unsigned decimal notation
  // ---------------------------------------------------------------------------

  predicate IsDigit(ch: char)
  {
    '0' <= ch <= '9'
  }

  predicate AllDigits(s: string)
  {
    forall i :: 0 <= i < |s| ==> IsDigit(s[i])
  }

  /** The value of a string of decimal digits ("" is 0). */
  function DigitsValue(s: string): nat
    requires AllDigits(s)
  {
    if s == [] then 0 else DigitsValue(s[..|s| - 1]) * 10 + (s[|s| - 1] as int - '0' as int)
  }

  /** The value of the digits after a decimal point: "25" is 0.25. */
  function FractionValue(s: string): (r: real)
    requires AllDigits(s)
    ensures 0.0 <= r
  {
    if s == [] then 0.0 else ((s[0] as int - '0' as int) as real + FractionValue(s[1..])) / 10.0
  }

  /** `float(s)` for a string that is an unsigned decimal number with at most one point and at
      least one digit ("45", "45.3", ".5", "5."); `None` where Python's `float` raises. */
  function ParseFloat(s: string): (r: Option<real>)
    ensures r.Some? ==> r.value >= 0.0
  {
    if '.' in s then
      var whole := BeforeLast(s, '.');
      var frac := s[|whole| + 1..];
      if AllDigits(whole) && AllDigits(frac) && |whole| + |frac| > 0 then
        Some(DigitsValue(whole) as real + FractionValue(frac))
      else
        None
    else if s != [] && AllDigits(s) then
      Some(DigitsValue(s) as real)
    else
      None
  }

  /** The decimal spelling of `n`, as Python's `str(n)` writes it. */
  function DecimalString(n: nat): (r: string)
    ensures r != [] && AllDigits(r)
  {
    var last := [('0' as int + n % 10) as char];
    if n < 10 then last else DecimalString(n / 10) + last
  }

  /** Reading back the decimal spelling of `n` gives `n`. */
  lemma {:induction false} DecimalStringValue(n: nat)
    ensures DigitsValue(DecimalString(n)) == n
  {
    var s := DecimalString(n);
    if n >= 10 {
      assert s[..|s| - 1] == DecimalString(n / 10);
      DecimalStringValue(n / 10);
    }
  }

  /** `float` accepts only digits and the decimal point. */
  lemma {:induction false} ParseFloatCharacters(s: string)
    requires ParseFloat(s).Some?
    ensures forall k :: 0 <= k < |s| ==> IsDigit(s[k]) || s[k] == '.'
  {
    if '.' in s {
      var whole := BeforeLast(s, '.');
      var frac := s[|whole| + 1..];
      forall k | 0 <= k < |s|
        ensures IsDigit(s[k]) || s[k] == '.'
      {
        if k < |whole| {
          assert s[k] == whole[k];
        } else if k > |whole| {
          assert s[k] == frac[k - |whole| - 1];
        }
      }
    }
  }

  /** `float(str(n) + ".0") == n`: the one-decimal spelling of a whole number reads back as it. */
  lemma {:induction false} ParseDecimalPointZero(n: nat)
    ensures ParseFloat(DecimalString(n) + ".0") == Some(n as real)
  {
    var digits := DecimalString(n);
    var s := digits + ".0";
    assert s[|digits|] == '.';
    var whole := BeforeLast(s, '.');
    forall k | 0 <= k < |digits|
      ensures s[k] != '.'
    {
      assert s[k] == digits[k];
    }
    assert s[|digits| + 1] == '0';
    assert |whole| == |digits|;
    assert whole == digits;
    assert s[|whole| + 1..] == "0";
    assert FractionValue("0") == 0.0;
    DecimalStringValue(n);
  }

  /** `float(str(n)) == n` for every natural number `n`. */
  lemma ParseDecimalString(n: nat)
    ensures ParseFloat(DecimalString(n)) == Some(n as real)
  {
    DecimalStringValue(n);
  }
}
