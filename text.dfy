/**
 * The small part of Python's string behaviour that the harness relies on:
 * `str.lower()` (on ASCII), `str(int)` and `int(str)`, `str.split(sep)`,
 * `sep.join(parts)`, `str.startswith` and the substring test `needle in hay`.
 */
module Text {
  import opened Wrappers

  predicate IsUpper(c: char) { 'A' <= c <= 'Z' }
  predicate IsAsciiLetter(c: char) { 'a' <= c <= 'z' || 'A' <= c <= 'Z' }
  predicate IsDigit(c: char) { '0' <= c <= '9' }

  predicate AllDigits(s: string)
  {
    forall i :: 0 <= i < |s| ==> IsDigit(s[i])
  }

  // ---------------------------------------------------------------------
  // str.lower(), restricted to ASCII

  function LowerChar(c: char): char
  {
    if IsUpper(c) then (c as int + 32) as char else c
  }

  function Lower(s: string): (r: string)
    ensures |r| == |s|
    ensures forall i :: 0 <= i < |s| ==> r[i] == LowerChar(s[i])
  {
    seq(|s|, i requires 0 <= i < |s| => LowerChar(s[i]))
  }

  /** Lowering twice is lowering once. */
  lemma LowerIdempotent(s: string)
    ensures Lower(Lower(s)) == Lower(s)
  {
    assert forall i :: 0 <= i < |s| ==> !IsUpper(Lower(s)[i]);
  }

  /** A string without upper-case letters is its own lower-case form. */
  lemma LowerOfLower(s: string)
    requires forall i :: 0 <= i < |s| ==> !IsUpper(s[i])
    ensures Lower(s) == s
  {
  }

  // ---------------------------------------------------------------------
  // str(n) and int(s) for integers in decimal

  function DigitChar(d: nat): (c: char)
    requires d < 10
    ensures IsDigit(c) && c as int - '0' as int == d
  {
    ('0' as int + d) as char
  }

  function DigitValue(c: char): nat
    requires IsDigit(c)
  {
    c as int - '0' as int
  }

  /** The decimal digits of `n`, most significant first, without leading zeros. */
  function NatToString(n: nat): (s: string)
    decreases n
  {
    if n < 10 then [DigitChar(n)] else NatToString(n / 10) + [DigitChar(n % 10)]
  }

  /**
   * `str(n)` for a Python `int`: a sign for negatives, then the digits without
   * a leading zero; `int()` reads it back as `n` when it has no more than
   * MaxStrDigits digits.
   */
  function IntToString(n: int): (s: string)
    ensures n >= 0 ==> |s| >= 1 && AllDigits(s)
    ensures n < 0 ==> |s| >= 2 && s[0] == '-' && AllDigits(s[1..])
    // one canonical decimal: no leading zero, except `0` itself
    ensures n == 0 ==> s == "0"
    ensures n > 0 ==> s[0] != '0'
    ensures n < 0 ==> s[1] != '0'
    // within the digit limit, `int()` reads it back
    ensures DigitLength(s) <= MaxStrDigits ==> ParseInt(s) == Some(n)
  {
    if n < 0 then
      NatToStringDigits(-n);
      assert ("-" + NatToString(-n))[1..] == NatToString(-n);
      "-" + NatToString(-n)
    else
      NatToStringDigits(n);
      NatToString(n)
  }

  /** `str(n)` stays within the digit limit, so neither `str()` nor `int()` of it raises. */
  predicate WithinDigitLimit(n: int)
  {
    DigitLength(IntToString(n)) <= MaxStrDigits
  }

  /** The number written by a string of decimal digits (the empty string is 0). */
  function DigitsValue(s: string): nat
    requires AllDigits(s)
  {
    if s == [] then 0 else DigitsValue(s[..|s| - 1]) * 10 + DigitValue(s[|s| - 1])
  }

  /**
   * `sys.int_info.default_max_str_digits`: past this many decimal digits
   * `int()` and `str()` raise ValueError.
   */
  const MaxStrDigits: nat := 4300

  /** The number of characters of `s` after an optional leading sign. */
  function DigitLength(s: string): nat
  {
    if |s| > 0 && s[0] in "+-" then |s| - 1 else |s|
  }

  /**
   * `int(s)`: an optional sign and at least one ASCII digit, no more than
   * MaxStrDigits of them; `None` is Python's ValueError.
   */
  function ParseInt(s: string): (r: Option<int>)
    ensures r.Some? <==>
      && DigitLength(s) <= MaxStrDigits
      && ((|s| > 0 && AllDigits(s)) || (|s| > 1 && s[0] in "+-" && AllDigits(s[1..])))
    ensures DigitLength(s) > MaxStrDigits ==> r == None
    ensures 0 < |s| <= MaxStrDigits && AllDigits(s) ==> r == Some(DigitsValue(s))
    ensures 1 < |s| <= MaxStrDigits + 1 && s[0] == '+' && AllDigits(s[1..]) ==> r == Some(DigitsValue(s[1..]))
    ensures 1 < |s| <= MaxStrDigits + 1 && s[0] == '-' && AllDigits(s[1..]) ==> r == Some(-(DigitsValue(s[1..]) as int))
  {
    if DigitLength(s) > MaxStrDigits then None
    else if |s| > 1 && s[0] == '-' && AllDigits(s[1..]) then Some(-(DigitsValue(s[1..]) as int))
    else if |s| > 1 && s[0] == '+' && AllDigits(s[1..]) then Some(DigitsValue(s[1..]))
    else if |s| > 0 && AllDigits(s) then Some(DigitsValue(s))
    else None
  }

  lemma {:induction false} NatToStringDigits(n: nat)
    ensures |NatToString(n)| >= 1 && AllDigits(NatToString(n))
    ensures DigitsValue(NatToString(n)) == n
    ensures n > 0 ==> NatToString(n)[0] != '0'
    decreases n
  {
    if n >= 10 {
      NatToStringDigits(n / 10);
      var s := NatToString(n);
      assert s[..|s| - 1] == NatToString(n / 10);
      assert s[0] == NatToString(n / 10)[0];
    }
  }

  /** Distinct integers render differently. */
  lemma IntToStringInjective(m: int, n: int)
    requires IntToString(m) == IntToString(n)
    ensures m == n
  {
    var s := IntToString(m);
    if m < 0 && n < 0 {
      NatToStringDigits(-m);
      NatToStringDigits(-n);
      assert s[1..] == NatToString(-m) == NatToString(-n);
    } else if m >= 0 && n >= 0 {
      NatToStringDigits(m);
      NatToStringDigits(n);
    }
  }

  // ---------------------------------------------------------------------
  // str.split(sep) with an explicit one-character separator, and sep.join

  function Count(s: string, c: char): nat
  {
    if s == [] then 0 else (if s[0] == c then 1 else 0) + Count(s[1..], c)
  }

  /** `s.split(sep)`: never empty, one more part than there are separators, no part holds `sep`. */
  function Split(s: string, sep: char): (parts: seq<string>)
    ensures |parts| == Count(s, sep) + 1
    ensures forall i :: 0 <= i < |parts| ==> sep !in parts[i]
  {
    if s == [] then [""]
    else
      var rest := Split(s[1..], sep);
      if s[0] == sep then [""] + rest else [[s[0]] + rest[0]] + rest[1..]
  }

  /** `sep.join(parts)` for a non-empty list of parts. */
  function Join(parts: seq<string>, sep: char): string
    requires |parts| >= 1
  {
    if |parts| == 1 then parts[0] else parts[0] + [sep] + Join(parts[1..], sep)
  }

  /** Joining the parts of a split gives back the original string. */
  lemma {:induction false} JoinSplit(s: string, sep: char)
    ensures Join(Split(s, sep), sep) == s
  {
    if s != [] {
      JoinSplit(s[1..], sep);
      var rest := Split(s[1..], sep);
      if s[0] != sep && |rest| > 1 {
        assert Split(s, sep)[1..] == rest[1..];
      }
    }
  }

  lemma {:induction false} SplitNoSeparator(a: string, sep: char)
    requires sep !in a
    ensures Split(a, sep) == [a]
  {
    if a != [] {
      assert sep !in a[1..];
      SplitNoSeparator(a[1..], sep);
      assert [a[0]] + a[1..] == a;
    }
  }

  lemma {:induction false} SplitAfterPart(a: string, sep: char, t: string)
    requires sep !in a
    ensures Split(a + [sep] + t, sep) == [a] + Split(t, sep)
  {
    if a != [] {
      assert (a + [sep] + t)[1..] == a[1..] + [sep] + t;
      assert sep !in a[1..];
      SplitAfterPart(a[1..], sep, t);
      assert [a[0]] + a[1..] == a;
    } else {
      assert a + [sep] + t == [sep] + t;
      assert ([sep] + t)[1..] == t;
    }
  }

  /** Splitting a join of separator-free parts gives back the parts. */
  lemma {:induction false} SplitJoin(parts: seq<string>, sep: char)
    requires |parts| >= 1
    requires forall i :: 0 <= i < |parts| ==> sep !in parts[i]
    ensures Split(Join(parts, sep), sep) == parts
  {
    if |parts| == 1 {
      SplitNoSeparator(parts[0], sep);
    } else {
      SplitJoin(parts[1..], sep);
      SplitAfterPart(parts[0], sep, Join(parts[1..], sep));
    }
  }

  // ---------------------------------------------------------------------
  // `needle in hay` for strings

  /** `needle` occurs in `hay` starting at position `i`. */
  ghost predicate OccursAt(hay: string, needle: string, i: int)
  {
    0 <= i && i + |needle| <= |hay| && hay[i..i + |needle|] == needle
  }

  /** Python's `needle in hay`, by scanning for a prefix match. */
  function Contains(hay: string, needle: string): bool
    decreases |hay|
  {
    if needle <= hay then true
    else if hay == [] then false
    else Contains(hay[1..], needle)
  }

  /** An occurrence in the tail is an occurrence in the whole, one position on. */
  lemma OccursInTail(hay: string, needle: string, i: int)
    requires hay != [] && 0 <= i
    ensures OccursAt(hay[1..], needle, i) <==> OccursAt(hay, needle, i + 1)
  {
    if i + |needle| <= |hay[1..]| {
      assert hay[1..][i..i + |needle|] == hay[i + 1..i + 1 + |needle|];
    }
  }

  /** The scan finds a match exactly when the needle occurs somewhere. */
  lemma {:induction false} ContainsIffOccurs(hay: string, needle: string)
    ensures Contains(hay, needle) <==> exists i :: OccursAt(hay, needle, i)
    decreases |hay|
  {
    if needle <= hay {
      assert OccursAt(hay, needle, 0);
    } else if hay == [] {
      assert needle != [];
    } else {
      ContainsIffOccurs(hay[1..], needle);
      if exists i :: OccursAt(hay[1..], needle, i) {
        var i :| OccursAt(hay[1..], needle, i);
        OccursInTail(hay, needle, i);
      }
      if exists i :: OccursAt(hay, needle, i) {
        var i :| OccursAt(hay, needle, i);
        OccursInTail(hay, needle, i - 1);
      }
    }
  }
}
