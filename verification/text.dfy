/** String helpers shared by every component: substring search, ASCII case
    mapping, whitespace trimming, split/join on a separator, Python's
    `str.replace`, `str.split(m)[1]` and `str.rsplit(c, 1)`, and the
    zero-padded decimal rendering of `f"{n:03d}"`.

    Case mapping and whitespace are ASCII only; Unicode case folding is not
    part of this model. */
module Text {
  import opened Wrappers

  /** `p` occurs in `s` starting at index `i`. */
  predicate OccursAt(s: string, p: string, i: int) {
    0 <= i && i + |p| <= |s| && s[i..i + |p|] == p
  }

  /** Python `p in s`, JavaScript `s.includes(p)`. */
  predicate Contains(s: string, p: string) {
    exists i | 0 <= i <= |s| - |p| :: OccursAt(s, p, i)
  }

  /** Python `s.startswith(p)`, JavaScript `s.startsWith(p)`. */
  predicate StartsWith(s: string, p: string) {
    |p| <= |s| && s[..|p|] == p
  }

  /** Python `s.endswith(p)`. */
  predicate EndsWith(s: string, p: string) {
    |p| <= |s| && s[|s| - |p|..] == p
  }

  lemma OccursShift(s: string, p: string, k: int)
    requires |s| > 0 && 0 <= k
    ensures OccursAt(s[1..], p, k) <==> OccursAt(s, p, k + 1)
  {
    if 0 <= k && k + |p| <= |s| - 1 {
      assert s[1..][k..k + |p|] == s[k + 1..k + 1 + |p|];
    }
  }

  /** Index of the first occurrence of `p` in `s` (Python `s.find(p)`). */
  function IndexOf(s: string, p: string): (r: Option<nat>)
    ensures r.Some? <==> Contains(s, p)
    ensures r.Some? ==> OccursAt(s, p, r.value)
    ensures r.Some? ==> forall j :: 0 <= j < r.value ==> !OccursAt(s, p, j)
    decreases |s|
  {
    if |p| > |s| then None
    else if s[..|p|] == p then
      assert OccursAt(s, p, 0);
      Some(0)
    else
      assert !OccursAt(s, p, 0);
      var rest := IndexOf(s[1..], p);
      forall k | 0 <= k {
        OccursShift(s, p, k);
      }
      match rest
      case None =>
        assert forall i :: 1 <= i ==> !OccursAt(s, p, i) by {
          forall i | 1 <= i ensures !OccursAt(s, p, i) {
            OccursShift(s, p, i - 1);
          }
        }
        None
      case Some(k) =>
        assert forall j :: 1 <= j < k + 1 ==> !OccursAt(s, p, j) by {
          forall j | 1 <= j < k + 1 ensures !OccursAt(s, p, j) {
            OccursShift(s, p, j - 1);
          }
        }
        Some(k + 1)
  }

  lemma StartsWithContains(s: string, p: string)
    requires StartsWith(s, p)
    ensures Contains(s, p)
  {
    assert OccursAt(s, p, 0);
  }

  lemma StartsWithAppend(a: string, b: string)
    ensures StartsWith(a + b, a)
  {
    assert (a + b)[..|a|] == a;
  }

  /** A text that starts with `p + q` starts with `p`. */
  lemma StartsWithShorter(s: string, p: string, q: string)
    requires StartsWith(s, p + q)
    ensures StartsWith(s, p)
  {
    assert s[..|p|] == s[..|p + q|][..|p|];
  }

  lemma EndsWithAppend(a: string, b: string)
    ensures EndsWith(a + b, b)
  {
    assert (a + b)[|a|..] == b;
  }

  lemma ContainsMiddle(a: string, p: string, b: string)
    ensures Contains(a + p + b, p)
  {
    var s := a + p + b;
    assert s[|a|..|a| + |p|] == p;
    assert OccursAt(s, p, |a|);
  }

  lemma ContainsLeft(a: string, b: string, p: string)
    requires Contains(a, p)
    ensures Contains(a + b, p)
  {
    var i :| 0 <= i <= |a| - |p| && OccursAt(a, p, i);
    assert (a + b)[i..i + |p|] == a[i..i + |p|];
    assert OccursAt(a + b, p, i);
  }

  lemma ContainsRight(a: string, b: string, p: string)
    requires Contains(b, p)
    ensures Contains(a + b, p)
  {
    var i :| 0 <= i <= |b| - |p| && OccursAt(b, p, i);
    assert (a + b)[|a| + i..|a| + i + |p|] == b[i..i + |p|];
    assert OccursAt(a + b, p, |a| + i);
  }

  lemma ContainsSlice(s: string, lo: int, hi: int, p: string)
    requires 0 <= lo <= hi <= |s|
    requires Contains(s[lo..hi], p)
    ensures Contains(s, p)
  {
    var t := s[lo..hi];
    var i :| 0 <= i <= |t| - |p| && OccursAt(t, p, i);
    assert t[i..i + |p|] == p;
    forall k | 0 <= k < |p| ensures s[lo + i + k] == p[k] {
      assert t[i + k] == p[k];
    }
    assert s[lo + i..lo + i + |p|] == p;
    assert OccursAt(s, p, lo + i);
  }

  /** Containment is transitive: what occurs in `q` occurs wherever `q`
      does. */
  lemma ContainsWithin(s: string, q: string, p: string)
    requires Contains(s, q) && Contains(q, p)
    ensures Contains(s, p)
  {
    var i :| 0 <= i <= |s| - |q| && OccursAt(s, q, i);
    ContainsSlice(s, i, i + |q|, p);
  }

  /** A pattern whose first character is missing from `s` does not
      occur in it. */
  lemma NotContainsFirst(s: string, p: string)
    requires |p| > 0 && p[0] !in s
    ensures !Contains(s, p)
  {
    forall i | 0 <= i <= |s| - |p| ensures !OccursAt(s, p, i) {
      assert s[i] in s;
      assert s[i..i + |p|][0] == s[i];
    }
  }

  // ----- ASCII case mapping -----

  function LowerChar(c: char): char {
    if 'A' <= c <= 'Z' then (c as int + 32) as char else c
  }

  function UpperChar(c: char): char {
    if 'a' <= c <= 'z' then (c as int - 32) as char else c
  }

  /** Python `s.lower()` / JavaScript `s.toLowerCase()` on ASCII letters. */
  function Lower(s: string): (r: string)
    ensures |r| == |s|
    ensures forall i :: 0 <= i < |s| ==> r[i] == LowerChar(s[i])
  {
    seq(|s|, i requires 0 <= i < |s| => LowerChar(s[i]))
  }

  /** Python `s.upper()` / JavaScript `s.toUpperCase()` on ASCII letters. */
  function Upper(s: string): (r: string)
    ensures |r| == |s|
    ensures forall i :: 0 <= i < |s| ==> r[i] == UpperChar(s[i])
  {
    seq(|s|, i requires 0 <= i < |s| => UpperChar(s[i]))
  }

  lemma LowerAppend(a: string, b: string)
    ensures Lower(a + b) == Lower(a) + Lower(b)
  {
  }

  // ----- whitespace -----

  /** ASCII whitespace as Python's `str.strip()` and JavaScript's `trim()`
      see it: space, tab, line feed, carriage return, vertical tab, form feed. */
  predicate IsSpace(c: char) {
    c == ' ' || c == '\t' || c == '\n' || c == '\r' || c as int == 11 || c as int == 12
  }

  /** Remove leading and trailing characters satisfying `drop`. */
  function StripBy(s: string, drop: char -> bool): (r: string)
    ensures |r| <= |s|
    ensures |r| > 0 ==> !drop(r[0]) && !drop(r[|r| - 1])
    ensures exists lo, hi :: 0 <= lo <= hi <= |s| && r == s[lo..hi]
    ensures r == "" <==> forall j :: 0 <= j < |s| ==> drop(s[j])
    ensures |s| > 0 && !drop(s[0]) && !drop(s[|s| - 1]) ==> r == s
  {
    var lo := LeadingDropped(s, drop);
    var hi := KeptPrefix(s[lo..], drop);
    assert s[lo..][..hi] == s[lo..lo + hi];
    s[lo..][..hi]
  }

  /** How many leading characters `drop` removes. */
  function LeadingDropped(s: string, drop: char -> bool): (k: nat)
    ensures k <= |s|
    ensures forall j :: 0 <= j < k ==> drop(s[j])
    ensures k < |s| ==> !drop(s[k])
  {
    if |s| == 0 || !drop(s[0]) then 0 else 1 + LeadingDropped(s[1..], drop)
  }

  /** The length left once trailing characters `drop` removes are gone. */
  function KeptPrefix(s: string, drop: char -> bool): (k: nat)
    ensures k <= |s|
    ensures forall j :: k <= j < |s| ==> drop(s[j])
    ensures k > 0 ==> !drop(s[k - 1])
  {
    if |s| == 0 || !drop(s[|s| - 1]) then |s| else KeptPrefix(s[..|s| - 1], drop)
  }

  /** Python `s.strip()` / JavaScript `s.trim()`. */
  function Trim(s: string): string {
    StripBy(s, IsSpace)
  }

  /** Python `s.strip(c)` for a one-character argument. */
  function StripChar(s: string, c: char): string {
    StripBy(s, x => x == c)
  }

  // ----- split and join -----

  /** Index of the first `c` in `s`. */
  function CharIndex(s: string, c: char): (i: nat)
    requires c in s
    ensures i < |s| && s[i] == c && c !in s[..i]
  {
    if s[0] == c then 0 else 1 + CharIndex(s[1..], c)
  }

  /** Index of the last `c` in `s`. */
  function LastCharIndex(s: string, c: char): (i: nat)
    requires c in s
    ensures i < |s| && s[i] == c && c !in s[i + 1..]
  {
    if s[|s| - 1] == c then |s| - 1 else LastCharIndex(s[..|s| - 1], c)
  }

  /** Python `sep.join(parts)`, JavaScript `parts.join(sep)`. */
  function Join(parts: seq<string>, sep: string): string {
    if |parts| == 0 then ""
    else if |parts| == 1 then parts[0]
    else parts[0] + sep + Join(parts[1..], sep)
  }

  /** Python `s.split(c)` for a one-character separator. */
  function Split(s: string, c: char): (parts: seq<string>)
    ensures |parts| >= 1
    ensures forall i :: 0 <= i < |parts| ==> c !in parts[i]
    ensures Join(parts, [c]) == s
    decreases |s|
  {
    if c !in s then [s]
    else
      var i := CharIndex(s, c);
      var rest := Split(s[i + 1..], c);
      var parts := [s[..i]] + rest;
      assert parts[1..] == rest;
      assert s == s[..i] + [c] + s[i + 1..];
      parts
  }

  /** Python `s.rsplit(c, 1)` read as a pair; None when `c` does not occur. */
  function RSplitOnce(s: string, c: char): (r: Option<(string, string)>)
    ensures r.None? <==> c !in s
    ensures r.Some? ==> s == r.value.0 + [c] + r.value.1 && c !in r.value.1
  {
    if c !in s then None
    else
      var k := LastCharIndex(s, c);
      assert s == s[..k] + [c] + s[k + 1..];
      Some((s[..k], s[k + 1..]))
  }

  /** Python `s.replace(pat, rep)`: every non-overlapping occurrence, left to right. */
  function ReplaceAll(s: string, pat: string, rep: string): string
    requires |pat| > 0
    decreases |s|
  {
    if |s| < |pat| then s
    else if s[..|pat|] == pat then rep + ReplaceAll(s[|pat|..], pat, rep)
    else [s[0]] + ReplaceAll(s[1..], pat, rep)
  }

  /** An occurrence at the front is replaced. */
  lemma ReplaceAllFront(p: string, s: string, rep: string)
    requires |p| > 0
    ensures ReplaceAll(p + s, p, rep) == rep + ReplaceAll(s, p, rep)
  {
    assert (p + s)[..|p|] == p && (p + s)[|p|..] == s;
  }

  /** Removing occurrences never lengthens a text. */
  lemma {:induction false} ReplaceAllShorter(s: string, p: string)
    requires |p| > 0
    ensures |ReplaceAll(s, p, "")| <= |s|
    decreases |s|
  {
    if |s| >= |p| {
      if s[..|p|] == p {
        ReplaceAllShorter(s[|p|..], p);
      } else {
        ReplaceAllShorter(s[1..], p);
      }
    }
  }

  /** A text that contains the pattern loses at least one whole copy. */
  lemma {:induction false} ReplaceAllDrops(s: string, p: string)
    requires |p| > 0 && Contains(s, p)
    ensures |ReplaceAll(s, p, "")| <= |s| - |p|
    decreases |s|
  {
    if s[..|p|] == p {
      ReplaceAllShorter(s[|p|..], p);
    } else {
      var i :| 0 <= i <= |s| - |p| && OccursAt(s, p, i);
      assert i != 0;
      OccursShift(s, p, i - 1);
      ReplaceAllDrops(s[1..], p);
    }
  }

  /** A text without the pattern is left as it is. */
  lemma {:induction false} ReplaceAllAbsent(s: string, p: string, rep: string)
    requires |p| > 0 && !Contains(s, p)
    ensures ReplaceAll(s, p, rep) == s
    decreases |s|
  {
    if |s| >= |p| {
      assert !OccursAt(s, p, 0);
      forall k | 0 <= k <= |s[1..]| - |p| ensures !OccursAt(s[1..], p, k) {
        OccursShift(s, p, k);
      }
      ReplaceAllAbsent(s[1..], p, rep);
    }
  }

  /** The text after the first occurrence of `m`. */
  function AfterFirst(s: string, m: string): (r: string)
    requires Contains(s, m)
    ensures EndsWith(s, r) && |r| <= |s| - |m|
  {
    var i := IndexOf(s, m).value;
    assert s == s[..i] + s[i..];
    assert s[|s| - |s[i + |m|..]|..] == s[i + |m|..];
    s[i + |m|..]
  }

  /** Python `s.split(m)[1]`: the text after the first `m`, up to the next
      `m` (all of it when there is no next one). */
  function SplitSecond(s: string, m: string): (r: string)
    requires Contains(s, m)
    ensures StartsWith(AfterFirst(s, m), r)
    ensures !Contains(AfterFirst(s, m), m) ==> r == AfterFirst(s, m)
    ensures !Contains(r, m) || |m| == 0
  {
    var rest := AfterFirst(s, m);
    match IndexOf(rest, m)
    case None => rest
    case Some(j) =>
      assert StartsWith(rest, rest[..j]);
      if |m| == 0 then rest[..j]
      else
        BeforeFirst(rest, m, j);
        rest[..j]
  }

  /** The text before the first occurrence of `m` does not contain it. */
  lemma BeforeFirst(s: string, m: string, j: nat)
    requires |m| > 0 && IndexOf(s, m) == Some(j)
    ensures !Contains(s[..j], m)
  {
    forall k | 0 <= k <= j - |m| ensures !OccursAt(s[..j], m, k) {
      assert s[..j][k..k + |m|] == s[k..k + |m|];
      assert !OccursAt(s, m, k);
    }
  }

  /** When `m` first occurs right after `a` in `a + m + b`, the text after
      that first occurrence is `b`. */
  lemma AfterFirstSplit(a: string, m: string, b: string)
    requires forall j :: 0 <= j < |a| ==> !OccursAt(a + m + b, m, j)
    ensures Contains(a + m + b, m)
    ensures AfterFirst(a + m + b, m) == b
  {
    var s := a + m + b;
    assert OccursAt(s, m, |a|) by {
      assert s[|a|..|a| + |m|] == m;
    }
    var i := IndexOf(s, m).value;
    assert i == |a|;
    assert s[|a| + |m|..] == b;
  }

  // ----- decimal rendering -----

  function DigitChar(d: nat): char
    requires d < 10
  {
    ('0' as int + d) as char
  }

  predicate IsDigit(c: char) {
    '0' <= c <= '9'
  }

  /** Python `str(n)` for a natural number. */
  function Decimal(n: nat): (r: string)
    ensures |r| >= 1
    ensures forall i :: 0 <= i < |r| ==> IsDigit(r[i])
    decreases n
  {
    if n < 10 then [DigitChar(n)] else Decimal(n / 10) + [DigitChar(n % 10)]
  }

  /** Python `str(n)` for any integer. */
  function IntText(n: int): (r: string)
    ensures |r| >= 1
  {
    if n < 0 then "-" + Decimal(-n) else Decimal(n)
  }

  /** Value of a string of decimal digits. */
  function DecValue(s: string): nat
    requires forall i :: 0 <= i < |s| ==> IsDigit(s[i])
  {
    if |s| == 0 then 0
    else
      assert IsDigit(s[|s| - 1]);
      DecValue(s[..|s| - 1]) * 10 + (s[|s| - 1] as int - '0' as int)
  }

  function Zeros(k: nat): (r: string)
    ensures |r| == k
    ensures forall i :: 0 <= i < k ==> r[i] == '0'
  {
    seq(k, i => '0')
  }

  /** Python `f"{n:0{width}d}"`: `n` in decimal, left-padded with zeros to
      at least `width` characters. */
  function ZeroPad(n: nat, width: nat): (r: string)
    ensures |r| >= width
    ensures forall i :: 0 <= i < |r| ==> IsDigit(r[i])
  {
    var d := Decimal(n);
    if |d| >= width then d else Zeros(width - |d|) + d
  }

  lemma {:induction false} DecimalValue(n: nat)
    ensures DecValue(Decimal(n)) == n
    decreases n
  {
    if n >= 10 {
      var d := Decimal(n);
      assert d[..|d| - 1] == Decimal(n / 10);
      DecimalValue(n / 10);
    }
  }

  lemma {:induction false} LeadingZerosValue(k: nat, d: string)
    requires forall i :: 0 <= i < |d| ==> IsDigit(d[i])
    ensures forall i :: 0 <= i < |Zeros(k) + d| ==> IsDigit((Zeros(k) + d)[i])
    ensures DecValue(Zeros(k) + d) == DecValue(d)
    decreases |d|
  {
    var s := Zeros(k) + d;
    if |d| == 0 {
      assert s == Zeros(k);
      ZerosValue(k);
    } else {
      assert s[..|s| - 1] == Zeros(k) + d[..|d| - 1];
      LeadingZerosValue(k, d[..|d| - 1]);
    }
  }

  lemma {:induction false} ZerosValue(k: nat)
    ensures DecValue(Zeros(k)) == 0
  {
    if k > 0 {
      assert Zeros(k)[..k - 1] == Zeros(k - 1);
      ZerosValue(k - 1);
    }
  }

  /** The padded rendering reads back as the number it renders. */
  lemma ZeroPadValue(n: nat, width: nat)
    ensures DecValue(ZeroPad(n, width)) == n
  {
    DecimalValue(n);
    var d := Decimal(n);
    if |d| < width {
      LeadingZerosValue(width - |d|, d);
    }
  }

  /** Distinct numbers get distinct padded names. */
  lemma ZeroPadInjective(a: nat, b: nat, width: nat)
    requires ZeroPad(a, width) == ZeroPad(b, width)
    ensures a == b
  {
    ZeroPadValue(a, width);
    ZeroPadValue(b, width);
  }

  /** Below 10^width the padded rendering is exactly `width` characters. */
  lemma ZeroPad3Length(n: nat)
    requires n < 1000
    ensures |ZeroPad(n, 3)| == 3
  {
    if n >= 100 {
      assert |Decimal(n / 100)| == 1;
      assert |Decimal(n / 10)| == 2;
    } else if n >= 10 {
      assert |Decimal(n / 10)| == 1;
    }
  }

  // ----- Python int() -----

  /** The digits of `s` once the single underscores Python allows between
      two digits are dropped; None unless `s` is such a digit string. */
  function DigitGroups(s: string): (r: Option<string>)
    ensures r.Some? ==> |r.value| > 0 && forall i :: 0 <= i < |r.value| ==> IsDigit(r.value[i])
    ensures r.Some? ==> |s| > 0 && IsDigit(s[0]) && IsDigit(s[|s| - 1])
    ensures |s| > 0 && (forall i :: 0 <= i < |s| ==> IsDigit(s[i])) ==> r == Some(s)
  {
    if |s| == 0 || !IsDigit(s[0]) then None
    else if |s| == 1 then Some(s)
    else
      var rest := if s[1] == '_' then s[2..] else s[1..];
      match DigitGroups(rest)
      case None => None
      case Some(d) =>
        DigitRest(s, rest);
        Some([s[0]] + d)
  }

  /** What one step of `DigitGroups` keeps of its input. */
  lemma DigitRest(s: string, rest: string)
    requires |s| >= 2 && rest == if s[1] == '_' then s[2..] else s[1..]
    ensures |rest| > 0 ==> rest[|rest| - 1] == s[|s| - 1]
    ensures (forall i :: 0 <= i < |s| ==> IsDigit(s[i])) ==> s[1] != '_' && s == [s[0]] + rest
  {
  }

  /** Python `int(s)` for text: surrounding whitespace, an optional sign,
      then decimal digits with single underscores between them. */
  function PyInt(s: string): Option<int> {
    SignedValue(Trim(s))
  }

  /** An optional sign followed by a digit string. */
  function SignedValue(t: string): Option<int> {
    var signed := |t| > 0 && (t[0] == '+' || t[0] == '-');
    var digits := if signed then DigitGroups(t[1..]) else DigitGroups(t);
    if digits.None? then None
    else
      var v: int := DecValue(digits.value);
      Some(if signed && t[0] == '-' then -v else v)
  }

  /** `int(str(n)) == n`. */
  lemma PyIntText(n: int)
    ensures PyInt(IntText(n)) == Some(n)
  {
    IntTextTrimmed(n);
    IntTextValue(n);
  }

  lemma IntTextValue(n: int)
    ensures SignedValue(IntText(n)) == Some(n)
  {
    if n < 0 {
      NegativeText(-n);
    } else {
      DigitsValue(Decimal(n), n);
    }
  }

  /** The digits of `n` read back as `n`, with or without a leading '+'. */
  lemma DigitsValue(d: string, n: nat)
    requires d == Decimal(n)
    ensures SignedValue(d) == Some(n)
  {
    DecimalValue(n);
    assert IsDigit(d[0]);
  }

  lemma NegativeText(m: nat)
    requires m > 0
    ensures SignedValue("-" + Decimal(m)) == Some(-(m as int))
  {
    var t := "-" + Decimal(m);
    assert t[1..] == Decimal(m);
    DecimalValue(m);
  }

  lemma IntTextTrimmed(n: int)
    ensures Trim(IntText(n)) == IntText(n)
  {
    var s := IntText(n);
    var d := Decimal(if n < 0 then -n else n);
    assert d[|d| - 1] == s[|s| - 1];
    assert !IsSpace(s[0]) && !IsSpace(s[|s| - 1]);
  }

  /** Python `f"{n:0{width}d}"`, which is also `str(n).zfill(width)`: the
      digits are padded with zeros after the sign, and the sign counts
      towards the width. */
  function PadInt(n: int, width: nat): (r: string)
    ensures |r| >= 1 && |r| >= width
    ensures r[0] == '-' <==> n < 0
    ensures n >= 0 ==> forall i :: 0 <= i < |r| ==> IsDigit(r[i])
    ensures n < 0 ==> forall i :: 1 <= i < |r| ==> IsDigit(r[i])
  {
    if n >= 0 then ZeroPad(n, width)
    else "-" + ZeroPad(-n, if width > 0 then width - 1 else 0)
  }

  /** `int(f"{n:0{width}d}") == n` for every integer and width. */
  lemma PadIntValue(n: int, width: nat)
    ensures PyInt(PadInt(n, width)) == Some(n)
  {
    var r := PadInt(n, width);
    assert !IsSpace(r[0]) && !IsSpace(r[|r| - 1]);
    assert Trim(r) == r;
    if n >= 0 {
      ZeroPadValue(n, width);
      UnsignedValue(r);
    } else {
      var z := ZeroPad(-n, if width > 0 then width - 1 else 0);
      ZeroPadValue(-n, if width > 0 then width - 1 else 0);
      NegatedValue(z);
    }
  }

  /** A plain digit string reads as its value. */
  lemma UnsignedValue(d: string)
    requires |d| > 0 && forall i :: 0 <= i < |d| ==> IsDigit(d[i])
    ensures SignedValue(d) == Some(DecValue(d) as int)
  {
    assert !(d[0] == '+' || d[0] == '-');
  }

  /** A minus sign before a digit string negates its value. */
  lemma NegatedValue(d: string)
    requires |d| > 0 && forall i :: 0 <= i < |d| ==> IsDigit(d[i])
    ensures SignedValue("-" + d) == Some(-(DecValue(d) as int))
  {
    var t := "-" + d;
    assert t[0] == '-' && t[1..] == d;
    assert DigitGroups(t[1..]) == Some(d);
  }

  /** A negative chapter keeps its sign inside the width: `f"{-1:03d}"` is
      `"-01"`. */
  lemma PadIntNegative()
    ensures PadInt(-1, 3) == "-01" && PadInt(7, 3) == "007"
  {
  }

  /** Text without a decimal digit has no integer value. */
  lemma PyIntNeedsDigit(s: string)
    requires PyInt(s).Some?
    ensures exists i :: 0 <= i < |s| && IsDigit(s[i])
  {
    var t := Trim(s);
    var lo, hi :| 0 <= lo <= hi <= |s| && t == s[lo..hi];
    var k := SignedDigit(t);
    assert s[lo + k] == t[k];
  }

  /** Where a digit sits in text `SignedValue` accepts. */
  lemma SignedDigit(t: string) returns (k: nat)
    requires SignedValue(t).Some?
    ensures k < |t| && IsDigit(t[k])
  {
    if |t| > 0 && (t[0] == '+' || t[0] == '-') {
      var d := DigitGroups(t[1..]);
      assert d.Some?;
      k := 1;
      assert t[1..][0] == t[1];
    } else {
      var d := DigitGroups(t);
      assert d.Some?;
      k := 0;
    }
  }
}
