/**
 * The string primitives the scanner leans on, written out: `"%d"` formatting
 * (`wxString::Format`), `wxAtoi`, `wxSplit` on one separator character, and
 * substring search (`Contains`, the regular-expression scan of the title).
 */
module Text {
  import opened Util

  predicate IsDigit(c: char) {
    '0' <= c <= '9'
  }

  predicate AllDigits(s: string) {
    forall i :: 0 <= i < |s| ==> IsDigit(s[i])
  }

  /** The characters C's `isspace` accepts in the "C" locale. */
  predicate IsSpace(c: char) {
    c == ' ' || c == '\t' || c == '\n' || c == '\r' || c == '\U{000B}' || c == '\U{000C}'
  }

  function DigitChar(d: nat): (c: char)
    requires d < 10
    ensures IsDigit(c)
  {
    (('0' as int) + d) as char
  }

  function DigitValue(c: char): (d: nat)
    requires IsDigit(c)
    ensures d < 10 && DigitChar(d) == c
  {
    (c as int) - ('0' as int)
  }

  /** Decimal digits of `n`, most significant first, without leading zeros. */
  function NatToString(n: nat): (s: string)
    ensures |s| > 0 && AllDigits(s)
    ensures s[0] == '0' ==> n == 0
  {
    if n < 10 then [DigitChar(n)] else NatToString(n / 10) + [DigitChar(n % 10)]
  }

  /** `wxString::Format("%d", n)`. */
  function FormatInt(n: int): (s: string)
    ensures |s| > 0
    ensures forall i :: 0 <= i < |s| ==> IsDigit(s[i]) || (i == 0 && s[i] == '-')
  {
    if n < 0 then "-" + NatToString(-n) else NatToString(n)
  }

  /** The value of a run of decimal digits (an empty run is 0), read left to right. */
  function DigitsValue(s: string): nat
    requires AllDigits(s)
  {
    if s == [] then 0 else DigitsValue(s[..|s| - 1]) * 10 + DigitValue(s[|s| - 1])
  }

  function SkipSpace(s: string): (t: string)
    ensures |t| <= |s| && t == s[|s| - |t|..]
    ensures t != [] ==> !IsSpace(t[0])
  {
    if s != [] && IsSpace(s[0]) then SkipSpace(s[1..]) else s
  }

  /** The longest prefix of `s` made of digits. */
  function TakeDigits(s: string): (d: string)
    ensures |d| <= |s| && d == s[..|d|] && AllDigits(d)
    ensures |d| < |s| ==> !IsDigit(s[|d|])
  {
    if s != [] && IsDigit(s[0]) then [s[0]] + TakeDigits(s[1..]) else []
  }

  /** `wxAtoi`: C's `atoi` -- skip blanks, an optional sign, then the digit run; 0 if there is none. */
  function Atoi(s: string): int {
    var t := SkipSpace(s);
    if t != [] && t[0] == '-' then -(DigitsValue(TakeDigits(t[1..])) as int)
    else if t != [] && t[0] == '+' then DigitsValue(TakeDigits(t[1..]))
    else DigitsValue(TakeDigits(t))
  }

  lemma {:induction false} NatToStringRoundTrip(n: nat)
    ensures DigitsValue(NatToString(n)) == n
  {
    if n >= 10 {
      var s := NatToString(n);
      assert s[..|s| - 1] == NatToString(n / 10);
      NatToStringRoundTrip(n / 10);
    }
  }

  lemma TakeAllDigits(d: string)
    requires AllDigits(d)
    ensures TakeDigits(d) == d
  {
  }

  lemma SkipNoSpace(s: string)
    requires s != [] && !IsSpace(s[0])
    ensures SkipSpace(s) == s
  {
  }

  /** `atoi` of a digit run. */
  lemma AtoiOfDigits(d: string)
    requires |d| > 0 && AllDigits(d)
    ensures Atoi(d) == DigitsValue(d)
  {
    TakeAllDigits(d);
    SkipNoSpace(d);
  }

  /** `atoi` of a minus sign and a digit run. */
  lemma AtoiOfNegatedDigits(d: string)
    requires |d| > 0 && AllDigits(d)
    ensures Atoi("-" + d) == -(DigitsValue(d) as int)
  {
    var m := "-" + d;
    SkipNoSpace(m);
    assert m[1..] == d;
    TakeAllDigits(d);
  }

  /** Reading back what `"%d"` wrote gives the number again. */
  lemma AtoiFormatInt(n: int)
    ensures Atoi(FormatInt(n)) == n
  {
    if n < 0 {
      AtoiOfNegatedDigits(NatToString(-n));
      NatToStringRoundTrip(-n);
    } else {
      AtoiOfDigits(NatToString(n));
      NatToStringRoundTrip(n);
    }
  }

  /** `"%d"` is injective. */
  lemma FormatIntInjective(m: int, n: int)
    requires FormatInt(m) == FormatInt(n)
    ensures m == n
  {
    AtoiFormatInt(m);
    AtoiFormatInt(n);
  }

  // ---------------------------------------------------------------- splitting

  /** Index of the first `c` in `s`, or `|s|` when there is none. */
  function FirstIndex(s: string, c: char): (i: nat)
    ensures i <= |s| && (i < |s| ==> s[i] == c) && c !in s[..i]
  {
    if s == [] then 0
    else if s[0] == c then 0
    else
      var k := FirstIndex(s[1..], c);
      assert s[..k + 1] == [s[0]] + s[1..][..k];
      k + 1
  }

  /** Splitting at every `sep`; always at least one piece, none containing `sep`. */
  function SplitAll(s: string, sep: char): (parts: seq<string>)
    ensures |parts| >= 1
    ensures forall i :: 0 <= i < |parts| ==> sep !in parts[i]
    decreases |s|
  {
    var i := FirstIndex(s, sep);
    if i == |s| then
      assert s[..i] == s;
      [s]
    else
      [s[..i]] + SplitAll(s[i + 1..], sep)
  }

  /**
   * `wxSplit(s, sep)` (escape handling aside): the empty string gives no
   * pieces at all, anything else is split at every separator.
   */
  function Split(s: string, sep: char): seq<string> {
    if s == "" then [] else SplitAll(s, sep)
  }

  function JoinWith(parts: seq<string>, sep: char): string
    requires |parts| >= 1
  {
    if |parts| == 1 then parts[0] else parts[0] + [sep] + JoinWith(parts[1..], sep)
  }

  lemma FirstIndexAfter(a: string, sep: char, b: string)
    requires sep !in a
    ensures FirstIndex(a + [sep] + b, sep) == |a|
  {
    var s := a + [sep] + b;
    assert s[|a|] == sep;
    assert s[..|a|] == a;
  }

  /** Splitting undoes joining pieces that do not contain the separator. */
  lemma {:induction false} SplitJoin(parts: seq<string>, sep: char)
    requires |parts| >= 1
    requires forall i :: 0 <= i < |parts| ==> sep !in parts[i]
    ensures SplitAll(JoinWith(parts, sep), sep) == parts
  {
    if |parts| == 1 {
      var s := parts[0];
      assert s[..|s|] == s;
    } else {
      var rest := JoinWith(parts[1..], sep);
      var s := parts[0] + [sep] + rest;
      FirstIndexAfter(parts[0], sep, rest);
      assert s[..|parts[0]|] == parts[0];
      assert s[|parts[0]| + 1..] == rest;
      SplitJoin(parts[1..], sep);
    }
  }

  /** Joining the pieces of a split gives the string back. */
  lemma {:induction false} JoinSplit(s: string, sep: char)
    ensures JoinWith(SplitAll(s, sep), sep) == s
    decreases |s|
  {
    var i := FirstIndex(s, sep);
    if i == |s| {
      assert s[..i] == s;
    } else {
      JoinSplit(s[i + 1..], sep);
      JoinCons(s[..i], SplitAll(s[i + 1..], sep), sep);
      CutAt(s, i);
    }
  }

  lemma JoinCons(x: string, rest: seq<string>, sep: char)
    requires |rest| >= 1
    ensures JoinWith([x] + rest, sep) == x + [sep] + JoinWith(rest, sep)
  {
    assert ([x] + rest)[1..] == rest;
  }

  lemma CutAt(s: string, i: nat)
    requires i < |s|
    ensures s[..i] + [s[i]] + s[i + 1..] == s
  {
  }

  /**
   * A string cut at its LAST separator is cut in only one way: if two
   * decompositions `a + [sep] + t` agree and neither tail holds `sep`, they are equal.
   */
  lemma LastSeparatorUnique(a1: string, t1: string, a2: string, t2: string, sep: char)
    requires a1 + [sep] + t1 == a2 + [sep] + t2
    requires sep !in t1 && sep !in t2
    ensures a1 == a2 && t1 == t2
  {
    var s := a1 + [sep] + t1;
    TailLengthBound(a1, t1, a2, t2, sep);
    TailLengthBound(a2, t2, a1, t1, sep);
    assert a1 == s[..|a1|] && a2 == s[..|a2|];
    assert t1 == s[|a1| + 1..] && t2 == s[|a2| + 1..];
  }

  lemma TailLengthBound(a1: string, t1: string, a2: string, t2: string, sep: char)
    requires a1 + [sep] + t1 == a2 + [sep] + t2
    requires sep !in t2
    ensures |t2| <= |t1|
  {
    if |t1| < |t2| {
      SeparatedAt(a2, sep, t2, |a1|);
      assert false;
    }
  }

  lemma SeparatedAt(a: string, sep: char, t: string, i: nat)
    requires |a| < i < |a| + 1 + |t|
    ensures (a + [sep] + t)[i] == t[i - |a| - 1]
  {
  }

  // ---------------------------------------------------------------- searching

  /** `pat` occurs in `s` starting at index `i`. */
  predicate OccursAt(s: string, pat: string, i: nat) {
    i + |pat| <= |s| && s[i..i + |pat|] == pat
  }

  /** First occurrence of `pat` in `s` at or after `from`. */
  function FindFrom(s: string, pat: string, from: nat): (r: Option<nat>)
    ensures r.Some? ==> from <= r.value && OccursAt(s, pat, r.value)
    ensures r.Some? ==> forall j :: from <= j < r.value ==> !OccursAt(s, pat, j)
    ensures r.None? ==> forall j :: from <= j ==> !OccursAt(s, pat, j)
    decreases |s| - from
  {
    if from + |pat| > |s| then None
    else if OccursAt(s, pat, from) then Some(from)
    else FindFrom(s, pat, from + 1)
  }

  /** `Contains(s, pat)` / `wxString::Contains`. */
  predicate Contains(s: string, pat: string) {
    FindFrom(s, pat, 0).Some?
  }

  lemma ContainsIff(s: string, pat: string)
    ensures Contains(s, pat) <==> exists i: nat :: OccursAt(s, pat, i)
  {
    if !Contains(s, pat) {
      assert forall i: nat :: !OccursAt(s, pat, i);
    }
  }
}
