/**
 * Values shared by every part of the model: optional values, results of
 * operations that can fail the way .NET code throws, and the few string
 * operations the analyzers use (ordinal comparison, ASCII case mapping,
 * substring search, replacement, splitting and decimal numbers).
 */
module Common {

  datatype Option<T> = None | Some(value: T)

  /** The outcome of an operation whose .NET counterpart can throw. */
  datatype Result<T, E> = Success(value: T) | Failure(error: E)

  /** The sequence of an optional value: empty for None, one element for Some. */
  function OptionToSeq<T>(o: Option<T>): (r: seq<T>)
    ensures |r| <= 1
    ensures o.Some? <==> |r| == 1
    ensures o.Some? ==> r[0] == o.value
  {
    match o
    case None => []
    case Some(v) => [v]
  }

  /** LINQ's SelectMany over a list of lists: the lists one after the other. */
  function Concat<T>(ss: seq<seq<T>>): seq<T>
  {
    if ss == [] then [] else ss[0] + Concat(ss[1..])
  }

  /** Every element of one of the lists is in their concatenation. */
  lemma {:induction false} ConcatHoldsEach<T>(ss: seq<seq<T>>, i: nat, x: T)
    requires i < |ss| && x in ss[i]
    ensures x in Concat(ss)
  {
    if i > 0 {
      ConcatHoldsEach(ss[1..], i - 1, x);
    }
  }

  // ---------------------------------------------------------------------
  // Distinct elements.

  /** LINQ's Union: the elements of a and then of b, each element once, in first-seen order. */
  function Union<T(==)>(a: seq<T>, b: seq<T>): seq<T>
  {
    DistinctFrom([], a + b)
  }

  function DistinctFrom<T(==)>(seen: seq<T>, rest: seq<T>): seq<T>
    decreases |rest|
  {
    if rest == [] then seen
    else DistinctFrom(if rest[0] in seen then seen else seen + [rest[0]], rest[1..])
  }

  predicate NoRepeats<T(==)>(s: seq<T>)
  {
    forall p, q | 0 <= p < q < |s| :: s[p] != s[q]
  }

  lemma {:induction false} DistinctFromKeepsEachOnce<T>(seen: seq<T>, rest: seq<T>)
    requires NoRepeats(seen)
    ensures var r := DistinctFrom(seen, rest);
            NoRepeats(r) && forall x :: x in r <==> x in seen || x in rest
    decreases |rest|
  {
    if rest != [] {
      var seen' := if rest[0] in seen then seen else seen + [rest[0]];
      assert NoRepeats(seen');
      DistinctFromKeepsEachOnce(seen', rest[1..]);
      assert rest == [rest[0]] + rest[1..];
    }
  }

  /** Union holds every element of either list exactly once. */
  lemma UnionKeepsEachOnce<T>(a: seq<T>, b: seq<T>)
    ensures NoRepeats(Union(a, b))
    ensures forall x :: x in Union(a, b) <==> x in a || x in b
  {
    DistinctFromKeepsEachOnce([], a + b);
  }

  // ---------------------------------------------------------------------
  // ASCII case mapping (the invariant culture agrees with it on ASCII).

  predicate IsLowerLetter(c: char) { 'a' <= c <= 'z' }
  predicate IsUpperLetter(c: char) { 'A' <= c <= 'Z' }

  function UpperChar(c: char): char
  {
    if IsLowerLetter(c) then (c as int - 32) as char else c
  }

  function LowerChar(c: char): char
  {
    if IsUpperLetter(c) then (c as int + 32) as char else c
  }

  /** ToUpperInvariant restricted to ASCII letters. */
  function Upper(s: string): (r: string)
    ensures |r| == |s|
    ensures forall i :: 0 <= i < |s| ==> r[i] == UpperChar(s[i])
  {
    seq(|s|, i requires 0 <= i < |s| => UpperChar(s[i]))
  }

  /** ToLowerInvariant restricted to ASCII letters. */
  function Lower(s: string): (r: string)
    ensures |r| == |s|
    ensures forall i :: 0 <= i < |s| ==> r[i] == LowerChar(s[i])
  {
    seq(|s|, i requires 0 <= i < |s| => LowerChar(s[i]))
  }

  /** Ordinal case-insensitive equality (OrdinalIgnoreCase on ASCII). */
  predicate EqualsIgnoreCase(a: string, b: string)
  {
    Lower(a) == Lower(b)
  }

  // ---------------------------------------------------------------------
  // Substrings.

  predicate StartsWith(s: string, prefix: string)
  {
    |prefix| <= |s| && s[..|prefix|] == prefix
  }

  predicate EndsWith(s: string, suffix: string)
  {
    |suffix| <= |s| && s[|s| - |suffix|..] == suffix
  }

  /** sub occurs in s starting at position i. */
  predicate OccursAt(s: string, sub: string, i: int)
  {
    0 <= i <= |s| - |sub| && s[i..i + |sub|] == sub
  }

  /** String.Contains (ordinal): sub occurs at some position of s. */
  predicate Contains(s: string, sub: string)
  {
    exists i | 0 <= i <= |s| :: OccursAt(s, sub, i)
  }

  /**
   * String.Replace (ordinal): every non-overlapping occurrence of pattern,
   * scanning from the left, is replaced by replacement.
   */
  function ReplaceAll(s: string, pattern: string, replacement: string): string
    requires pattern != []
    decreases |s|
  {
    if |s| < |pattern| then s
    else if s[..|pattern|] == pattern then replacement + ReplaceAll(s[|pattern|..], pattern, replacement)
    else [s[0]] + ReplaceAll(s[1..], pattern, replacement)
  }

  /** Replacing a single character by a text without it removes it everywhere. */
  lemma {:induction false} ReplaceAllRemovesChar(s: string, c: char, replacement: string)
    requires c !in replacement
    ensures c !in ReplaceAll(s, [c], replacement)
    decreases |s|
  {
    if |s| >= 1 {
      if s[..1] == [c] {
        ReplaceAllRemovesChar(s[1..], c, replacement);
      } else {
        assert s[0] != c by { assert s[..1][0] == s[0]; }
        ReplaceAllRemovesChar(s[1..], c, replacement);
      }
    }
  }

  /** Replacing a single character never introduces a character absent from s and replacement. */
  lemma {:induction false} ReplaceAllKeepsAbsentChar(s: string, c: char, replacement: string, d: char)
    requires d !in s && d !in replacement
    ensures d !in ReplaceAll(s, [c], replacement)
    decreases |s|
  {
    if |s| >= 1 {
      assert s[0] != d;
      ReplaceAllKeepsAbsentChar(s[1..], c, replacement, d);
    }
  }

  /** String.Split on one separator character: the pieces between separators. */
  function Split(s: string, sep: char): (r: seq<string>)
    ensures |r| >= 1
    ensures forall k :: 0 <= k < |r| ==> sep !in r[k]
    decreases |s|
  {
    if s == [] then [[]]
    else
      var rest := Split(s[1..], sep);
      if s[0] == sep then [[]] + rest
      else [[s[0]] + rest[0]] + rest[1..]
  }

  /** String.Join: the pieces with sep between consecutive ones. */
  function Join(sep: string, parts: seq<string>): string
  {
    if parts == [] then []
    else if |parts| == 1 then parts[0]
    else parts[0] + sep + Join(sep, parts[1..])
  }

  // ---------------------------------------------------------------------
  // Decimal numbers.

  predicate IsDigit(c: char) { '0' <= c <= '9' }

  predicate AllDigits(s: string)
  {
    forall i :: 0 <= i < |s| ==> IsDigit(s[i])
  }

  function DigitValue(c: char): nat
    requires IsDigit(c)
  {
    c as int - '0' as int
  }

  function DigitChar(d: nat): (c: char)
    requires d < 10
    ensures IsDigit(c) && DigitValue(c) == d
  {
    ('0' as int + d) as char
  }

  /** The value of a string of decimal digits, most significant first. */
  function DigitsValue(s: string): nat
    requires AllDigits(s)
  {
    if s == [] then 0
    else DigitsValue(s[..|s| - 1]) * 10 + DigitValue(s[|s| - 1])
  }

  /** The shortest decimal digit string of a natural number. */
  function NatToDigits(n: nat): (r: string)
    ensures AllDigits(r) && r != []
    ensures DigitsValue(r) == n
    ensures r[0] != '0' || n == 0
  {
    if n < 10 then [DigitChar(n)]
    else
      var prefix := NatToDigits(n / 10);
      var r := prefix + [DigitChar(n % 10)];
      assert r[..|r| - 1] == prefix;
      r
  }

  /** Int32.ToString() in the invariant culture: a minus sign, then the shortest digits. */
  function IntToString(n: int): string
  {
    if n < 0 then "-" + NatToDigits(-n) else NatToDigits(n)
  }

  const Int32Max: int := 0x7FFF_FFFF
  const Int32Min: int := -0x8000_0000

  predicate IsInt32(n: int) { Int32Min <= n <= Int32Max }
}
