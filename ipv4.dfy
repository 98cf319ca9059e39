/**
 * The dotted-quad address pattern shared by the login page
 * (ClientApp/static/js/login.js) and the dashboard
 * (source/ClientApp/static/js/main.js):
 *   (25[0-5]|2[0-4][0-9]|[01]?[0-9][0-9]?) four times, separated by '.'.
 * Also JavaScript's String.split on one character, which both pages use
 * to take an address apart.
 */
module Ipv4 {
  import opened Text

  // ---------------------------------------------------------------- split and join

  /**
   * s.split(c): the pieces between the occurrences of c, empty pieces
   * included, always at least one.
   */
  function Split(s: string, c: char): (r: seq<string>)
    ensures |r| >= 1
  {
    if s == [] then [""]
    else if s[0] == c then [""] + Split(s[1..], c)
    else var rest := Split(s[1..], c); [[s[0]] + rest[0]] + rest[1..]
  }

  /** parts.join(c). */
  function Join(parts: seq<string>, c: char): string
    requires |parts| >= 1
  {
    if |parts| == 1 then parts[0] else parts[0] + [c] + Join(parts[1..], c)
  }

  /** Splitting and joining again gives the string back. */
  lemma {:induction false} JoinSplit(s: string, c: char)
    ensures Join(Split(s, c), c) == s
  {
    if s != [] {
      JoinSplit(s[1..], c);
      var rest := Split(s[1..], c);
      if s[0] != c && |rest| > 1 {
        assert [s[0]] + rest[0] + [c] + Join(rest[1..], c) == [s[0]] + (rest[0] + [c] + Join(rest[1..], c));
      }
    }
  }

  /** A piece without the separator, then the separator: one piece off the front. */
  lemma {:induction false} SplitFront(a: string, rest: string, c: char)
    requires c !in a
    ensures Split(a + [c] + rest, c) == [a] + Split(rest, c)
  {
    if a == [] {
      assert (a + [c] + rest)[1..] == rest;
    } else {
      assert (a + [c] + rest)[1..] == a[1..] + [c] + rest;
      SplitFront(a[1..], rest, c);
      assert [a[0]] + a[1..] == a;
    }
  }

  /** A string without the separator is one piece. */
  lemma {:induction false} SplitWhole(a: string, c: char)
    requires c !in a
    ensures Split(a, c) == [a]
  {
    if a != [] {
      SplitWhole(a[1..], c);
      assert [a[0]] + a[1..] == a;
    }
  }

  /** Pieces without the separator are recovered by splitting their join. */
  lemma {:induction false} SplitJoin(parts: seq<string>, c: char)
    requires |parts| >= 1 && forall i :: 0 <= i < |parts| ==> c !in parts[i]
    ensures Split(Join(parts, c), c) == parts
  {
    if |parts| == 1 {
      SplitWhole(parts[0], c);
    } else {
      SplitJoin(parts[1..], c);
      SplitFront(parts[0], Join(parts[1..], c), c);
    }
  }

  // ---------------------------------------------------------------- one octet

  /** The octet alternatives of the pattern, one by one. */
  predicate OctetPattern(s: string) {
    || (|s| == 3 && s[0] == '2' && s[1] == '5' && '0' <= s[2] <= '5')
    || (|s| == 3 && s[0] == '2' && '0' <= s[1] <= '4' && IsDigit(s[2]))
    || (|s| == 1 && IsDigit(s[0]))
    || (|s| == 2 && IsDigit(s[0]) && IsDigit(s[1]))
    || (|s| == 2 && (s[0] == '0' || s[0] == '1') && IsDigit(s[1]))
    || (|s| == 3 && (s[0] == '0' || s[0] == '1') && IsDigit(s[1]) && IsDigit(s[2]))
  }

  /** The octet pattern accepts exactly one to three digits worth at most 255, leading zeros allowed. */
  lemma OctetIff(s: string)
    ensures OctetPattern(s) <==> 1 <= |s| <= 3 && AllDigits(s) && DecimalValue(s) <= 255
  {
    if 1 <= |s| <= 3 && AllDigits(s) {
      ThreeDigits(s);
    }
  }

  /** The value of one to three digits, digit by digit. */
  lemma ThreeDigits(s: string)
    requires 1 <= |s| <= 3 && AllDigits(s)
    ensures |s| == 1 ==> DecimalValue(s) == s[0] as int - '0' as int
    ensures |s| == 2 ==> DecimalValue(s) == (s[0] as int - '0' as int) * 10 + (s[1] as int - '0' as int)
    ensures |s| == 3 ==>
      DecimalValue(s) == (s[0] as int - '0' as int) * 100 + (s[1] as int - '0' as int) * 10 + (s[2] as int - '0' as int)
  {
    if |s| >= 2 {
      assert s[..|s| - 1][..|s| - 2] == s[..|s| - 2];
    }
    if |s| == 3 {
      assert s[..1][..0] == [];
    }
  }

  // ---------------------------------------------------------------- four octets

  /** The anchored pattern: four octets separated by '.', nothing before or after. */
  predicate DottedQuad(s: string) {
    var parts := Split(s, '.');
    |parts| == 4 && forall i :: 0 <= i < 4 ==> OctetPattern(parts[i])
  }

  /** Four octets joined by dots match the pattern. */
  lemma QuadOfOctets(parts: seq<string>)
    requires |parts| == 4 && forall i :: 0 <= i < 4 ==> OctetPattern(parts[i])
    ensures DottedQuad(Join(parts, '.'))
  {
    forall i | 0 <= i < 4
      ensures '.' !in parts[i]
    {
      OctetIff(parts[i]);
    }
    SplitJoin(parts, '.');
  }

  /** A matching string is four octets joined by dots, and holds only digits and dots. */
  lemma QuadIsOctets(s: string)
    requires DottedQuad(s)
    ensures s == Join(Split(s, '.'), '.')
    ensures forall k :: 0 <= k < |s| ==> IsDigit(s[k]) || s[k] == '.'
  {
    var parts := Split(s, '.');
    JoinSplit(s, '.');
    forall i | 0 <= i < |parts|
      ensures AllDigits(parts[i])
    {
      OctetIff(parts[i]);
    }
    JoinDigits(parts);
  }

  /** The join of digit strings holds only digits and dots. */
  lemma {:induction false} JoinDigits(parts: seq<string>)
    requires |parts| >= 1 && forall i :: 0 <= i < |parts| ==> AllDigits(parts[i])
    ensures forall k :: 0 <= k < |Join(parts, '.')| ==> IsDigit(Join(parts, '.')[k]) || Join(parts, '.')[k] == '.'
  {
    if |parts| > 1 {
      JoinDigits(parts[1..]);
      assert AllDigits(parts[0]);
    }
  }

  /** A matching string contains no ':' (so an address splits cleanly at its port). */
  lemma QuadHasNoColon(s: string)
    requires DottedQuad(s)
    ensures ':' !in s
  {
    QuadIsOctets(s);
  }
}
