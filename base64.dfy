/**
 * The base64 encoding of section 4 of RFC 4648: the 64-character alphabet
 * A-Z a-z 0-9 + /, 24-bit groups written as four characters, and '=' padding
 * for a final group of one or two bytes.  The server encodes with it
 * (Convert.ToBase64String) and the client decodes with it (atob).
 */
module Base64 {
  import opened Wrappers

  type byte = x: int | 0 <= x < 256

  /** A character of the base64 alphabet (Table 1 of RFC 4648). */
  predicate IsAlphabetChar(c: char) {
    ('A' <= c <= 'Z') || ('a' <= c <= 'z') || ('0' <= c <= '9') || c == '+' || c == '/'
  }

  predicate AllAlphabet(s: string) {
    forall i :: 0 <= i < |s| ==> IsAlphabetChar(s[i])
  }

  /** The character for a 6-bit value. */
  function IndexToChar(i: int): (c: char)
    requires 0 <= i < 64
    ensures IsAlphabetChar(c)
  {
    if i < 26 then ('A' as int + i) as char
    else if i < 52 then ('a' as int + (i - 26)) as char
    else if i < 62 then ('0' as int + (i - 52)) as char
    else if i == 62 then '+'
    else '/'
  }

  /** The 6-bit value of an alphabet character. */
  function CharToIndex(c: char): (i: int)
    requires IsAlphabetChar(c)
    ensures 0 <= i < 64 && IndexToChar(i) == c
  {
    if 'A' <= c <= 'Z' then c as int - 'A' as int
    else if 'a' <= c <= 'z' then c as int - 'a' as int + 26
    else if '0' <= c <= '9' then c as int - '0' as int + 52
    else if c == '+' then 62
    else 63
  }

  lemma CharIndexRoundTrip(i: int)
    requires 0 <= i < 64
    ensures CharToIndex(IndexToChar(i)) == i
  {
  }

  // ---------------------------------------------------------------- encoding

  /** Three bytes as four characters. */
  function EncodeGroup(b0: byte, b1: byte, b2: byte): string {
    [IndexToChar(b0 / 4), IndexToChar((b0 % 4) * 16 + b1 / 16),
     IndexToChar((b1 % 16) * 4 + b2 / 64), IndexToChar(b2 % 64)]
  }

  /** The base64 text of a byte string, padded with '=' to a multiple of four. */
  function Encode(b: seq<byte>): string
    decreases |b|
  {
    if |b| == 0 then []
    else if |b| == 1 then [IndexToChar(b[0] / 4), IndexToChar((b[0] % 4) * 16), '=', '=']
    else if |b| == 2 then
      [IndexToChar(b[0] / 4), IndexToChar((b[0] % 4) * 16 + b[1] / 16), IndexToChar((b[1] % 16) * 4), '=']
    else EncodeGroup(b[0], b[1], b[2]) + Encode(b[3..])
  }

  /** The number of '=' characters that end the encoding of n bytes. */
  function PadCount(n: nat): nat {
    if n % 3 == 0 then 0 else 3 - n % 3
  }

  // ---------------------------------------------------------------- decoding

  /** Four alphabet characters as three bytes. */
  function DecodeGroup(q: string): (r: seq<byte>)
    requires |q| == 4 && AllAlphabet(q)
    ensures |r| == 3
  {
    var s0, s1, s2, s3 := CharToIndex(q[0]), CharToIndex(q[1]), CharToIndex(q[2]), CharToIndex(q[3]);
    [s0 * 4 + s1 / 16, (s1 % 16) * 16 + s2 / 4, (s2 % 4) * 64 + s3]
  }

  /** The last group of an encoding, which may carry one or two '='. */
  function DecodeLastGroup(q: string): (r: Option<seq<byte>>)
    requires |q| == 4
    ensures r.Some? ==> 1 <= |r.value| <= 3
  {
    if AllAlphabet(q) then Some(DecodeGroup(q))
    else if IsAlphabetChar(q[0]) && IsAlphabetChar(q[1]) && IsAlphabetChar(q[2]) && q[3] == '=' then
      var s0, s1, s2 := CharToIndex(q[0]), CharToIndex(q[1]), CharToIndex(q[2]);
      Some([s0 * 4 + s1 / 16, (s1 % 16) * 16 + s2 / 4])
    else if IsAlphabetChar(q[0]) && IsAlphabetChar(q[1]) && q[2] == '=' && q[3] == '=' then
      var s0, s1 := CharToIndex(q[0]), CharToIndex(q[1]);
      Some([s0 * 4 + s1 / 16])
    else None
  }

  /**
   * Strict decoding: the length must be a multiple of four, only the last
   * group may hold padding, and any other character is refused.  The bits
   * that padding leaves over are discarded, as a browser's atob does.
   */
  function Decode(s: string): Option<seq<byte>>
    decreases |s|
  {
    if |s| == 0 then Some([])
    else if |s| < 4 then None
    else if |s| == 4 then DecodeLastGroup(s)
    else if !AllAlphabet(s[..4]) then None
    else match Decode(s[4..])
      case None => None
      case Some(rest) => Some(DecodeGroup(s[..4]) + rest)
  }

  /** Concatenation lifted to optional byte strings. */
  function Join(x: Option<seq<byte>>, y: Option<seq<byte>>): Option<seq<byte>> {
    if x.Some? && y.Some? then Some(x.value + y.value) else None
  }

  // ---------------------------------------------------------------- properties

  lemma Split16(hi: int, lo: int)
    requires 0 <= hi && 0 <= lo < 16
    ensures (hi * 16 + lo) / 16 == hi && (hi * 16 + lo) % 16 == lo
  {
  }

  lemma Split4(hi: int, lo: int)
    requires 0 <= hi && 0 <= lo < 4
    ensures (hi * 4 + lo) / 4 == hi && (hi * 4 + lo) % 4 == lo
  {
  }

  /** The sextets of a group put back together give the group's bytes. */
  lemma GroupArithmetic(b0: byte, b1: byte, b2: byte)
    ensures var s1, s2 := (b0 % 4) * 16 + b1 / 16, (b1 % 16) * 4 + b2 / 64;
      (b0 / 4) * 4 + s1 / 16 == b0 && (s1 % 16) * 16 + s2 / 4 == b1 && (s2 % 4) * 64 + b2 % 64 == b2
  {
    Split16(b0 % 4, b1 / 16);
    Split4(b1 % 16, b2 / 64);
  }

  lemma GroupRoundTrip(b0: byte, b1: byte, b2: byte)
    ensures AllAlphabet(EncodeGroup(b0, b1, b2)) && DecodeGroup(EncodeGroup(b0, b1, b2)) == [b0, b1, b2]
  {
    CharIndexRoundTrip(b0 / 4);
    CharIndexRoundTrip((b0 % 4) * 16 + b1 / 16);
    CharIndexRoundTrip((b1 % 16) * 4 + b2 / 64);
    CharIndexRoundTrip(b2 % 64);
    GroupArithmetic(b0, b1, b2);
  }

  lemma DecodeEncodeOne(b0: byte)
    ensures Decode(Encode([b0])) == Some([b0])
  {
    var e := Encode([b0]);
    CharIndexRoundTrip(b0 / 4);
    CharIndexRoundTrip((b0 % 4) * 16);
    GroupArithmetic(b0, 0, 0);
    assert !IsAlphabetChar(e[2]);
    assert DecodeLastGroup(e) == Some([CharToIndex(e[0]) * 4 + CharToIndex(e[1]) / 16]);
  }

  lemma DecodeEncodeTwo(b0: byte, b1: byte)
    ensures Decode(Encode([b0, b1])) == Some([b0, b1])
  {
    var e := Encode([b0, b1]);
    CharIndexRoundTrip(b0 / 4);
    CharIndexRoundTrip((b0 % 4) * 16 + b1 / 16);
    CharIndexRoundTrip((b1 % 16) * 4);
    GroupArithmetic(b0, b1, 0);
    assert !IsAlphabetChar(e[3]);
    var s0, s1, s2 := CharToIndex(e[0]), CharToIndex(e[1]), CharToIndex(e[2]);
    assert DecodeLastGroup(e) == Some([s0 * 4 + s1 / 16, (s1 % 16) * 16 + s2 / 4]);
  }

  lemma DecodeEncodeGroup(b0: byte, b1: byte, b2: byte)
    ensures AllAlphabet(EncodeGroup(b0, b1, b2)) && Decode(EncodeGroup(b0, b1, b2)) == Some([b0, b1, b2])
  {
    GroupRoundTrip(b0, b1, b2);
  }

  lemma DecodeCons(g: string, rest: string, head: seq<byte>, tail: seq<byte>)
    requires |g| == 4 && AllAlphabet(g) && Decode(g) == Some(head) && Decode(rest) == Some(tail)
    ensures Decode(g + rest) == Some(head + tail)
  {
    DecodeAppend(g, rest);
  }

  lemma EncodeCons(b: seq<byte>)
    requires |b| >= 3
    ensures Encode(b) == EncodeGroup(b[0], b[1], b[2]) + Encode(b[3..])
  {
  }

  lemma DecodeEncodeStep(b: seq<byte>)
    requires |b| >= 3 && Decode(Encode(b[3..])) == Some(b[3..])
    ensures Decode(Encode(b)) == Some(b)
  {
    EncodeCons(b);
    DecodeEncodeGroup(b[0], b[1], b[2]);
    var head: seq<byte> := [b[0], b[1], b[2]];
    DecodeCons(EncodeGroup(b[0], b[1], b[2]), Encode(b[3..]), head, b[3..]);
    SplitHead(b);
  }

  lemma SplitHead(b: seq<byte>)
    requires |b| >= 3
    ensures [b[0], b[1], b[2]] + b[3..] == b
  {
  }

  /** Decoding undoes encoding, for every byte string. */
  lemma {:induction false} DecodeEncode(b: seq<byte>)
    ensures Decode(Encode(b)) == Some(b)
    decreases |b|
  {
    if |b| == 0 {
    } else if |b| == 1 {
      DecodeEncodeOne(b[0]);
      assert b == [b[0]];
    } else if |b| == 2 {
      DecodeEncodeTwo(b[0], b[1]);
      assert b == [b[0], b[1]];
    } else {
      DecodeEncode(b[3..]);
      DecodeEncodeStep(b);
    }
  }

  /** Four characters for every started group of three bytes. */
  lemma {:induction false} EncodeLength(b: seq<byte>)
    ensures |Encode(b)| == 4 * ((|b| + 2) / 3)
    decreases |b|
  {
    if |b| > 2 {
      EncodeLength(b[3..]);
      EncodeCons(b);
      GroupCountStep(|b|);
    }
  }

  lemma GroupCountStep(n: nat)
    requires n >= 3
    ensures (n + 2) / 3 == (n - 3 + 2) / 3 + 1
  {
  }

  /** Alphabet characters, then exactly p '=' characters. */
  predicate Shaped(e: string, p: nat) {
    p <= |e| && AllAlphabet(e[..|e| - p]) && forall i :: |e| - p <= i < |e| ==> e[i] == '='
  }

  /** A group of alphabet characters in front keeps the shape. */
  lemma ShapeCons(g: string, r: string, p: nat)
    requires |g| == 4 && AllAlphabet(g) && Shaped(r, p)
    ensures Shaped(g + r, p)
  {
    var e := g + r;
    var k := |e| - p;
    assert e[..k] == g + r[..|r| - p];
    forall i | k <= i < |e| ensures e[i] == '=' {
      assert e[i] == r[i - 4];
    }
  }

  lemma PadCountStep(n: nat)
    requires n >= 3
    ensures PadCount(n) == PadCount(n - 3)
  {
    assert n % 3 == (n - 3) % 3;
  }

  /** The encodings of zero, one and two bytes. */
  lemma ShapeSmall(b: seq<byte>)
    requires |b| <= 2
    ensures Shaped(Encode(b), PadCount(|b|))
  {
    var e := Encode(b);
    if |b| == 1 {
      assert e[..2] == [e[0], e[1]];
    } else if |b| == 2 {
      assert e[..3] == [e[0], e[1], e[2]];
    }
  }

  /**
   * The shape of an encoding: alphabet characters followed by exactly
   * PadCount(|b|) '=' characters.  In particular a byte string whose length
   * is 1 more than a multiple of 3 encodes to text ending in "==".
   */
  lemma {:induction false} EncodeShape(b: seq<byte>)
    ensures var e := Encode(b); var k := |e| - PadCount(|b|);
      0 <= k && AllAlphabet(e[..k]) && (forall i :: k <= i < |e| ==> e[i] == '=')
    decreases |b|
  {
    EncodeShaped(b);
  }

  lemma {:induction false} EncodeShaped(b: seq<byte>)
    ensures Shaped(Encode(b), PadCount(|b|))
    decreases |b|
  {
    if |b| > 2 {
      EncodeShaped(b[3..]);
      PadCountStep(|b|);
      EncodeCons(b);
      GroupRoundTrip(b[0], b[1], b[2]);
      ShapeCons(EncodeGroup(b[0], b[1], b[2]), Encode(b[3..]), PadCount(|b|));
    } else {
      ShapeSmall(b);
    }
  }

  /** A non-empty encoding starts with an alphabet character. */
  lemma EncodeStartsWithAlphabet(b: seq<byte>)
    requires |b| > 0
    ensures |Encode(b)| > 0 && IsAlphabetChar(Encode(b)[0])
  {
  }

  /** Splitting the input at a multiple of 3 bytes splits the text at a group boundary. */
  lemma {:induction false} EncodeAppend(a: seq<byte>, c: seq<byte>)
    requires |a| % 3 == 0
    ensures Encode(a + c) == Encode(a) + Encode(c)
    decreases |a|
  {
    if |a| > 0 {
      assert (a + c)[3..] == a[3..] + c;
      EncodeAppend(a[3..], c);
    } else {
      assert a + c == c;
    }
  }

  /** An unpadded, alphabet-only prefix of whole groups decodes on its own. */
  lemma {:induction false} DecodeAppend(x: string, y: string)
    requires AllAlphabet(x) && |x| % 4 == 0
    ensures Decode(x + y) == Join(Decode(x), Decode(y))
    decreases |x|
  {
    if |x| == 0 {
      assert x + y == y;
      match Decode(y)
      case None =>
      case Some(v) => assert [] + v == v;
    } else {
      var xy := x + y;
      assert xy[..4] == x[..4];
      assert xy[4..] == x[4..] + y;
      assert AllAlphabet(x[..4]);
      DecodeAppend(x[4..], y);
      if |x| == 4 {
        assert x[4..] == [];
        assert Decode(x) == Some(DecodeGroup(x));
        assert x[..4] == x;
        if y == [] {
          assert xy == x;
          assert Decode(y) == Some([]);
          assert DecodeGroup(x) + [] == DecodeGroup(x);
        } else {
          assert Decode(xy) == Join(Some(DecodeGroup(x)), Decode(y));
        }
      } else {
        match Decode(x[4..])
        case None =>
        case Some(v) =>
          match Decode(y)
          case None =>
          case Some(w) =>
            assert DecodeGroup(x[..4]) + (v + w) == (DecodeGroup(x[..4]) + v) + w;
      }
    }
  }
}
