/** UTF-8, as section 4 of RFC 3629 gives its syntax. */
module Utf8 {

  type Byte = b: nat | b < 256

  predicate Tail(b: Byte) {
    0x80 <= b <= 0xBF
  }

  predicate TailsAt(s: seq<Byte>, from: nat, to: nat) {
    to <= |s| && forall i :: from <= i < to ==> Tail(s[i])
  }

  /** The length of the character at the head of `s`, or 0 when there is none:
      the productions UTF8-1 to UTF8-4. */
  function HeadLen(s: seq<Byte>): (n: nat)
    ensures n <= 4 && n <= |s|
  {
    if s == [] then 0
    else if s[0] <= 0x7F then 1
    else if 0xC2 <= s[0] <= 0xDF && TailsAt(s, 1, 2) then 2
    else if 0xE0 <= s[0] <= 0xEF && TailsAt(s, 1, 3)
            && (s[0] == 0xE0 ==> s[1] >= 0xA0) && (s[0] == 0xED ==> s[1] <= 0x9F) then 3
    else if 0xF0 <= s[0] <= 0xF4 && TailsAt(s, 1, 4)
            && (s[0] == 0xF0 ==> s[1] >= 0x90) && (s[0] == 0xF4 ==> s[1] <= 0x8F) then 4
    else 0
  }

  predicate Valid(s: seq<Byte>) {
    s == [] || (HeadLen(s) > 0 && Valid(s[HeadLen(s)..]))
  }

  /** A string slice: its bytes are always valid. */
  type Str = s: seq<Byte> | Valid(s) witness []

  // ----- the encoding itself ----------------------------------------------------

  /** A code point that is not a surrogate. */
  type Scalar = c: nat | c < 0xD800 || 0xE000 <= c < 0x110000

  function Encode(c: Scalar): seq<Byte> {
    if c < 0x80 then [c]
    else if c < 0x800 then [0xC0 + c / 64, 0x80 + c % 64]
    else if c < 0x10000 then [0xE0 + c / 64 / 64, 0x80 + c / 64 % 64, 0x80 + c % 64]
    else [0xF0 + c / 64 / 64 / 64, 0x80 + c / 64 / 64 % 64, 0x80 + c / 64 % 64, 0x80 + c % 64]
  }

  function EncodeAll(cs: seq<Scalar>): seq<Byte> {
    if cs == [] then [] else Encode(cs[0]) + EncodeAll(cs[1..])
  }

  /** The code point of a well-formed head. */
  function Head(s: seq<Byte>): (c: Scalar)
    requires HeadLen(s) > 0
  {
    var n := HeadLen(s);
    if n == 1 then s[0]
    else if n == 2 then Joined(s[0] - 0xC0, s[1])
    else if n == 3 then Joined(Joined(s[0] - 0xE0, s[1]), s[2])
    else Joined(Joined(Joined(s[0] - 0xF0, s[1]), s[2]), s[3])
  }

  /** Six more bits, taken from a tail byte. */
  function Joined(high: nat, tail: Byte): nat
    requires Tail(tail)
  {
    high * 64 + (tail as int - 0x80)
  }

  function Decode(s: seq<Byte>): seq<Scalar>
    requires Valid(s)
  {
    if s == [] then [] else [Head(s)] + Decode(s[HeadLen(s)..])
  }

  lemma JoinedSplits(c: nat)
    ensures Joined(c / 64, 0x80 + c % 64) == c
  {
  }

  lemma EncodeHead(c: Scalar, rest: seq<Byte>)
    ensures HeadLen(Encode(c) + rest) == |Encode(c)| > 0
    ensures Head(Encode(c) + rest) == c
  {
    var s := Encode(c) + rest;
    assert forall i :: 0 <= i < |Encode(c)| ==> s[i] == Encode(c)[i];
    JoinedSplits(c);
    JoinedSplits(c / 64);
    JoinedSplits(c / 64 / 64);
  }

  /** The ends of each row of the table in section 3 of RFC 3629, and the first
      example of its section 7. */
  lemma TableRows()
    ensures Encode(0x00) == [0x00] && Encode(0x7F) == [0x7F]
    ensures Encode(0x80) == [0xC2, 0x80] && Encode(0x7FF) == [0xDF, 0xBF]
    ensures Encode(0x800) == [0xE0, 0xA0, 0x80] && Encode(0xFFFF) == [0xEF, 0xBF, 0xBF]
    ensures Encode(0x10000) == [0xF0, 0x90, 0x80, 0x80] && Encode(0x10FFFF) == [0xF4, 0x8F, 0xBF, 0xBF]
    ensures EncodeAll([0x41, 0x2262, 0x391, 0x2E]) == [0x41, 0xE2, 0x89, 0xA2, 0xCE, 0x91, 0x2E]
  {
    EncodeAllOfMore(0x391, [0x2E]);
    EncodeAllOfMore(0x2262, [0x391] + [0x2E]);
    EncodeAllOfMore(0x41, [0x2262] + ([0x391] + [0x2E]));
    assert [0x41] + ([0x2262] + ([0x391] + [0x2E])) == [0x41, 0x2262, 0x391, 0x2E];
    assert EncodeAll([0x2E]) == [0x2E];
  }

  /** Wherever a byte stands in a valid string: it is no overlong lead and none
      past U+10FFFF, a lead byte is followed by a tail, and the tail after 0xE0,
      0xED, 0xF0 and 0xF4 keeps clear of overlong forms, of surrogates and of code
      points that are too large. */
  lemma {:induction false} ValidBytes(s: seq<Byte>, i: nat)
    requires Valid(s) && i < |s|
    ensures s[i] != 0xC0 && s[i] != 0xC1 && s[i] <= 0xF4
    ensures s[i] >= 0xC2 ==> i + 1 < |s| && 0x80 <= s[i + 1] <= 0xBF
    ensures s[i] == 0xE0 ==> s[i + 1] >= 0xA0
    ensures s[i] == 0xED ==> s[i + 1] <= 0x9F
    ensures s[i] == 0xF0 ==> s[i + 1] >= 0x90
    ensures s[i] == 0xF4 ==> s[i + 1] <= 0x8F
    ensures i == 0 ==> !(0x80 <= s[i] <= 0xBF)
  {
    var n := HeadLen(s);
    if i >= n {
      ValidBytes(s[n..], i - n);
    }
  }

  lemma SplitsJoined(high: nat, tail: Byte)
    requires Tail(tail)
    ensures Joined(high, tail) / 64 == high && 0x80 + Joined(high, tail) % 64 == tail
  {
  }

  lemma HeadEncodes(s: seq<Byte>)
    requires HeadLen(s) > 0
    ensures Encode(Head(s)) == s[..HeadLen(s)]
  {
    var n := HeadLen(s);
    if n == 2 {
      SplitsJoined(s[0] - 0xC0, s[1]);
    } else if n == 3 {
      SplitsJoined(s[0] - 0xE0, s[1]);
      SplitsJoined(Joined(s[0] - 0xE0, s[1]), s[2]);
    } else if n == 4 {
      SplitsJoined(s[0] - 0xF0, s[1]);
      SplitsJoined(Joined(s[0] - 0xF0, s[1]), s[2]);
      SplitsJoined(Joined(Joined(s[0] - 0xF0, s[1]), s[2]), s[3]);
    }
  }

  /** Encoding always gives valid UTF-8, and it decodes back. */
  lemma {:induction false} EncodeThenDecode(cs: seq<Scalar>)
    ensures Valid(EncodeAll(cs)) && Decode(EncodeAll(cs)) == cs
  {
    if cs != [] {
      var rest := EncodeAll(cs[1..]);
      EncodeThenDecode(cs[1..]);
      EncodeHead(cs[0], rest);
      var s := EncodeAll(cs);
      assert s[HeadLen(s)..] == rest;
    }
  }

  /** Every valid byte string is the encoding of some scalars. */
  lemma {:induction false} DecodeThenEncode(s: seq<Byte>)
    requires Valid(s)
    ensures EncodeAll(Decode(s)) == s
  {
    if s != [] {
      HeadEncodes(s);
      DecodeThenEncode(s[HeadLen(s)..]);
      EncodeAllOfMore(Head(s), Decode(s[HeadLen(s)..]));
      Rejoined(s, HeadLen(s));
    }
  }

  lemma EncodeAllOfMore(c: Scalar, cs: seq<Scalar>)
    ensures EncodeAll([c] + cs) == Encode(c) + EncodeAll(cs)
  {
  }

  lemma Rejoined(s: seq<Byte>, n: nat)
    requires n <= |s|
    ensures s[..n] + s[n..] == s
  {
  }

  // ----- cutting ------------------------------------------------------------------

  /** Cutting at `k` does not split a character. */
  predicate IsCharBoundary(s: seq<Byte>, k: nat) {
    k == |s| || (k < |s| && !Tail(s[k]))
  }

  lemma HeadIsSelfDelimiting(s: seq<Byte>, k: nat)
    requires k <= |s| && HeadLen(s) > 0
    ensures HeadLen(s[..k]) == if k >= HeadLen(s) then HeadLen(s) else 0
    ensures !Tail(s[0]) && forall i :: 0 < i < HeadLen(s) ==> Tail(s[i])
  {
  }

  /** A prefix of a string is valid exactly when the cut is at a character boundary. */
  lemma {:induction false} CutIsValid(s: seq<Byte>, k: nat)
    requires Valid(s) && k <= |s|
    ensures Valid(s[..k]) <==> IsCharBoundary(s, k)
  {
    if k == 0 {
      if s != [] {
        HeadIsSelfDelimiting(s, 0);
      }
    } else {
      var n := HeadLen(s);
      HeadIsSelfDelimiting(s, k);
      if k >= n {
        CutIsValid(s[n..], k - n);
        assert s[..k][n..] == s[n..][..k - n];
      }
    }
  }
}
