/**
  UTF-8 as RFC 3629, section 4, defines it, and the lossy decoding that replaces each
  maximal ill-formed prefix by one U+FFFD.
 */
module Utf8 {
  import opened Bytes

  const REPLACEMENT := 0xFFFD

  predicate Tail(s: seq<Byte>, i: nat) {
    i < |s| && IsContinuation(s[i])
  }

  /** Whether `s[1]` may follow the lead byte `s[0]` of a two, three or four byte character. */
  predicate SecondOk(s: seq<Byte>) {
    && Tail(s, 1)
    && (s[0] == 0xE0 ==> 0xA0 <= s[1])
    && (s[0] == 0xED ==> s[1] <= 0x9F)
    && (s[0] == 0xF0 ==> 0x90 <= s[1])
    && (s[0] == 0xF4 ==> s[1] <= 0x8F)
  }

  /** The length of the well-formed character `s` starts with, or 0 when there is none. */
  function CharLength(s: seq<Byte>): (n: nat)
    ensures n <= |s| && n <= 4
  {
    if s == [] then 0
    else if s[0] < 0x80 then 1
    else if 0xC2 <= s[0] <= 0xDF && SecondOk(s) then 2
    else if 0xE0 <= s[0] <= 0xEF && SecondOk(s) && Tail(s, 2) then 3
    else if 0xF0 <= s[0] <= 0xF4 && SecondOk(s) && Tail(s, 2) && Tail(s, 3) then 4
    else 0
  }

  ghost predicate Valid(s: seq<Byte>)
    decreases |s|
  {
    s == [] || (CharLength(s) > 0 && Valid(s[CharLength(s)..]))
  }

  /** `p` lies between two characters of `s` (or at one of its ends). */
  ghost predicate Boundary(s: seq<Byte>, p: nat)
    requires Valid(s)
    decreases |s|
  {
    p == 0 || (s != [] && CharLength(s) <= p && Boundary(s[CharLength(s)..], p - CharLength(s)))
  }

  /** In well-formed text the character boundaries are exactly the positions a lead byte starts. */
  lemma {:induction false} BoundaryIffLeadByte(s: seq<Byte>, p: nat)
    requires Valid(s) && p <= |s|
    ensures Boundary(s, p) <==> (p == |s| || !IsContinuation(s[p]))
    decreases |s|
  {
    if s == [] {
    } else {
      var n := CharLength(s);
      if n <= p {
        BoundaryIffLeadByte(s[n..], p - n);
        assert p < |s| ==> s[n..][p - n] == s[p];
      }
    }
  }

  /** No four consecutive bytes of well-formed text are all continuation bytes. */
  lemma {:induction false} ContinuationRunsAreShort(s: seq<Byte>, p: nat)
    requires Valid(s) && p + 3 < |s|
    ensures exists k :: p <= k <= p + 3 && !IsContinuation(s[k])
    decreases |s|
  {
    var n := CharLength(s);
    if p == 0 {
      assert !IsContinuation(s[0]);
    } else if n <= p {
      ContinuationRunsAreShort(s[n..], p - n);
      var k :| p - n <= k <= p - n + 3 && !IsContinuation(s[n..][k]);
      assert s[n..][k] == s[n + k];
    } else {
      assert Valid(s[n..]) && CharLength(s[n..]) > 0;
      assert s[n..][0] == s[n] && p <= n <= p + 3;
    }
  }

  /** How many bytes one U+FFFD stands for when `s` starts with no well-formed character. */
  function IllFormedLength(s: seq<Byte>): (n: nat)
    requires s != [] && CharLength(s) == 0
    ensures 1 <= n <= |s| && n <= 3
    ensures s[0] != 10 && forall i :: 1 <= i < n ==> IsContinuation(s[i])
  {
    if 0xE0 <= s[0] <= 0xF4 && SecondOk(s) then
      if 0xF0 <= s[0] && Tail(s, 2) then 3 else 2
    else 1
  }

  /** The bytes begin a well-formed character, or are one. */
  ghost predicate StartsCharacter(part: seq<Byte>) {
    exists rest: seq<Byte> :: CharLength(part + rest) >= |part|
  }

  /** One U+FFFD stands for the longest beginning of a character, or for one byte where there is none. */
  lemma IllFormedIsMaximal(s: seq<Byte>, m: nat)
    requires s != [] && CharLength(s) == 0 && 1 < m <= |s|
    ensures StartsCharacter(s[..m]) <==> m <= IllFormedLength(s)
  {
    if StartsCharacter(s[..m]) {
      var rest: seq<Byte> :| CharLength(s[..m] + rest) >= |s[..m]|;
      var whole := s[..m] + rest;
      assert forall k :: 0 <= k < m ==> whole[k] == s[k];
    }
    if m <= IllFormedLength(s) {
      var whole := s[..m] + [0x80, 0x80];
      assert forall k :: 0 <= k < m ==> whole[k] == s[k];
      assert CharLength(whole) >= m;
    }
  }

  /** The scalar value of the well-formed character `s` starts with. */
  function Scalar(s: seq<Byte>): (c: nat)
    requires CharLength(s) > 0
    ensures (c == 10) <==> (s[0] == 10)
    ensures s[0] < 0x80 ==> c == s[0]
    ensures 0x80 <= s[0] ==> 0x80 <= c
  {
    var lead: int := s[0];
    if lead < 0x80 then lead
    else if lead < 0xE0 then Extend(lead - 0xC0, s[1])
    else if lead < 0xF0 then Extend(Extend(lead - 0xE0, s[1]), s[2])
    else Extend(Extend(Extend(lead - 0xF0, s[1]), s[2]), s[3])
  }

  /** Six more payload bits. */
  function Extend(high: nat, continuation: Byte): (c: nat)
    requires IsContinuation(continuation)
    ensures high * 64 <= c < high * 64 + 64
  {
    var low: int := continuation;
    high * 64 + (low - 128)
  }

  function DecodeLossy(s: seq<Byte>): seq<nat>
    decreases |s|
  {
    if s == [] then []
    else if CharLength(s) > 0 then [Scalar(s)] + DecodeLossy(s[CharLength(s)..])
    else [REPLACEMENT] + DecodeLossy(s[IllFormedLength(s)..])
  }

  const REPLACEMENT_BYTES: seq<Byte> := [0xEF, 0xBF, 0xBD]

  /** How many bytes the first character of the decoded text stands for. */
  function ChunkLength(s: seq<Byte>): (n: nat)
    requires s != []
    ensures 0 < n <= |s|
  {
    if CharLength(s) > 0 then CharLength(s) else IllFormedLength(s)
  }

  /** The bytes of that character. */
  function ChunkBytes(s: seq<Byte>): seq<Byte>
    requires s != []
  {
    if CharLength(s) > 0 then s[..CharLength(s)] else REPLACEMENT_BYTES
  }

  /** The bytes of the text `DecodeLossy` makes of `s`. */
  function Lossy(s: seq<Byte>): seq<Byte>
    decreases |s|
  {
    if s == [] then [] else ChunkBytes(s) + Lossy(s[ChunkLength(s)..])
  }

  /** A well-formed character is one whatever follows it. */
  lemma CharacterStands(s: seq<Byte>, rest: seq<Byte>)
    requires CharLength(s) > 0
    ensures CharLength(s[..CharLength(s)] + rest) == CharLength(s)
  {
  }

  lemma {:induction false} LossyIsValid(s: seq<Byte>)
    ensures Valid(Lossy(s))
    decreases |s|
  {
    if s == [] {
    } else if CharLength(s) > 0 {
      var n := CharLength(s);
      LossyIsValid(s[n..]);
      CharacterStands(s, Lossy(s[n..]));
      assert (s[..n] + Lossy(s[n..]))[n..] == Lossy(s[n..]);
    } else {
      var rest := Lossy(s[IllFormedLength(s)..]);
      LossyIsValid(s[IllFormedLength(s)..]);
      assert (REPLACEMENT_BYTES + rest)[3..] == rest;
    }
  }

  lemma {:induction false} LossyKeepsValid(s: seq<Byte>)
    requires Valid(s)
    ensures Lossy(s) == s
    decreases |s|
  {
    if s == [] {
    } else {
      LossyKeepsValid(s[CharLength(s)..]);
      assert s[..CharLength(s)] + s[CharLength(s)..] == s;
    }
  }

  /** The lossy conversion changes exactly what is not well-formed. */
  lemma LossyKeepsIff(s: seq<Byte>)
    ensures Lossy(s) == s <==> Valid(s)
  {
    LossyIsValid(s);
    if Valid(s) {
      LossyKeepsValid(s);
    }
    hide Lossy, Valid;
  }

  /** What ends before a byte below 0x80 does not depend on that byte. */
  lemma EndsAtAscii(a: seq<Byte>, rest: seq<Byte>)
    requires a != [] && rest != [] && rest[0] < 0x80
    ensures ChunkLength(a + rest) == ChunkLength(a) && ChunkBytes(a + rest) == ChunkBytes(a)
  {
  }

  /** The conversion works piece by piece around a byte below 0x80. */
  lemma {:induction false} LossyAround(a: seq<Byte>, c: Byte, b: seq<Byte>)
    requires c < 0x80
    ensures Lossy(a + [c] + b) == Lossy(a) + [c] + Lossy(b)
    decreases |a|
  {
    var s := a + [c] + b;
    if a == [] {
      assert s == [c] + b && s[1..] == b;
    } else {
      assert s == a + ([c] + b);
      EndsAtAscii(a, [c] + b);
      hide ChunkLength, ChunkBytes;
      var n := ChunkLength(a);
      assert s[n..] == a[n..] + [c] + b;
      LossyAround(a[n..], c, b);
      Regroup(ChunkBytes(a), Lossy(a[n..]), [c], Lossy(b));
    }
  }

  lemma Regroup(w: seq<Byte>, x: seq<Byte>, y: seq<Byte>, z: seq<Byte>)
    ensures w + (x + y + z) == (w + x) + y + z
  {
  }

  lemma {:induction false} LossyAddsNoAscii(s: seq<Byte>, c: Byte)
    requires c < 0x80 && c !in s
    ensures c !in Lossy(s)
    decreases |s|
  {
    if s == [] {
    } else {
      LossyAddsNoAscii(s[ChunkLength(s)..], c);
    }
  }

  // --- the encoding --------------------------------------------------------------------

  /** The values text is made of: all up to 0x10FFFF but the surrogates. */
  predicate IsScalar(c: int) {
    0 <= c < 0xD800 || 0xE000 <= c < 0x110000
  }

  /** The bytes of one character, its bits spread as section 3 of RFC 3629 says. */
  function Encoded(c: int): seq<Byte>
    requires IsScalar(c)
  {
    if c < 0x80 then [c]
    else if c < 0x800 then [0xC0 + c / 64, 0x80 + c % 64]
    else if c < 0x10000 then [0xE0 + c / 4096, 0x80 + c / 64 % 64, 0x80 + c % 64]
    else [0xF0 + c / 262144, 0x80 + c / 4096 % 64, 0x80 + c / 64 % 64, 0x80 + c % 64]
  }

  function EncodedText(text: seq<int>): seq<Byte>
    requires forall c :: c in text ==> IsScalar(c)
  {
    if text == [] then [] else Encoded(text[0]) + EncodedText(text[1..])
  }

  /** Six bits more, taken off again. */
  lemma ExtendedApart(high: nat, continuation: Byte)
    requires IsContinuation(continuation)
    ensures Extend(high, continuation) / 64 == high
    ensures (Extend(high, continuation) % 64) + 0x80 == continuation
  {
  }

  lemma SixBitsMore(c: nat)
    ensures c / 4096 == c / 64 / 64 && c / 262144 == c / 64 / 64 / 64
  {
  }

  /** The well-formed character is the encoding of its value. */
  lemma CharacterIsEncoded(s: seq<Byte>)
    requires CharLength(s) > 0
    ensures IsScalar(Scalar(s)) && Encoded(Scalar(s)) == s[..CharLength(s)]
  {
    if s[0] < 0xE0 {
      if 0x80 <= s[0] {
        ExtendedApart(s[0] - 0xC0, s[1]);
      }
    } else if s[0] < 0xF0 {
      ThreeBytes(s);
    } else {
      FourBytes(s);
    }
  }

  lemma ThreeBytes(s: seq<Byte>)
    requires CharLength(s) == 3
    ensures IsScalar(Scalar(s)) && Encoded(Scalar(s)) == s[..3]
  {
    var two, c := Extend(s[0] - 0xE0, s[1]), Scalar(s);
    ExtendedApart(s[0] - 0xE0, s[1]);
    ExtendedApart(two, s[2]);
    SixBitsMore(c);
    assert 0x800 <= c < 0x10000 && IsScalar(c);
    hide Extend, Scalar;
  }

  lemma FourBytes(s: seq<Byte>)
    requires CharLength(s) == 4
    ensures IsScalar(Scalar(s)) && Encoded(Scalar(s)) == s[..4]
  {
    var two, c := Extend(s[0] - 0xF0, s[1]), Scalar(s);
    ExtendedApart(s[0] - 0xF0, s[1]);
    ExtendedApart(two, s[2]);
    ExtendedApart(Extend(two, s[2]), s[3]);
    SixBitsMore(c);
    assert 0x10000 <= c < 0x110000;
    hide Extend, Scalar;
  }

  /** And every encoding is read back. */
  lemma EncodedReadsBack(c: int, rest: seq<Byte>)
    requires IsScalar(c)
    ensures CharLength(Encoded(c) + rest) == |Encoded(c)| > 0 && Scalar(Encoded(c) + rest) == c
  {
    SixBitsMore(c);
  }

  /** What the lossy decoding gives is text, and the lossy bytes are its encoding. */
  lemma {:induction false} LossyIsReencoding(s: seq<Byte>)
    ensures forall c :: c in DecodeLossy(s) ==> IsScalar(c)
    ensures EncodedText(DecodeLossy(s)) == Lossy(s)
    decreases |s|
  {
    hide Scalar, Encoded, CharLength, IllFormedLength;
    if s == [] {
    } else {
      var rest := s[ChunkLength(s)..];
      LossyIsReencoding(rest);
      if CharLength(s) > 0 {
        CharacterIsEncoded(s);
        assert DecodeLossy(s) == [Scalar(s)] + DecodeLossy(rest);
      } else {
        ReplacementIsEncoded();
        assert DecodeLossy(s) == [REPLACEMENT] + DecodeLossy(rest);
      }
    }
  }

  lemma ReplacementIsEncoded()
    ensures IsScalar(REPLACEMENT) && Encoded(REPLACEMENT) == REPLACEMENT_BYTES
  {
  }

  /** Well-formed are exactly the encodings of text, each of one text. */
  lemma {:induction false} EncodedTextReadsBack(text: seq<int>)
    requires forall c :: c in text ==> IsScalar(c)
    ensures Valid(EncodedText(text)) && DecodeLossy(EncodedText(text)) == text
  {
    hide CharLength, Scalar, Encoded;
    if text == [] {
    } else {
      var first, rest := Encoded(text[0]), EncodedText(text[1..]);
      EncodedReadsBack(text[0], rest);
      EncodedTextReadsBack(text[1..]);
      assert (first + rest)[|first|..] == rest;
      assert DecodeLossy(first + rest) == [text[0]] + DecodeLossy(rest);
    }
  }

  lemma ValidIffEncodesText(s: seq<Byte>)
    ensures Valid(s) <==> exists text: seq<int> :: (forall c :: c in text ==> IsScalar(c)) && EncodedText(text) == s
  {
    hide DecodeLossy, Lossy, Valid;
    if Valid(s) {
      LossyIsReencoding(s);
      LossyKeepsIff(s);
    }
    if text: seq<int> :| (forall c :: c in text ==> IsScalar(c)) && EncodedText(text) == s {
      EncodedTextReadsBack(text);
    }
  }
}
