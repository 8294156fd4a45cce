/** UTF-8 as in sections 3 and 4 of RFC 3629, and the byte-bounded truncation built on it. */
module Utf8Truncation {
  import opened Options
  import opened LineCounting

  type CodePoint = c: int | 0 <= c <= 0x10FFFF

  /** Surrogates are code points of a Python string that UTF-8 cannot encode. */
  predicate IsSurrogate(c: CodePoint)
  {
    0xD800 <= c <= 0xDFFF
  }

  predicate Encodable(s: seq<CodePoint>)
  {
    forall i :: 0 <= i < |s| ==> !IsSurrogate(s[i])
  }

  function EncodeOne(c: CodePoint): (b: seq<byte>)
    ensures 1 <= |b| <= 4
  {
    if c < 0x80 then [c]
    else if c < 0x800 then [0xC0 + c / 64, 0x80 + c % 64]
    else if c < 0x10000 then [0xE0 + c / 4096, 0x80 + c / 64 % 64, 0x80 + c % 64]
    else [0xF0 + c / 262144, 0x80 + c / 4096 % 64, 0x80 + c / 64 % 64, 0x80 + c % 64]
  }

  function Encode(s: seq<CodePoint>): seq<byte>
  {
    if s == [] then [] else EncodeOne(s[0]) + Encode(s[1..])
  }

  /** How many bytes a character takes. */
  lemma EncodedSize(c: CodePoint)
    ensures |EncodeOne(c)| == if c <= 0x7F then 1 else if c <= 0x7FF then 2 else if c <= 0xFFFF then 3 else 4
  {
  }

  /** The examples of section 7 of RFC 3629: U+2262 and U+0391 between ASCII, and U+233B4. */
  lemma StandardExamples()
    ensures Encode([0x41, 0x2262, 0x391, 0x2E]) == [0x41, 0xE2, 0x89, 0xA2, 0xCE, 0x91, 0x2E]
    ensures EncodeOne(0xD55C) == [0xED, 0x95, 0x9C] && EncodeOne(0x65E5) == [0xE6, 0x97, 0xA5]
    ensures EncodeOne(0x233B4) == [0xF0, 0xA3, 0x8E, 0xB4]
  {
    var s := [0x41, 0x2262, 0x391, 0x2E];
    assert s[1..] == [0x2262, 0x391, 0x2E] && s[1..][1..] == [0x391, 0x2E] && s[1..][1..][1..] == [0x2E];
    assert s[1..][1..][1..][1..] == [];
    assert Encode([0x2E]) == [0x2E];
    assert Encode([0x391, 0x2E]) == [0xCE, 0x91] + [0x2E];
  }

  // ----- Decoding with errors ignored -----

  predicate IsContinuation(b: byte)
  {
    0x80 <= b <= 0xBF
  }

  /** The second byte's range after each lead byte; it rules out overlong forms and surrogates. */
  predicate IsSecond(lead: byte, b: byte)
  {
    if lead == 0xE0 then 0xA0 <= b <= 0xBF
    else if lead == 0xED then 0x80 <= b <= 0x9F
    else if lead == 0xF0 then 0x90 <= b <= 0xBF
    else if lead == 0xF4 then 0x80 <= b <= 0x8F
    else IsContinuation(b)
  }

  /** The payload bits of a byte above its marker. */
  function Bits(b: int, marker: int): int
  {
    b - marker
  }

  /** One decoding step: the bytes consumed, and the character unless they were malformed. */
  datatype Decoded = Decoded(consumed: nat, character: Option<CodePoint>)

  function Next(b: seq<byte>): (d: Decoded)
    requires b != []
    ensures 1 <= d.consumed <= |b|
  {
    var lead := b[0];
    if lead < 0x80 then Decoded(1, Some(lead))
    else if lead < 0xC2 || 0xF4 < lead then Decoded(1, None)
    else if |b| < 2 || !IsSecond(lead, b[1]) then Decoded(1, None)
    else if lead < 0xE0 then Decoded(2, Some(Bits(lead, 0xC0) * 64 + Bits(b[1], 0x80)))
    else if |b| < 3 || !IsContinuation(b[2]) then Decoded(2, None)
    else if lead < 0xF0 then Decoded(3, Some(Bits(lead, 0xE0) * 4096 + Bits(b[1], 0x80) * 64 + Bits(b[2], 0x80)))
    else if |b| < 4 || !IsContinuation(b[3]) then Decoded(3, None)
    else Decoded(4, Some(Bits(lead, 0xF0) * 262144 + Bits(b[1], 0x80) * 4096
                         + Bits(b[2], 0x80) * 64 + Bits(b[3], 0x80)))
  }

  /** Malformed sequences are skipped, well-formed ones decoded. */
  function DecodeIgnoring(b: seq<byte>): seq<CodePoint>
  {
    if b == [] then []
    else
      var d := Next(b);
      var rest := DecodeIgnoring(b[d.consumed..]);
      if d.character.Some? then [d.character.value] + rest else rest
  }

  lemma DigitSplit(c: nat)
    ensures c == c / 64 * 64 + c % 64
    ensures c / 64 / 64 == c / 4096
  {
  }

  lemma DigitSplits(c: nat)
    ensures c / 64 == c / 4096 * 64 + c / 64 % 64
    ensures c / 4096 == c / 262144 * 64 + c / 4096 % 64
  {
    DigitSplit(c);
    DigitSplit(c / 64);
    assert c / 64 / 64 / 64 == c / 4096 / 64 == c / 262144;
  }

  lemma FourDigits(c: CodePoint)
    ensures c == c / 4096 * 4096 + c / 64 % 64 * 64 + c % 64
    ensures c == c / 262144 * 262144 + c / 4096 % 64 * 4096 + c / 64 % 64 * 64 + c % 64
    ensures 0x10000 <= c ==> c / 262144 <= 4
    ensures 0x10000 <= c && c / 262144 == 0 ==> 0x10 <= c / 4096 % 64
    ensures c / 262144 == 4 ==> c / 4096 % 64 < 0x10
  {
    DigitSplit(c);
    DigitSplits(c);
  }

  lemma NextTwoBytes(c: CodePoint, rest: seq<byte>)
    requires 0x80 <= c < 0x800
    ensures Next(EncodeOne(c) + rest) == Decoded(2, Some(c))
  {
    var b := EncodeOne(c) + rest;
    assert b[0] == 0xC0 + c / 64 && b[1] == 0x80 + c % 64;
  }

  lemma NextThreeBytes(c: CodePoint, rest: seq<byte>)
    requires 0x800 <= c < 0x10000 && !IsSurrogate(c)
    ensures Next(EncodeOne(c) + rest) == Decoded(3, Some(c))
  {
    var b := EncodeOne(c) + rest;
    assert b[0] == 0xE0 + c / 4096 && b[1] == 0x80 + c / 64 % 64 && b[2] == 0x80 + c % 64;
    FourDigits(c);
  }

  lemma NextFourBytes(c: CodePoint, rest: seq<byte>)
    requires 0x10000 <= c
    ensures Next(EncodeOne(c) + rest) == Decoded(4, Some(c))
  {
    var b := EncodeOne(c) + rest;
    assert b[0] == 0xF0 + c / 262144 && b[1] == 0x80 + c / 4096 % 64;
    assert b[2] == 0x80 + c / 64 % 64 && b[3] == 0x80 + c % 64;
    FourDigits(c);
  }

  /** The decoder takes exactly one encoded character off the front. */
  lemma NextOfEncoded(c: CodePoint, rest: seq<byte>)
    requires !IsSurrogate(c)
    ensures Next(EncodeOne(c) + rest) == Decoded(|EncodeOne(c)|, Some(c))
  {
    if c < 0x80 {
    } else if c < 0x800 {
      NextTwoBytes(c, rest);
    } else if c < 0x10000 {
      NextThreeBytes(c, rest);
    } else {
      NextFourBytes(c, rest);
    }
  }

  /** A cut-off character is one malformed tail: it is skipped whole and yields nothing. */
  lemma CutCharacterVanishes(c: CodePoint, n: nat)
    requires !IsSurrogate(c) && n < |EncodeOne(c)|
    ensures DecodeIgnoring(EncodeOne(c)[..n]) == []
  {
    if n != 0 {
      var cut := EncodeOne(c)[..n];
      NextOfCut(c, n);
      assert cut[n..] == [];
    }
  }

  lemma NextOfCut(c: CodePoint, n: nat)
    requires !IsSurrogate(c) && 0 < n < |EncodeOne(c)|
    ensures Next(EncodeOne(c)[..n]) == Decoded(n, None)
  {
    hide Next;
    var whole, cut := EncodeOne(c), EncodeOne(c)[..n];
    NextOfEncoded(c, []);
    assert whole + [] == whole;
    CutIsMalformed(whole, n);
  }

  lemma TwoDigits(high: nat, low: nat)
    requires low < 64
    ensures (high * 64 + low) / 64 == high && (high * 64 + low) % 64 == low
  {
  }

  lemma ThreeDigits(high: nat, middle: nat, low: nat)
    requires middle < 64 && low < 64
    ensures var c := high * 4096 + middle * 64 + low;
            c / 4096 == high && c / 64 % 64 == middle && c % 64 == low
  {
    TwoDigits(high, middle);
    TwoDigits(high * 64 + middle, low);
    DigitSplit(high * 4096 + middle * 64 + low);
  }

  lemma FourDigitsOf(high: nat, second: nat, third: nat, low: nat)
    requires second < 64 && third < 64 && low < 64
    ensures var c := high * 262144 + second * 4096 + third * 64 + low;
            c / 262144 == high && c / 4096 % 64 == second && c / 64 % 64 == third && c % 64 == low
  {
    ThreeDigits(high * 64 + second, third, low);
    TwoDigits(high, second);
    assert forall c: nat :: c / 4096 / 64 == c / 262144;
  }

  /** What the decoder accepts is the encoding of the character it gives: no overlong form, no surrogate. */
  lemma DecodedIsEncoding(b: seq<byte>)
    requires b != [] && Next(b).character.Some?
    ensures var d := Next(b);
            b[..d.consumed] == EncodeOne(d.character.value) && !IsSurrogate(d.character.value)
  {
    var d := Next(b);
    if d.consumed == 2 {
      TwoDigits(Bits(b[0], 0xC0), Bits(b[1], 0x80));
    } else if d.consumed == 3 {
      ThreeDigits(Bits(b[0], 0xE0), Bits(b[1], 0x80), Bits(b[2], 0x80));
    } else if d.consumed == 4 {
      FourDigitsOf(Bits(b[0], 0xF0), Bits(b[1], 0x80), Bits(b[2], 0x80), Bits(b[3], 0x80));
    }
  }

  /** The first k bytes of b begin the encoding of some character. */
  ghost predicate BeginsCharacter(b: seq<byte>, k: nat)
    requires k <= |b|
  {
    exists c: CodePoint :: !IsSurrogate(c) && k <= |EncodeOne(c)| && EncodeOne(c)[..k] == b[..k]
  }

  /** A malformed step skips the maximal subpart of section 3.9 of the Unicode Standard: as many bytes as still
      begin a character, or one byte where the first begins none. */
  lemma MalformedIsMaximal(b: seq<byte>)
    requires b != [] && Next(b).character.None?
    ensures var k := Next(b).consumed;
            && (1 < k ==> BeginsCharacter(b, k))
            && (k < |b| ==> !BeginsCharacter(b, k + 1))
  {
    var k := Next(b).consumed;
    if k < |b| && BeginsCharacter(b, k + 1) {
      var c: CodePoint :| !IsSurrogate(c) && k + 1 <= |EncodeOne(c)| && EncodeOne(c)[..k + 1] == b[..k + 1];
      NextOfEncoded(c, []);
      SameStart(b, EncodeOne(c) + [], k);
    }
    if 1 < k {
      var whole := b[..k] + (if b[0] < 0xF0 then [0x80] else if k == 2 then [0x80, 0x80] else [0x80]);
      Completed(b, whole);
      DecodedIsEncoding(whole);
      hide Next, EncodeOne;
      assert whole[..|whole|] == whole;
      assert EncodeOne(Next(whole).character.value)[..k] == b[..k];
    }
  }

  lemma SameStart(b: seq<byte>, whole: seq<byte>, k: nat)
    requires b != [] && Next(b) == Decoded(k, None) && k < |b| && k < |whole| && b[..k + 1] == whole[..k + 1]
    ensures Next(whole).character.None?
  {
    forall i | 0 <= i <= k ensures b[i] == whole[i] {
      assert b[i] == b[..k + 1][i] && whole[i] == whole[..k + 1][i];
    }
  }

  lemma Completed(b: seq<byte>, whole: seq<byte>)
    requires b != [] && Next(b).character.None? && 1 < Next(b).consumed
    requires whole == b[..Next(b).consumed] + (if b[0] < 0xF0 then [0x80]
                                               else if Next(b).consumed == 2 then [0x80, 0x80] else [0x80])
    ensures Next(whole).character.Some? && Next(whole).consumed == |whole|
  {
  }

  lemma CutIsMalformed(whole: seq<byte>, n: nat)
    requires whole != [] && Next(whole).character.Some? && Next(whole).consumed == |whole|
    requires 0 < n < |whole|
    ensures Next(whole[..n]) == Decoded(n, None)
  {
  }

  // ----- The longest prefix that fits -----

  function FitLength(s: seq<CodePoint>, limit: nat): (k: nat)
    ensures k <= |s|
  {
    if s == [] || limit < |EncodeOne(s[0])| then 0 else 1 + FitLength(s[1..], limit - |EncodeOne(s[0])|)
  }

  /** k is the length of the longest prefix whose encoding fits in the limit. */
  ghost predicate IsLongestFit(s: seq<CodePoint>, limit: nat, k: nat)
  {
    && k <= |s| && |Encode(s[..k])| <= limit
    && forall m :: k < m <= |s| ==> limit < |Encode(s[..m])|
  }

  lemma EncodeHead(s: seq<CodePoint>, m: nat)
    requires 0 < m <= |s|
    ensures Encode(s[..m]) == EncodeOne(s[0]) + Encode(s[1..][..m - 1])
  {
    assert s[..m][1..] == s[1..][..m - 1];
  }

  lemma {:induction false} FitLengthIsLongest(s: seq<CodePoint>, limit: nat)
    ensures IsLongestFit(s, limit, FitLength(s, limit))
  {
    var k := FitLength(s, limit);
    if s != [] && |EncodeOne(s[0])| <= limit {
      FitLengthIsLongest(s[1..], limit - |EncodeOne(s[0])|);
      EncodeHead(s, k);
    }
    forall m | k < m <= |s| ensures limit < |Encode(s[..m])| {
      EncodeHead(s, m);
    }
  }

  /** Decoding any byte prefix of an encoded string yields the longest prefix that fits. */
  lemma {:induction false} DecodedPrefixIsLongestFit(s: seq<CodePoint>, limit: nat)
    requires Encodable(s) && limit <= |Encode(s)|
    ensures DecodeIgnoring(Encode(s)[..limit]) == s[..FitLength(s, limit)]
  {
    hide Next;
    if s != [] {
      var first, rest := EncodeOne(s[0]), Encode(s[1..]);
      if limit < |first| {
        assert Encode(s)[..limit] == first[..limit];
        CutCharacterVanishes(s[0], limit);
      } else {
        var tail := rest[..limit - |first|];
        assert Encode(s)[..limit] == first + tail;
        NextOfEncoded(s[0], tail);
        assert (first + tail)[|first|..] == tail;
        DecodedPrefixIsLongestFit(s[1..], limit - |first|);
        assert s[..FitLength(s, limit)] == [s[0]] + s[1..][..FitLength(s, limit) - 1];
      }
    }
  }

  // ----- The four truncations -----

  const MAX_LINE_BYTES := 2000

  /** How many leading bytes Python's `encoded[:max]` keeps of `size` bytes, also for negative bounds. */
  function SliceEnd(size: nat, max: int): (end: nat)
    ensures end <= size
  {
    if max < 0 then (if size + max < 0 then 0 else size + max) else if max <= size then max else size
  }

  /** None is the encoding error a lone surrogate raises. */
  function TruncatePreview(value: seq<CodePoint>, max: int): Option<seq<CodePoint>>
  {
    if !Encodable(value) then None
    else
      var encoded := Encode(value);
      if |encoded| <= max then Some(value)
      else Some(DecodeIgnoring(encoded[..SliceEnd(|encoded|, max)]))
  }

  /** The line truncation of analysis, filtering and search results: text and flag. */
  function TruncateLine(value: seq<CodePoint>): Option<(seq<CodePoint>, bool)>
  {
    if !Encodable(value) then None
    else
      var encoded := Encode(value);
      if |encoded| <= MAX_LINE_BYTES then Some((value, false))
      else Some((DecodeIgnoring(encoded[..MAX_LINE_BYTES]), true))
  }

  lemma WholeFits(s: seq<CodePoint>, limit: nat)
    requires |Encode(s)| <= limit
    ensures IsLongestFit(s, limit, |s|)
  {
    assert s[..|s|] == s;
  }

  lemma LongestFitIsUnique(s: seq<CodePoint>, limit: nat, j: nat, k: nat)
    requires IsLongestFit(s, limit, j) && IsLongestFit(s, limit, k)
    ensures j == k
  {
  }

  /** A preview is the longest code-point prefix that fits in the bytes the bound leaves. */
  lemma PreviewIsLongestPrefix(value: seq<CodePoint>, max: int)
    ensures TruncatePreview(value, max).Some? <==> Encodable(value)
    ensures Encodable(value) ==>
              var k := FitLength(value, SliceEnd(|Encode(value)|, max));
              && TruncatePreview(value, max) == Some(value[..k])
              && IsLongestFit(value, SliceEnd(|Encode(value)|, max), k)
  {
    if Encodable(value) {
      var end := SliceEnd(|Encode(value)|, max);
      FitLengthIsLongest(value, end);
      DecodedPrefixIsLongestFit(value, end);
      if |Encode(value)| <= max {
        WholeFits(value, end);
        LongestFitIsUnique(value, end, |value|, FitLength(value, end));
        assert value[..|value|] == value;
      }
    }
  }

  /** Cutting the encoding at a limit it exceeds leaves the longest fitting prefix, a shorter text. */
  lemma CutIsLongestPrefix(value: seq<CodePoint>, limit: nat)
    requires Encodable(value) && limit < |Encode(value)|
    ensures var k := FitLength(value, limit);
            && DecodeIgnoring(Encode(value)[..limit]) == value[..k]
            && IsLongestFit(value, limit, k) && k < |value|
  {
    FitLengthIsLongest(value, limit);
    DecodedPrefixIsLongestFit(value, limit);
    hide Encode, FitLength, DecodeIgnoring;
    assert value[..|value|] == value;
  }

  lemma WholeIsLongestPrefix(value: seq<CodePoint>, limit: nat)
    requires |Encode(value)| <= limit
    ensures FitLength(value, limit) == |value| && value[..|value|] == value
    ensures IsLongestFit(value, limit, |value|)
  {
    FitLengthIsLongest(value, limit);
    WholeFits(value, limit);
    hide Encode, FitLength;
    LongestFitIsUnique(value, limit, |value|, FitLength(value, limit));
  }

  /** A truncated line is the longest prefix within 2000 bytes; the flag says whether anything went. */
  lemma LineIsLongestPrefix(value: seq<CodePoint>)
    ensures TruncateLine(value).Some? <==> Encodable(value)
    ensures Encodable(value) ==>
              var k := FitLength(value, 2000);
              && TruncateLine(value) == Some((value[..k], k < |value|))
              && IsLongestFit(value, 2000, k)
  {
    if Encodable(value) {
      hide Encode, FitLength, DecodeIgnoring, IsLongestFit, Encodable;
      if |Encode(value)| <= MAX_LINE_BYTES {
        WholeIsLongestPrefix(value, MAX_LINE_BYTES);
      } else {
        CutIsLongestPrefix(value, MAX_LINE_BYTES);
      }
    }
  }

  /** Truncating a truncated line changes nothing and flags nothing. */
  lemma LineTruncationIsIdempotent(value: seq<CodePoint>)
    requires Encodable(value)
    ensures TruncateLine(TruncateLine(value).value.0) == Some((TruncateLine(value).value.0, false))
  {
    LineIsLongestPrefix(value);
  }

  /** The bound leaves no room for the first character. */
  predicate NothingFits(value: seq<CodePoint>, max: int)
  {
    value == [] || |Encode(value)| + max < |EncodeOne(value[0])|
  }

  /** A preview is stable under a second pass exactly when the bound is not negative, as the only
      caller makes sure, or so negative that no character fits. */
  lemma PreviewTruncationIsIdempotent(value: seq<CodePoint>, max: int)
    requires Encodable(value)
    ensures var once := TruncatePreview(value, max).value;
            TruncatePreview(once, max) == Some(once) <==> 0 <= max || NothingFits(value, max)
  {
    var end := SliceEnd(|Encode(value)|, max);
    PreviewIsLongestPrefix(value, max);
    var k := FitLength(value, end);
    var once := value[..k];
    PreviewIsLongestPrefix(once, max);
    if max < 0 && 0 < k {
      EncodeHead(once, k);
      assert once[..k] == once;
      assert SliceEnd(|Encode(once)|, max) < |Encode(once)|;
    }
  }

  /** Two letters under the bound -1: the first pass drops one, the second the other. */
  lemma NegativeBoundKeepsShrinking(letter: CodePoint)
    requires letter < 0x80
    ensures TruncatePreview([letter, letter], -1) == Some([letter])
    ensures TruncatePreview([letter], -1) == Some([])
  {
    assert [letter, letter][1..] == [letter];
    assert Encode([letter]) == [letter] && Encode([letter, letter]) == [letter] + [letter];
    assert DecodeIgnoring([]) == [] && [letter][1..] == [];
    assert DecodeIgnoring([letter]) == [letter];
    assert [letter, letter][..1] == [letter] && [letter][..0] == [];
  }

  // ----- Which texts can be truncated at all -----

  const REPLACEMENT: CodePoint := 0xFFFD

  /** Text as files are read: each malformed sequence becomes one replacement character. */
  function DecodeReplacing(b: seq<byte>): seq<CodePoint>
  {
    if b == [] then []
    else
      var d := Next(b);
      [if d.character.Some? then d.character.value else REPLACEMENT] + DecodeReplacing(b[d.consumed..])
  }

  /** Three cut-off characters before a letter: one replacement character for each of them. */
  lemma ReplacementExample()
    ensures DecodeReplacing([0xF1, 0x80, 0x80, 0xE1, 0x80, 0xC2, 0x62]) == [0xFFFD, 0xFFFD, 0xFFFD, 0x62]
  {
    var b, second := [0xF1, 0x80, 0x80, 0xE1, 0x80, 0xC2, 0x62], [0xE1, 0x80, 0xC2, 0x62];
    var third, letter := [0xC2, 0x62], [0x62];
    assert Next(b) == Decoded(3, None) && Next(second) == Decoded(2, None);
    assert Next(third) == Decoded(1, None) && Next(letter) == Decoded(1, Some(0x62));
    hide Next;
    assert b[3..] == second && second[2..] == third && third[1..] == letter && letter[1..] == [];
    assert DecodeReplacing(letter) == [0x62];
    assert DecodeReplacing(third) == [0xFFFD, 0x62];
    assert DecodeReplacing(second) == [0xFFFD, 0xFFFD, 0x62];
  }

  /** Whatever bytes a snapshot file holds, the text read from it can be encoded again, so truncating
      raw lines, matches and previews never raises. */
  lemma {:induction false} TextReadIsEncodable(b: seq<byte>)
    ensures Encodable(DecodeReplacing(b))
    ensures TruncateLine(DecodeReplacing(b)).Some?
    ensures forall max :: TruncatePreview(DecodeReplacing(b), max).Some?
    decreases |b|
  {
    hide Next;
    if b != [] {
      TextReadIsEncodable(b[Next(b).consumed..]);
      if Next(b).character.Some? {
        DecodedIsEncoding(b);
      }
    }
  }

  /** A message whose only character is an escaped lone surrogate: its encoding raises. */
  lemma LoneSurrogateRaises()
    ensures TruncateLine([0xD800]) == None
  {
    assert IsSurrogate([0xD800][0]);
  }

  /** What the read tool answers for a chunk of text; only here a caller chooses the bound. */
  datatype InlineRead = InvalidLimit | EncodingError | Shown(content: seq<CodePoint>, truncated: bool)

  function ReadInline(chunk: seq<CodePoint>, maxBytes: int): InlineRead
  {
    if maxBytes < 1 then InvalidLimit
    else
      match TruncatePreview(chunk, maxBytes)
      case None => EncodingError
      case Some(preview) => Shown(preview, preview != chunk)
  }

  /** An inline read of text from a file never fails for an accepted limit; it fits the limit, is
      flagged exactly when the text does not, and reading it again changes nothing. */
  lemma InlineReadIsExact(file: seq<byte>, maxBytes: int)
    ensures var chunk := DecodeReplacing(file);
            var r := ReadInline(chunk, maxBytes);
            && (r.InvalidLimit? <==> maxBytes < 1)
            && (1 <= maxBytes ==>
                  && r.Shown? && |Encode(r.content)| <= maxBytes
                  && (r.truncated <==> maxBytes < |Encode(chunk)|)
                  && ReadInline(r.content, maxBytes) == Shown(r.content, false))
  {
    var chunk := DecodeReplacing(file);
    TextReadIsEncodable(file);
    if 1 <= maxBytes {
      PreviewIsLongestPrefix(chunk, maxBytes);
      PreviewTruncationIsIdempotent(chunk, maxBytes);
      if maxBytes < |Encode(chunk)| {
        assert chunk[..|chunk|] == chunk;
      }
    }
  }

  /** Decoding is the inverse of encoding. */
  lemma DecodeEncode(s: seq<CodePoint>)
    requires Encodable(s)
    ensures DecodeIgnoring(Encode(s)) == s
  {
    DecodedPrefixIsLongestFit(s, |Encode(s)|);
    FitLengthIsLongest(s, |Encode(s)|);
    WholeFits(s, |Encode(s)|);
    LongestFitIsUnique(s, |Encode(s)|, |s|, FitLength(s, |Encode(s)|));
    assert Encode(s)[..|Encode(s)|] == Encode(s) && s[..|s|] == s;
  }
}
