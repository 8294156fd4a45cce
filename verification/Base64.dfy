/** Base64 as in section 4 of RFC 4648, with a validating decoder. */
module Base64 {
  import opened Options
  import opened LineCounting

  type digit = d: int | 0 <= d < 64

  function CharOf(d: digit): char
  {
    if d < 26 then 'A' + d as char
    else if d < 52 then 'a' + (d - 26) as char
    else if d < 62 then '0' + (d - 52) as char
    else if d == 62 then '+'
    else '/'
  }

  function DigitOf(c: char): Option<digit>
  {
    if 'A' <= c <= 'Z' then Some((c - 'A') as int)
    else if 'a' <= c <= 'z' then Some((c - 'a') as int + 26)
    else if '0' <= c <= '9' then Some((c - '0') as int + 52)
    else if c == '+' then Some(62)
    else if c == '/' then Some(63)
    else None
  }

  function Encode(b: seq<byte>): string
  {
    if b == [] then ""
    else if |b| == 1 then [CharOf(b[0] / 4), CharOf(b[0] % 4 * 16), '=', '=']
    else if |b| == 2 then
      [CharOf(b[0] / 4), CharOf(b[0] % 4 * 16 + b[1] / 16), CharOf(b[1] % 16 * 4), '=']
    else
      [CharOf(b[0] / 4), CharOf(b[0] % 4 * 16 + b[1] / 16), CharOf(b[1] % 16 * 4 + b[2] / 64), CharOf(b[2] % 64)]
      + Encode(b[3..])
  }

  /** Any character outside the alphabet, misplaced padding or a partial quantum is an error. */
  function Decode(s: string): Option<seq<byte>>
  {
    if s == "" then Some([])
    else if |s| < 4 then None
    else
      var d0, d1, d2, d3 := DigitOf(s[0]), DigitOf(s[1]), DigitOf(s[2]), DigitOf(s[3]);
      if d0.None? || d1.None? then None
      else
        var b0 := d0.value * 4 + d1.value / 16;
        if |s| == 4 && s[2] == '=' && s[3] == '=' then Some([b0])
        else if d2.None? then None
        else
          var b1 := d1.value % 16 * 16 + d2.value / 4;
          if |s| == 4 && s[3] == '=' then Some([b0, b1])
          else if d3.None? then None
          else
            var rest := Decode(s[4..]);
            if rest.None? then None
            else Some([b0, b1, d2.value % 4 * 64 + d3.value] + rest.value)
  }

  lemma DigitRoundTrip(d: digit)
    ensures DigitOf(CharOf(d)) == Some(d)
    ensures CharOf(d) != '='
  {
  }

  lemma QuantumRoundTrip(b0: byte, b1: byte, b2: byte)
    ensures var d1, d2 := b0 % 4 * 16 + b1 / 16, b1 % 16 * 4 + b2 / 64;
            && b0 / 4 * 4 + d1 / 16 == b0
            && d1 % 16 * 16 + d2 / 4 == b1
            && d2 % 4 * 64 + b2 % 64 == b2
  {
  }

  lemma FullQuantum(b0: byte, b1: byte, b2: byte, rest: string)
    requires Decode(rest).Some?
    ensures Decode([CharOf(b0 / 4), CharOf(b0 % 4 * 16 + b1 / 16), CharOf(b1 % 16 * 4 + b2 / 64), CharOf(b2 % 64)]
                   + rest)
            == Some([b0, b1, b2] + Decode(rest).value)
  {
    hide DigitOf, CharOf;
    DigitRoundTrip(b0 / 4);
    DigitRoundTrip(b0 % 4 * 16 + b1 / 16);
    DigitRoundTrip(b1 % 16 * 4 + b2 / 64);
    DigitRoundTrip(b2 % 64);
    QuantumRoundTrip(b0, b1, b2);
    var quantum := [CharOf(b0 / 4), CharOf(b0 % 4 * 16 + b1 / 16), CharOf(b1 % 16 * 4 + b2 / 64), CharOf(b2 % 64)];
    assert (quantum + rest)[4..] == rest;
  }

  lemma OneByteQuantum(b0: byte)
    ensures Decode([CharOf(b0 / 4), CharOf(b0 % 4 * 16), '=', '=']) == Some([b0])
  {
    hide DigitOf, CharOf;
    DigitRoundTrip(b0 / 4);
    DigitRoundTrip(b0 % 4 * 16);
    QuantumRoundTrip(b0, 0, 0);
  }

  lemma TwoByteQuantum(b0: byte, b1: byte)
    ensures Decode([CharOf(b0 / 4), CharOf(b0 % 4 * 16 + b1 / 16), CharOf(b1 % 16 * 4), '=']) == Some([b0, b1])
  {
    hide DigitOf, CharOf;
    DigitRoundTrip(b0 / 4);
    DigitRoundTrip(b0 % 4 * 16 + b1 / 16);
    DigitRoundTrip(b1 % 16 * 4);
    QuantumRoundTrip(b0, b1, 0);
  }

  /** Decoding gives back exactly the encoded bytes. */
  lemma {:induction false} DecodeEncode(b: seq<byte>)
    ensures Decode(Encode(b)) == Some(b)
  {
    hide Decode, CharOf;
    if b == [] {
      DecodeEmpty();
    } else if |b| == 1 {
      OneByteQuantum(b[0]);
      assert b == [b[0]];
    } else if |b| == 2 {
      TwoByteQuantum(b[0], b[1]);
      assert b == [b[0], b[1]];
    } else {
      DecodeEncode(b[3..]);
      FullQuantum(b[0], b[1], b[2], Encode(b[3..]));
      assert b == [b[0], b[1], b[2]] + b[3..];
    }
  }

  lemma DecodeEmpty()
    ensures Decode("") == Some([])
  {
  }

  /** The test vectors of section 10 of RFC 4648, and the two last characters of the alphabet. */
  lemma StandardVectors()
    ensures Encode([]) == "" && Encode([102]) == "Zg==" && Encode([102, 111]) == "Zm8="
    ensures Encode([102, 111, 111]) == "Zm9v" && Encode([102, 111, 111, 98]) == "Zm9vYg=="
    ensures Encode([251, 255, 191]) == "+/+/"
  {
    assert [102, 111, 111][3..] == [] && [102, 111, 111, 98][3..] == [98] && [251, 255, 191][3..] == [];
    assert Encode([98]) == "Yg==";
    assert Encode([102, 111, 111, 98]) == "Zm9v" + Encode([98]);
  }

  /** Four characters for every three bytes, the last ones padded. */
  lemma {:induction false} EncodedLength(b: seq<byte>)
    ensures |Encode(b)| == (|b| + 2) / 3 * 4
  {
    hide CharOf;
    if 3 <= |b| {
      EncodedLength(b[3..]);
    }
  }

  predicate IsLetter(c: char)
  {
    'A' <= c <= 'Z' || 'a' <= c <= 'z' || '0' <= c <= '9' || c == '+' || c == '/'
  }

  /** Whole quanta of letters of the alphabet, the last of which may end in one or two padding characters. */
  predicate IsPaddedText(s: string)
  {
    && |s| % 4 == 0
    && (forall i :: 0 <= i < |s| - 2 ==> IsLetter(s[i]))
    && (s != [] ==>
          || (IsLetter(s[|s| - 2]) && (IsLetter(s[|s| - 1]) || s[|s| - 1] == '='))
          || (s[|s| - 2] == '=' && s[|s| - 1] == '='))
  }

  lemma PaddedStep(s: string)
    requires 4 < |s|
    ensures IsPaddedText(s)
       <==> IsLetter(s[0]) && IsLetter(s[1]) && IsLetter(s[2]) && IsLetter(s[3]) && IsPaddedText(s[4..])
  {
    hide IsLetter;
    var rest := s[4..];
    assert forall i :: 0 <= i < |rest| ==> rest[i] == s[i + 4];
    assert forall i :: 4 <= i < |s| ==> s[i] == rest[i - 4];
  }

  /** The decoder accepts exactly padded texts over the alphabet. */
  lemma {:induction false} DecodesExactly(s: string)
    ensures Decode(s).Some? <==> IsPaddedText(s)
  {
    if |s| == 4 {
      assert s[4..] == "";
    } else if 4 < |s| {
      DecodesExactly(s[4..]);
      PaddedStep(s);
      hide IsPaddedText;
    }
  }
}
