/** Hexadecimal names of byte strings. */
module Hex {
  import opened Options

  type Byte = x: int | 0 <= x < 256

  type Bytes = seq<Byte>

  const DIGITS := "0123456789abcdef"

  predicate LowerDigit(c: char) {
    '0' <= c <= '9' || 'a' <= c <= 'f'
  }

  function DigitValue(c: char): Option<int> {
    if '0' <= c <= '9' then Some(c as int - '0' as int)
    else if 'a' <= c <= 'f' then Some(c as int - 'a' as int + 10)
    else if 'A' <= c <= 'F' then Some(c as int - 'A' as int + 10)
    else None
  }

  lemma DigitRange(c: char)
    ensures DigitValue(c).Some? ==> 0 <= DigitValue(c).value < 16
  {
  }

  function Decode(s: string): Option<Bytes> {
    if s == "" then Some([])
    else if |s| == 1 then None
    else
      DigitRange(s[0]); DigitRange(s[1]);
      match (DigitValue(s[0]), DigitValue(s[1]), Decode(s[2..]))
      case (Some(h), Some(l), Some(rest)) => Some([16 * h + l] + rest)
      case _ => None
  }

  /** The lower-case name of a byte string. */
  function Encode(b: Bytes): string {
    if b == [] then "" else [DIGITS[b[0] / 16], DIGITS[b[0] % 16]] + Encode(b[1..])
  }

  function LowerChar(c: char): char {
    if 'A' <= c <= 'F' then (c as int - 'A' as int + 'a' as int) as char else c
  }

  /** Letters that are digits made lower-case. */
  function Lower(s: string): string {
    seq(|s|, i requires 0 <= i < |s| => LowerChar(s[i]))
  }

  lemma DigitIs(c: char, d: int)
    requires 0 <= d < 16
    ensures DigitValue(c) == Some(d) <==> LowerChar(c) == DIGITS[d]
  {
    assert DIGITS[0] == '0' && DIGITS[1] == '1' && DIGITS[2] == '2' && DIGITS[3] == '3';
    assert DIGITS[4] == '4' && DIGITS[5] == '5' && DIGITS[6] == '6' && DIGITS[7] == '7';
    assert DIGITS[8] == '8' && DIGITS[9] == '9' && DIGITS[10] == 'a' && DIGITS[11] == 'b';
    assert DIGITS[12] == 'c' && DIGITS[13] == 'd' && DIGITS[14] == 'e' && DIGITS[15] == 'f';
  }

  lemma HexDigitIff(c: char)
    ensures DigitValue(c).Some? <==> LowerChar(c) in DIGITS
  {
    if DigitValue(c).Some? {
      DigitRange(c);
      DigitIs(c, DigitValue(c).value);
    }
    if LowerChar(c) in DIGITS {
      var d :| 0 <= d < |DIGITS| && DIGITS[d] == LowerChar(c);
      DigitIs(c, d);
    }
  }

  lemma PairEqual(a: char, b: char, x: string, c: char, d: char, y: string)
    ensures [a, b] + x == [c, d] + y <==> a == c && b == d && x == y
  {
    var s, t := [a, b] + x, [c, d] + y;
    assert s[0] == a && s[1] == b && s[2..] == x;
    assert t[0] == c && t[1] == d && t[2..] == y;
  }

  lemma LowerSplit(s: string)
    requires |s| >= 2
    ensures Lower(s) == [LowerChar(s[0]), LowerChar(s[1])] + Lower(s[2..])
  {
  }

  lemma DecodeSplit(s: string, b: Bytes)
    requires |s| >= 2 && b != []
    ensures Decode(s) == Some(b) <==>
              && DigitValue(s[0]) == Some(b[0] / 16) && DigitValue(s[1]) == Some(b[0] % 16)
              && Decode(s[2..]) == Some(b[1..])
  {
    DigitRange(s[0]);
    DigitRange(s[1]);
    assert b == [b[0]] + b[1..];
  }

  /** Decoding gives a byte string exactly for its name, in any case of the letters. */
  lemma {:induction false} DecodesIff(s: string, b: Bytes)
    ensures Decode(s) == Some(b) <==> Lower(s) == Encode(b)
    decreases |s|
  {
    if |s| < 2 || b == [] {
      assert |Lower(s)| == |s|;
    } else {
      var h, l := DIGITS[b[0] / 16], DIGITS[b[0] % 16];
      DigitIs(s[0], b[0] / 16);
      DigitIs(s[1], b[0] % 16);
      DecodesIff(s[2..], b[1..]);
      LowerSplit(s);
      DecodeSplit(s, b);
      PairEqual(LowerChar(s[0]), LowerChar(s[1]), Lower(s[2..]), h, l, Encode(b[1..]));
    }
  }

  lemma {:induction false} EncodedIsLower(b: Bytes)
    ensures Lower(Encode(b)) == Encode(b)
  {
    if b == [] {
    } else {
      var s := Encode(b);
      EncodedIsLower(b[1..]);
      assert s[2..] == Encode(b[1..]);
      LowerDigits(b[0] / 16);
      LowerDigits(b[0] % 16);
      LowerSplit(s);
    }
  }

  lemma LowerDigits(d: int)
    requires 0 <= d < 16
    ensures LowerChar(DIGITS[d]) == DIGITS[d]
  {
    DigitIs(DIGITS[d], d);
  }

  lemma RoundTrip(b: Bytes)
    ensures Decode(Encode(b)) == Some(b)
  {
    EncodedIsLower(b);
    DecodesIff(Encode(b), b);
  }

  lemma {:induction false} DecodesAll(s: string)
    ensures Decode(s).Some? <==> |s| % 2 == 0 && forall i :: 0 <= i < |s| ==> DigitValue(s[i]).Some?
    decreases |s|
  {
    if |s| < 2 {
    } else {
      var rest := s[2..];
      DecodesAll(rest);
      assert forall i :: 0 <= i < |rest| ==> rest[i] == s[i + 2];
      assert forall i :: 2 <= i < |s| ==> s[i] == rest[i - 2];
    }
  }

  /** Exactly the strings of even length that consist of digits decode. */
  lemma DecodableIff(s: string)
    ensures Decode(s).Some? <==> |s| % 2 == 0 && forall i :: 0 <= i < |s| ==> LowerChar(s[i]) in DIGITS
  {
    DecodesAll(s);
    forall i | 0 <= i < |s|
      ensures DigitValue(s[i]).Some? <==> LowerChar(s[i]) in DIGITS
    {
      HexDigitIff(s[i]);
    }
  }
}
