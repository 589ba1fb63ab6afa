/**
  Base58 text.  The encoder is the loop of the publishing script; the decoder
  follows sections 3 and 4 of draft-msporny-base58-03, with every character
  outside the alphabet an error.
 */
module Base58 {
  import opened Types
  import opened Numerals

  // The 58 characters in digit order, split where the alphabet skips a letter.
  const ALPHABET :=
    "123456789" + "ABCDEFGH" + "JKLMN" + "PQRSTUVWXYZ" + "abcdefghijk" + "mnopqrstuvwxyz"

  function DigitChar(d: nat): char
    requires d < 58
  {
    ALPHABET[d]
  }

  predicate IsDigitChar(c: char) {
    || '1' <= c <= '9' || 'A' <= c <= 'H' || 'J' <= c <= 'N'
    || 'P' <= c <= 'Z' || 'a' <= c <= 'k' || 'm' <= c <= 'z'
  }

  function CharDigit(c: char): (d: nat)
    requires IsDigitChar(c)
    ensures d < 58
  {
    if c <= '9' then c as int - '1' as int
    else if c <= 'H' then c as int - 'A' as int + 9
    else if c <= 'N' then c as int - 'J' as int + 17
    else if c <= 'Z' then c as int - 'P' as int + 22
    else if c <= 'k' then c as int - 'a' as int + 33
    else c as int - 'm' as int + 44
  }

  predicate IsBase58(s: string) {
    forall i :: 0 <= i < |s| ==> IsDigitChar(s[i])
  }

  function DigitsOf(s: string): (ds: seq<nat>)
    requires IsBase58(s)
    ensures InBase(58, ds)
  {
    seq(|s|, i requires 0 <= i < |s| => CharDigit(s[i]))
  }

  function Chars(ds: seq<nat>): (s: string)
    requires InBase(58, ds)
    ensures |s| == |ds|
  {
    seq(|ds|, i requires 0 <= i < |ds| => DigitChar(ds[i]))
  }

  function Encode(b: seq<Byte>): string {
    Chars(Convert(256, 58, b))
  }

  function Decode(s: string): Option<seq<Byte>> {
    if IsBase58(s) then Some(Convert(58, 256, DigitsOf(s))) else None
  }

  function LStripZeros(b: seq<Byte>): seq<Byte> {
    if b != [] && b[0] == 0 then LStripZeros(b[1..]) else b
  }

  lemma {:induction false} LStripLength(b: seq<Byte>)
    ensures |b| - |LStripZeros(b)| == LeadingZeros(b)
  {
    if b != [] && b[0] == 0 {
      LStripLength(b[1..]);
    }
  }

  lemma CharsOfStep(n: nat)
    requires n != 0
    ensures Chars(Digits(58, n)) == Chars(Digits(58, n / 58)) + [DigitChar(n % 58)]
  {
    hide DigitChar;
    assert Digits(58, n) == Digits(58, n / 58) + [n % 58];
  }

  lemma EncodeSplit(b: seq<Byte>)
    ensures Encode(b) == seq(LeadingZeros(b), _ => '1') + Chars(Digits(58, Value(256, b)))
  {
    assert ALPHABET[0] == "123456789"[0];
  }

  /** The script's encoder: peel off base-58 digits, then one '1' per leading zero byte. */
  method B58(b: seq<Byte>) returns (out: string)
    ensures out == Encode(b)
  {
    hide DigitChar;
    var n := Value(256, b);
    out := "";
    while n != 0
      invariant Chars(Digits(58, n)) + out == Chars(Digits(58, Value(256, b)))
    {
      var r := n % 58;
      CharsOfStep(n);
      n := n / 58;
      out := [DigitChar(r)] + out;
    }
    LStripLength(b);
    EncodeSplit(b);
    out := seq(|b| - |LStripZeros(b)|, _ => '1') + out;
  }

  /** `CharDigit` inverts the alphabet, and nothing outside the alphabet is a digit. */
  lemma AlphabetBijection(d: nat, c: char)
    requires d < 58
    ensures IsDigitChar(DigitChar(d)) && CharDigit(DigitChar(d)) == d
    ensures IsDigitChar(c) ==> DigitChar(CharDigit(c)) == c
    ensures IsDigitChar(c) <==> exists k: nat :: k < 58 && DigitChar(k) == c
    ensures InRun(d, DigitChar(d))
  {
    hide DigitChar;
    DigitCharRuns(d);
    AlphabetOfDigit(d);
    if IsDigitChar(c) {
      AlphabetOfChar(c);
    }
    if k: nat :| k < 58 && DigitChar(k) == c {
      AlphabetOfDigit(k);
    }
  }

  lemma AlphabetOfChar(c: char)
    requires IsDigitChar(c)
    ensures DigitChar(CharDigit(c)) == c
  {
    hide DigitChar, CharDigit;
    var d := CharDigit(c);
    DigitCharRuns(d);
    CharDigitRuns(d, c);
  }

  lemma AlphabetOfDigit(d: nat)
    requires d < 58
    ensures IsDigitChar(DigitChar(d)) && CharDigit(DigitChar(d)) == d
  {
    hide CharDigit, IsDigitChar;
    DigitCharRuns(d);
    CharDigitRuns(d, DigitChar(d));
  }

  /** The run of the alphabet a digit falls in, and its place there. */
  ghost predicate InRun(d: nat, c: char) {
    || (d < 9 && c as int == '1' as int + d)
    || (9 <= d < 17 && c as int == 'A' as int + (d - 9))
    || (17 <= d < 22 && c as int == 'J' as int + (d - 17))
    || (22 <= d < 33 && c as int == 'P' as int + (d - 22))
    || (33 <= d < 44 && c as int == 'a' as int + (d - 33))
    || (44 <= d < 58 && c as int == 'm' as int + (d - 44))
  }

  lemma DigitCharRuns(d: nat)
    requires d < 58
    ensures InRun(d, DigitChar(d))
  {
    hide ALPHABET;
    if d < 22 { LowRuns(d); } else { HighRuns(d); }
  }

  lemma LowRuns(d: nat)
    requires d < 22
    ensures InRun(d, DigitChar(d))
  {
    if d < 9 {
      assert ALPHABET[d] == "123456789"[d];
    } else if d < 17 {
      assert ALPHABET[d] == "ABCDEFGH"[d - 9];
    } else {
      assert ALPHABET[d] == "JKLMN"[d - 17];
    }
  }

  lemma HighRuns(d: nat)
    requires 22 <= d < 58
    ensures InRun(d, DigitChar(d))
  {
    if d < 33 {
      assert ALPHABET[d] == "PQRSTUVWXYZ"[d - 22];
    } else if d < 44 {
      assert ALPHABET[d] == "abcdefghijk"[d - 33];
    } else {
      assert ALPHABET[d] == "mnopqrstuvwxyz"[d - 44];
    }
  }

  lemma CharDigitRuns(d: nat, c: char)
    ensures InRun(d, c) ==> IsDigitChar(c) && CharDigit(c) == d
    ensures IsDigitChar(c) && CharDigit(c) == d ==> InRun(d, c)
  {
  }

  lemma DigitsOfChars(ds: seq<nat>)
    requires InBase(58, ds)
    ensures IsBase58(Chars(ds)) && DigitsOf(Chars(ds)) == ds
  {
    hide DigitChar;
    forall i | 0 <= i < |ds| ensures IsDigitChar(Chars(ds)[i]) && CharDigit(Chars(ds)[i]) == ds[i] {
      AlphabetOfDigit(ds[i]);
    }
  }

  lemma CharsOfDigits(s: string)
    requires IsBase58(s)
    ensures Chars(DigitsOf(s)) == s
  {
    hide DigitChar, CharDigit;
    forall i | 0 <= i < |s| ensures DigitChar(CharDigit(s[i])) == s[i] {
      AlphabetOfChar(s[i]);
    }
  }

  /** Every byte string survives the trip through text. */
  lemma DecodeOfEncode(b: seq<Byte>)
    ensures Decode(Encode(b)) == Some(b)
  {
    ConvertRoundTrip(256, 58, b);
    DigitsOfChars(Convert(256, 58, b));
  }

  /** Every accepted text is the encoding of what it decodes to: no two texts share bytes. */
  lemma EncodeOfDecode(s: string)
    requires Decode(s).Some?
    ensures Encode(Decode(s).value) == s
  {
    ConvertRoundTrip(58, 256, DigitsOf(s));
    CharsOfDigits(s);
  }

  /**
    The encoding without the loop: the text over the alphabet that stands for the same
    number and has as many leading '1's as the bytes have leading zeros.
   */
  lemma EncodeExact(s: string, b: seq<Byte>)
    ensures s == Encode(b) <==>
      && IsBase58(s)
      && Value(58, DigitsOf(s)) == Value(256, b)
      && LeadingZeros(DigitsOf(s)) == LeadingZeros(b)
  {
    hide Value, Digits, LeadingZeros, DigitChar, CharDigit;
    if s == Encode(b) {
      DigitsOfChars(Convert(256, 58, b));
      ConvertMeans(256, 58, b);
      ConvertRoundTrip(256, 58, b);
    }
    if IsBase58(s) && Value(58, DigitsOf(s)) == Value(256, b) && LeadingZeros(DigitsOf(s)) == LeadingZeros(b) {
      ConvertSelf(256, b);
      EncodeOfDecode(s);
    }
  }

  /** The test vector of section 5 of draft-msporny-base58-03 with leading zero bytes. */
  lemma EncodeVector()
    ensures Encode([0x00, 0x00, 0x28, 0x7F, 0xB4, 0xCD]) == "11233QC4"
  {
    var b, s := [0x00, 0x00, 0x28, 0x7F, 0xB4, 0xCD], "11233QC4";
    assert DigitsOf(s) == [0, 0, 1, 2, 2, 23, 11, 3];
    VectorValues();
    assert b == Zeros(2) + [0x28, 0x7F, 0xB4, 0xCD] && DigitsOf(s) == Zeros(2) + [1, 2, 2, 23, 11, 3];
    ValueSkipsZeros(256, 2, [0x28, 0x7F, 0xB4, 0xCD]);
    ValueSkipsZeros(58, 2, [1, 2, 2, 23, 11, 3]);
    LeadingZerosOf(2, [0x28, 0x7F, 0xB4, 0xCD]);
    LeadingZerosOf(2, [1, 2, 2, 23, 11, 3]);
    EncodeExact(s, b);
  }

  lemma VectorValues()
    ensures Value(256, [0x28, 0x7F, 0xB4, 0xCD]) == 679457997 == Value(58, [1, 2, 2, 23, 11, 3])
  {
    OneDigit(256, 0x28);
    ValueStep(256, [0x28], 0x7F, [0x28, 0x7F]);
    ValueStep(256, [0x28, 0x7F], 0xB4, [0x28, 0x7F, 0xB4]);
    ValueStep(256, [0x28, 0x7F, 0xB4], 0xCD, [0x28, 0x7F, 0xB4, 0xCD]);
    OneDigit(58, 1);
    ValueStep(58, [1], 2, [1, 2]);
    ValueStep(58, [1, 2], 2, [1, 2, 2]);
    ValueStep(58, [1, 2, 2], 23, [1, 2, 2, 23]);
    ValueStep(58, [1, 2, 2, 23], 11, [1, 2, 2, 23, 11]);
    ValueStep(58, [1, 2, 2, 23, 11], 3, [1, 2, 2, 23, 11, 3]);
  }

  /** The bijection in one line: decoding accepts exactly the encoder's outputs. */
  lemma Base58Bijection(s: string, b: seq<Byte>)
    ensures Decode(s) == Some(b) <==> s == Encode(b)
  {
    DecodeOfEncode(b);
    if Decode(s).Some? {
      EncodeOfDecode(s);
    }
  }
}
