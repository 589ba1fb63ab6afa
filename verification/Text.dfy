/** Decimal numbers, hexadecimal bytes and comma-separated lists, as text. */
module Text {
  import opened Types
  import opened Numerals

  // ----- decimal -----

  function DecimalChars(ds: seq<nat>): (s: string)
    requires InBase(10, ds)
    ensures |s| == |ds|
  {
    seq(|ds|, i requires 0 <= i < |ds| => ds[i] as char + '0')
  }

  predicate IsDecimal(s: string) {
    forall i :: 0 <= i < |s| ==> '0' <= s[i] <= '9'
  }

  function DecimalDigits(s: string): (ds: seq<nat>)
    requires IsDecimal(s)
  {
    seq(|s|, i requires 0 <= i < |s| => s[i] as int - '0' as int)
  }

  function ToDecimal(n: nat): string {
    if n == 0 then "0" else DecimalChars(Digits(10, n))
  }

  /** Rust's `u64` parser: an optional plus sign, then digits, in range. */
  function ParseU64(s: string): Option<U64> {
    var digits := if s != "" && s[0] == '+' then s[1..] else s;
    if digits == "" || !IsDecimal(digits) then None
    else
      var v := Value(10, DecimalDigits(digits));
      if v < 0x1_0000_0000_0000_0000 then Some(v) else None
  }

  lemma DecimalRoundTrip(n: U64)
    ensures ParseU64(ToDecimal(n)) == Some(n)
    ensures IsDecimal(ToDecimal(n)) && ToDecimal(n) != ""
  {
    if n == 0 {
      assert DecimalDigits("0") == [0];
      ValueAppend(10, [], 0);
    } else {
      ValueOfDigits(10, n);
      assert DecimalDigits(ToDecimal(n)) == Digits(10, n);
    }
  }

  function ZeroChars(k: nat): string {
    seq(k, _ => '0')
  }

  /** The printed number after an optional plus sign and any number of zeros. */
  ghost predicate Spells(s: string, v: U64, plus: bool, k: nat) {
    s == (if plus then "+" else "") + (ZeroChars(k) + ToDecimal(v))
  }

  /** A text reads as a number exactly when it is the number as printed, with zeros and a plus sign allowed in front. */
  lemma ParseExact(s: string, v: U64)
    ensures ParseU64(s) == Some(v) <==> exists plus: bool, k: nat :: Spells(s, v, plus, k)
  {
    hide ToDecimal, DecimalDigits, Value, IsDecimal;
    if ParseU64(s) == Some(v) {
      var plus := s != "" && s[0] == '+';
      var digits := if plus then s[1..] else s;
      var k := LeadingZeroChars(digits, v);
      assert s == (if plus then "+" else "") + digits;
      assert Spells(s, v, plus, k);
    }
    if plus: bool, k: nat :| Spells(s, v, plus, k) {
      var digits := ZeroChars(k) + ToDecimal(v);
      ZerosRead(k, v);
      if plus {
        assert s[0] == '+' && s[1..] == digits;
      } else {
        assert s == digits;
      }
    }
  }

  lemma ZerosRead(k: nat, v: U64)
    ensures
      var digits := ZeroChars(k) + ToDecimal(v);
      digits != "" && digits[0] != '+' && IsDecimal(digits) && Value(10, DecimalDigits(digits)) == v
  {
    var printed := ToDecimal(v);
    var digits := ZeroChars(k) + printed;
    DecimalRoundTrip(v);
    hide ToDecimal, Value;
    assert printed[0] != '+' && ParseU64(printed) == Some(v);
    assert DecimalDigits(digits) == Zeros(k) + DecimalDigits(printed);
    ValueSkipsZeros(10, k, DecimalDigits(printed));
  }

  lemma CharsOfDecimal(s: string)
    requires IsDecimal(s)
    ensures InBase(10, DecimalDigits(s)) && DecimalChars(DecimalDigits(s)) == s
  {
  }

  lemma LeadingZeroChars(digits: string, v: U64) returns (k: nat)
    requires digits != "" && IsDecimal(digits) && Value(10, DecimalDigits(digits)) == v
    ensures digits == ZeroChars(k) + ToDecimal(v)
  {
    hide Value, Digits, LeadingZeros, DecimalDigits;
    var ds := DecimalDigits(digits);
    var z := LeadingZeros(ds);
    var core := ds[z..];
    CharsOfDecimal(digits);
    assert ds == Zeros(z) + core;
    assert InBase(10, core);
    assert digits == ZeroChars(z) + DecimalChars(core);
    ValueSkipsZeros(10, z, core);
    DigitsOfValue(10, core);
    if v == 0 {
      k := z - 1;
      assert digits == ZeroChars(z) == ZeroChars(k) + "0";
    } else {
      k := z;
    }
  }

  /** Which characters stand for which digits, and in which order. */
  lemma DecimalVector()
    ensures ToDecimal(9876543210) == "9876543210"
  {
    var ds := [9, 8, 7, 6, 5, 4, 3, 2, 1, 0];
    OneDigit(10, 9);
    ValueStep(10, [9], 8, [9, 8]);
    ValueStep(10, [9, 8], 7, [9, 8, 7]);
    ValueStep(10, [9, 8, 7], 6, [9, 8, 7, 6]);
    ValueStep(10, [9, 8, 7, 6], 5, [9, 8, 7, 6, 5]);
    ValueStep(10, [9, 8, 7, 6, 5], 4, [9, 8, 7, 6, 5, 4]);
    ValueStep(10, [9, 8, 7, 6, 5, 4], 3, [9, 8, 7, 6, 5, 4, 3]);
    ValueStep(10, [9, 8, 7, 6, 5, 4, 3], 2, [9, 8, 7, 6, 5, 4, 3, 2]);
    ValueStep(10, [9, 8, 7, 6, 5, 4, 3, 2], 1, [9, 8, 7, 6, 5, 4, 3, 2, 1]);
    ValueStep(10, [9, 8, 7, 6, 5, 4, 3, 2, 1], 0, ds);
    DigitsOfValue(10, ds);
    VectorChars(ds);
  }

  lemma VectorChars(ds: seq<nat>)
    requires ds == [9, 8, 7, 6, 5, 4, 3, 2, 1, 0]
    ensures InBase(10, ds) && DecimalChars(ds) == "9876543210"
  {
  }

  // ----- hexadecimal, lower case as printed, either case as read -----

  type Nibble = x: int | 0 <= x < 16

  function HexChar(d: Nibble): char {
    if d < 10 then d as char + '0' else (d - 10) as char + 'a'
  }

  function HexValue(c: char): Option<Nibble> {
    if '0' <= c <= '9' then Some(c as int - '0' as int)
    else if 'a' <= c <= 'f' then Some(c as int - 'a' as int + 10)
    else if 'A' <= c <= 'F' then Some(c as int - 'A' as int + 10)
    else None
  }

  function HexEncode(bytes: seq<Byte>): string {
    if bytes == [] then ""
    else [HexChar(bytes[0] / 16), HexChar(bytes[0] % 16)] + HexEncode(bytes[1..])
  }

  function HexDecode(s: string): Option<seq<Byte>> {
    if s == "" then Some([])
    else if |s| == 1 then None
    else
      var hi, lo, rest := HexValue(s[0]), HexValue(s[1]), HexDecode(s[2..]);
      if hi.Some? && lo.Some? && rest.Some? then Some([hi.value * 16 + lo.value] + rest.value) else None
  }

  predicate IsLowerHex(s: string) {
    forall i :: 0 <= i < |s| ==> '0' <= s[i] <= '9' || 'a' <= s[i] <= 'f'
  }

  lemma HexCharRead(d: Nibble)
    ensures HexValue(HexChar(d)) == Some(d)
    ensures '0' <= HexChar(d) <= '9' || 'a' <= HexChar(d) <= 'f'
  {
  }

  lemma {:induction false} HexIsLower(bytes: seq<Byte>)
    ensures IsLowerHex(HexEncode(bytes))
    ensures |HexEncode(bytes)| == 2 * |bytes|
  {
    if bytes != [] {
      hide HexChar;
      HexIsLower(bytes[1..]);
      HexCharRead(bytes[0] / 16);
      HexCharRead(bytes[0] % 16);
    }
  }

  lemma {:induction false} HexReadsBack(bytes: seq<Byte>)
    ensures HexDecode(HexEncode(bytes)) == Some(bytes)
  {
    if bytes != [] {
      hide HexChar, HexValue;
      HexReadsBack(bytes[1..]);
      var s := HexEncode(bytes);
      assert s[2..] == HexEncode(bytes[1..]);
      HexCharRead(bytes[0] / 16);
      HexCharRead(bytes[0] % 16);
      assert bytes == [bytes[0]] + bytes[1..];
    }
  }

  lemma HexRoundTrip(bytes: seq<Byte>)
    ensures HexDecode(HexEncode(bytes)) == Some(bytes)
    ensures IsLowerHex(HexEncode(bytes))
    ensures |HexEncode(bytes)| == 2 * |bytes|
  {
    HexReadsBack(bytes);
    HexIsLower(bytes);
  }

  /** Byte by byte, the high digit first. */
  lemma {:induction false} HexDigitsAt(bytes: seq<Byte>, i: nat)
    requires i < |bytes|
    ensures |HexEncode(bytes)| == 2 * |bytes|
    ensures HexEncode(bytes)[2 * i] == "0123456789abcdef"[bytes[i] / 16]
    ensures HexEncode(bytes)[2 * i + 1] == "0123456789abcdef"[bytes[i] % 16]
  {
    HexRoundTrip(bytes);
    if i == 0 {
      HexCharText(bytes[0] / 16);
      HexCharText(bytes[0] % 16);
    } else {
      HexDigitsAt(bytes[1..], i - 1);
      assert HexEncode(bytes)[2..] == HexEncode(bytes[1..]);
      assert HexEncode(bytes)[2 * i] == HexEncode(bytes[1..])[2 * (i - 1)];
      assert HexEncode(bytes)[2 * i + 1] == HexEncode(bytes[1..])[2 * (i - 1) + 1];
    }
  }

  lemma HexCharText(d: Nibble)
    ensures HexChar(d) == "0123456789abcdef"[d]
  {
  }

  function LowerChar(c: char): char {
    if 'A' <= c <= 'F' then (c as int - 'A' as int + 'a' as int) as char else c
  }

  function Lower(s: string): (t: string)
    ensures |t| == |s|
  {
    seq(|s|, i requires 0 <= i < |s| => LowerChar(s[i]))
  }

  lemma HexValueExact(c: char, d: Nibble)
    ensures HexValue(c) == Some(d) <==> LowerChar(c) == HexChar(d)
  {
  }

  /** A text reads as bytes exactly when it is those bytes as printed, up to the case of letters. */
  lemma {:induction false} HexReadsExactly(s: string, bytes: seq<Byte>)
    ensures HexDecode(s) == Some(bytes) <==> Lower(s) == HexEncode(bytes)
  {
    HexRoundTrip(bytes);
    if 2 <= |s| && bytes != [] {
      HexReadsExactly(s[2..], bytes[1..]);
      HexValueExact(s[0], bytes[0] / 16);
      HexValueExact(s[1], bytes[0] % 16);
      FirstByte(s, bytes);
    } else if 2 <= |s| {
      assert |Lower(s)| != 0;
    }
  }

  lemma FirstByte(s: string, bytes: seq<Byte>)
    requires 2 <= |s| && bytes != []
    requires HexDecode(s[2..]) == Some(bytes[1..]) <==> Lower(s[2..]) == HexEncode(bytes[1..])
    requires HexValue(s[0]) == Some(bytes[0] / 16) <==> LowerChar(s[0]) == HexChar(bytes[0] / 16)
    requires HexValue(s[1]) == Some(bytes[0] % 16) <==> LowerChar(s[1]) == HexChar(bytes[0] % 16)
    ensures HexDecode(s) == Some(bytes) <==> Lower(s) == HexEncode(bytes)
  {
    hide LowerChar, HexChar, HexValue, HexEncode, HexDecode, Lower;
    FirstRead(s, bytes);
    FirstPrinted(s, bytes);
  }

  lemma FirstRead(s: string, bytes: seq<Byte>)
    requires 2 <= |s| && bytes != []
    ensures HexDecode(s) == Some(bytes) <==>
      && HexValue(s[0]) == Some(bytes[0] / 16) && HexValue(s[1]) == Some(bytes[0] % 16)
      && HexDecode(s[2..]) == Some(bytes[1..])
  {
    hide HexValue;
    assert bytes == [bytes[0]] + bytes[1..];
    if HexDecode(s) == Some(bytes) {
      var hi, lo, rest := HexValue(s[0]), HexValue(s[1]), HexDecode(s[2..]);
      assert bytes == [hi.value * 16 + lo.value] + rest.value;
      assert bytes[1..] == rest.value;
    }
  }

  lemma FirstPrinted(s: string, bytes: seq<Byte>)
    requires 2 <= |s| && bytes != []
    ensures Lower(s) == HexEncode(bytes) <==>
      && LowerChar(s[0]) == HexChar(bytes[0] / 16) && LowerChar(s[1]) == HexChar(bytes[0] % 16)
      && Lower(s[2..]) == HexEncode(bytes[1..])
  {
    hide LowerChar, HexChar;
    var front, hex := [HexChar(bytes[0] / 16), HexChar(bytes[0] % 16)], HexEncode(bytes[1..]);
    assert HexEncode(bytes) == front + hex;
    assert Lower(s) == [LowerChar(s[0]), LowerChar(s[1])] + Lower(s[2..]);
    assert HexEncode(bytes)[2..] == hex && Lower(s)[2..] == Lower(s[2..]);
    assert HexEncode(bytes)[0] == front[0] && HexEncode(bytes)[1] == front[1];
  }

  // ----- lists -----

  function Join(parts: seq<string>, sep: char): string {
    if parts == [] then ""
    else if |parts| == 1 then parts[0]
    else parts[0] + [sep] + Join(parts[1..], sep)
  }

  /** The first field and, when a separator follows it, the rest of the fields. */
  function Split(s: string, sep: char): (parts: seq<string>)
    ensures parts != []
  {
    SplitFrom(s, sep, 0)
  }

  function SplitFrom(s: string, sep: char, at: nat): (parts: seq<string>)
    requires at <= |s|
    ensures parts != []
    decreases |s|, |s| - at
  {
    if at == |s| then [s]
    else if s[at] == sep then [s[..at]] + SplitFrom(s[at + 1..], sep, 0)
    else SplitFrom(s, sep, at + 1)
  }

  lemma {:induction false} SplitFindsField(field: string, rest: string, sep: char, at: nat)
    requires sep !in field && at <= |field|
    ensures SplitFrom(field, sep, at) == [field]
    ensures SplitFrom(field + [sep] + rest, sep, at) == [field] + Split(rest, sep)
    decreases |field| - at
  {
    var s := field + [sep] + rest;
    if at < |field| {
      assert s[at] == field[at];
      SplitFindsField(field, rest, sep, at + 1);
    } else {
      assert s[at] == sep && s[..at] == field && s[at + 1..] == rest;
    }
  }

  /** Splitting undoes joining for any non-empty list of separator-free fields. */
  lemma {:induction false} SplitOfJoin(parts: seq<string>, sep: char)
    requires parts != []
    requires forall i :: 0 <= i < |parts| ==> sep !in parts[i]
    ensures Split(Join(parts, sep), sep) == parts
  {
    if |parts| == 1 {
      SplitFindsField(parts[0], "", sep, 0);
    } else {
      SplitOfJoin(parts[1..], sep);
      SplitFindsField(parts[0], Join(parts[1..], sep), sep, 0);
      assert parts == [parts[0]] + parts[1..];
    }
  }

  function Count(s: string, c: char): nat {
    multiset(s)[c]
  }

  /** The fields hold no separator, joining them gives the text back, and there is one more of them than separators. */
  lemma SplitExact(s: string, sep: char)
    ensures Join(Split(s, sep), sep) == s
    ensures forall i :: 0 <= i < |Split(s, sep)| ==> sep !in Split(s, sep)[i]
    ensures |Split(s, sep)| == Count(s, sep) + 1
  {
    SplitFromExact(s, sep, 0);
  }

  lemma {:induction false} SplitFromExact(s: string, sep: char, at: nat)
    requires at <= |s| && sep !in s[..at]
    ensures
      var parts := SplitFrom(s, sep, at);
      && Join(parts, sep) == s && |parts| == Count(s, sep) + 1
      && forall i :: 0 <= i < |parts| ==> sep !in parts[i]
    decreases |s|, |s| - at
  {
    hide Join, Count;
    if at == |s| {
      assert s[..at] == s;
      OneField(s, sep);
    } else if s[at] == sep {
      var first, rest := s[..at], s[at + 1..];
      SplitFromExact(rest, sep, 0);
      assert s == first + [sep] + rest;
      OneMoreField(first, rest, SplitFrom(rest, sep, 0), sep);
    } else {
      assert s[..at + 1] == s[..at] + [s[at]];
      SplitFromExact(s, sep, at + 1);
    }
  }

  lemma OneField(s: string, sep: char)
    requires sep !in s
    ensures Join([s], sep) == s && Count(s, sep) == 0
  {
  }

  lemma OneMoreField(first: string, rest: string, fields: seq<string>, sep: char)
    requires fields != [] && sep !in first && Join(fields, sep) == rest && |fields| == Count(rest, sep) + 1
    ensures Join([first] + fields, sep) == first + [sep] + rest
    ensures |[first] + fields| == Count(first + [sep] + rest, sep) + 1
  {
    assert ([first] + fields)[1..] == fields;
  }

  // ----- trimming -----

  /** The characters of the Unicode White_Space property. */
  predicate IsWhiteSpace(c: char) {
    var n := c as int;
    || 0x9 <= n <= 0xD || n == 0x20 || n == 0x85 || n == 0xA0 || n == 0x1680
    || 0x2000 <= n <= 0x200A || n == 0x2028 || n == 0x2029 || n == 0x202F || n == 0x205F || n == 0x3000
  }

  function Trim(s: string): string {
    if s == "" then ""
    else if IsWhiteSpace(s[0]) then Trim(s[1..])
    else if IsWhiteSpace(s[|s| - 1]) then Trim(s[..|s| - 1])
    else s
  }

  /** The 25 code points of the property. */
  lemma WhiteSpaceTable(c: char)
    ensures IsWhiteSpace(c) <==> c as int in {
      0x9, 0xA, 0xB, 0xC, 0xD, 0x20, 0x85, 0xA0, 0x1680, 0x2000, 0x2001, 0x2002, 0x2003, 0x2004, 0x2005,
      0x2006, 0x2007, 0x2008, 0x2009, 0x200A, 0x2028, 0x2029, 0x202F, 0x205F, 0x3000}
  {
  }

  predicate AllWhite(s: string) {
    forall i :: 0 <= i < |s| ==> IsWhiteSpace(s[i])
  }

  /** Trimming takes exactly the white space off both ends. */
  lemma {:induction false} TrimExact(left: string, core: string, right: string)
    requires AllWhite(left) && AllWhite(right)
    requires core == "" || (!IsWhiteSpace(core[0]) && !IsWhiteSpace(core[|core| - 1]))
    ensures Trim(left + core + right) == core
    decreases |left| + |right|
  {
    hide IsWhiteSpace;
    var s := left + core + right;
    if left != [] {
      assert s[0] == left[0] && s[1..] == left[1..] + core + right;
      TrimExact(left[1..], core, right);
    } else if core == "" && right != [] {
      assert s[0] == right[0] && s[1..] == left + core + right[1..];
      TrimExact(left, core, right[1..]);
    } else if right != [] {
      var front := right[..|right| - 1];
      assert s[0] == core[0] && s[|s| - 1] == right[|right| - 1] && s[..|s| - 1] == left + core + front;
      TrimExact(left, core, front);
    } else {
      assert s == core;
    }
  }

  lemma {:induction false} TrimSplits(s: string) returns (left: string, right: string)
    ensures s == left + Trim(s) + right && AllWhite(left) && AllWhite(right)
    ensures Trim(s) == "" || (!IsWhiteSpace(Trim(s)[0]) && !IsWhiteSpace(Trim(s)[|Trim(s)| - 1]))
    decreases |s|
  {
    hide IsWhiteSpace;
    left, right := "", "";
    if s != "" && IsWhiteSpace(s[0]) {
      left, right := TrimSplits(s[1..]);
      assert s == [s[0]] + s[1..];
      left := [s[0]] + left;
    } else if s != "" && IsWhiteSpace(s[|s| - 1]) {
      left, right := TrimSplits(s[..|s| - 1]);
      assert s == s[..|s| - 1] + [s[|s| - 1]];
      right := right + [s[|s| - 1]];
    }
  }
}
