/** The node's hexadecimal codec. The decoder's digits come from `from_str_radix`, which takes a leading '+'. */
module Hex {
  import opened Numbers
  import opened Options

  datatype HexError = OddLength | InvalidDigit

  function DigitChar(n: nat): char
    requires n < 16
  {
    if n < 10 then ('0' as int + n) as char else ('a' as int + n - 10) as char
  }

  function DigitValue(c: char): Option<nat> {
    if '0' <= c <= '9' then Some(c as int - '0' as int)
    else if 'a' <= c <= 'f' then Some(c as int - 'a' as int + 10)
    else if 'A' <= c <= 'F' then Some(c as int - 'A' as int + 10)
    else None
  }

  function ByteText(b: u8): string { [DigitChar(b / 16), DigitChar(b % 16)] }

  function Encode(bytes: seq<u8>): string {
    if bytes == [] then "" else Encode(bytes[..|bytes| - 1]) + ByteText(bytes[|bytes| - 1])
  }

  /** Writes two lower-case digits for each byte. */
  method HexString(bytes: seq<u8>) returns (out: string)
    ensures out == Encode(bytes)
  {
    out := "";
    for i := 0 to |bytes|
      invariant out == Encode(bytes[..i])
    {
      out := out + ByteText(bytes[i]);
      assert bytes[..i + 1][..i] == bytes[..i];
    }
    assert bytes[..|bytes|] == bytes;
  }

  /** `u8::from_str_radix` on two characters. */
  function ParseByte(hi: char, lo: char): Option<u8> {
    var h, l := DigitValue(hi), DigitValue(lo);
    if l.None? then None
    else if hi == '+' then Some(l.value)
    else if h.None? then None
    else Some(16 * h.value + l.value)
  }

  function DecodePairs(s: string): Result<seq<u8>, HexError>
    requires |s| % 2 == 0
  {
    if s == "" then Ok([])
    else
      var init, last := DecodePairs(s[..|s| - 2]), ParseByte(s[|s| - 2], s[|s| - 1]);
      if init.Err? then init else if last.None? then Err(InvalidDigit) else Ok(init.value + [last.value])
  }

  function Decode(s: string): Result<seq<u8>, HexError> {
    if |s| % 2 != 0 then Err(OddLength) else DecodePairs(s)
  }

  /** The wallet's variant: 64 characters or nothing. */
  function Decode32(s: string): Option<seq<u8>> {
    if |s| != 64 then None else if DecodePairs(s).Ok? then Some(DecodePairs(s).value) else None
  }

  function LowerChar(c: char): char { if 'A' <= c <= 'Z' then (c as int + 32) as char else c }

  function Lower(s: string): string { seq(|s|, i requires 0 <= i < |s| => LowerChar(s[i])) }

  lemma DigitRoundTrip(n: nat)
    requires n < 16
    ensures DigitValue(DigitChar(n)) == Some(n) && DigitChar(n) != '+'
  {
  }

  lemma DigitReprints(c: char)
    requires DigitValue(c).Some?
    ensures DigitValue(c).value < 16 && DigitChar(DigitValue(c).value) == LowerChar(c) && c != '+'
  {
  }

  /** The digits, by value; the decoder also takes the upper-case letters. */
  lemma DigitsRead(n: nat, c: char)
    requires n < 16
    ensures DigitChar(n) == "0123456789abcdef"[n]
    ensures DigitValue(c) == Some(n) <==> c == "0123456789abcdef"[n] || c == "0123456789ABCDEF"[n]
  {
  }

  /** Byte `i` is written as its two digits, the high one first. */
  lemma {:induction false} EncodeReads(bytes: seq<u8>, i: nat)
    requires i < |bytes|
    ensures |Encode(bytes)| == 2 * |bytes|
    ensures Encode(bytes)[2 * i] == "0123456789abcdef"[bytes[i] / 16]
    ensures Encode(bytes)[2 * i + 1] == "0123456789abcdef"[bytes[i] % 16]
  {
    var n := |bytes| - 1;
    EncodeLength(bytes);
    EncodeLength(bytes[..n]);
    if i == n {
      DigitsRead(bytes[n] / 16, '0');
      DigitsRead(bytes[n] % 16, '0');
    } else {
      EncodeReads(bytes[..n], i);
    }
  }

  lemma {:induction false} EncodeLength(bytes: seq<u8>)
    ensures |Encode(bytes)| == 2 * |bytes|
  {
    if bytes == [] {
    } else {
      EncodeLength(bytes[..|bytes| - 1]);
    }
  }

  /** Decoding undoes encoding for every byte string. */
  lemma {:induction false} DecodeUndoesEncode(bytes: seq<u8>)
    ensures Decode(Encode(bytes)) == Ok(bytes)
  {
    EncodeLength(bytes);
    if bytes == [] {
    } else {
      var init, b := bytes[..|bytes| - 1], bytes[|bytes| - 1];
      DecodeUndoesEncode(init);
      EncodeLength(init);
      DigitRoundTrip(b / 16);
      DigitRoundTrip(b % 16);
      var s := Encode(bytes);
      assert s[..|s| - 2] == Encode(init);
      assert s[|s| - 2] == DigitChar(b / 16) && s[|s| - 1] == DigitChar(b % 16);
      assert bytes == init + [b];
    }
  }

  lemma {:induction false} DecodedLength(s: string)
    requires |s| % 2 == 0 && DecodePairs(s).Ok?
    ensures 2 * |DecodePairs(s).value| == |s|
  {
    if s == "" {
    } else {
      DecodedLength(s[..|s| - 2]);
    }
  }

  /** Exactly which texts decode: whole pairs, each a digit or '+' and then a digit. */
  lemma {:induction false} DecodesIff(s: string)
    requires |s| % 2 == 0
    ensures DecodePairs(s).Ok? <==> forall i :: 0 <= i < |s| / 2 ==> PairParses(s, i)
  {
    if s == "" {
    } else {
      var t, n := s[..|s| - 2], |s| / 2 - 1;
      DecodesIff(t);
      assert forall i :: 0 <= i < n ==> PairParses(s, i) == PairParses(t, i);
      assert PairParses(s, n) == ParseByte(s[|s| - 2], s[|s| - 1]).Some?;
    }
  }

  predicate PairParses(s: string, i: nat)
    requires i < |s| / 2
  {
    DigitValue(s[2 * i + 1]).Some? && (s[2 * i] == '+' || DigitValue(s[2 * i]).Some?)
  }

  /** Encoding a decoded text gives its lower-case form exactly when the text has no '+'. */
  lemma {:induction false} EncodeUndoesDecodeIff(s: string)
    requires Decode(s).Ok?
    ensures Encode(Decode(s).value) == Lower(s) <==> '+' !in s
  {
    if s == "" {
    } else {
      var n := |s| - 2;
      EncodeUndoesDecodeIff(s[..n]);
      PairReprints(s[n], s[n + 1]);
      var init, b := Decode(s[..n]).value, ParseByte(s[n], s[n + 1]).value;
      DecodedLength(s[..n]);
      AppendReprints(s, init, b);
      assert s == s[..n] + [s[n], s[n + 1]];
    }
  }

  /** A text with a '+' that decodes and reads differently when encoded again. */
  lemma PlusIsLost()
    ensures Decode("+1") == Ok([1]) && Encode([1]) == "01" && Lower("+1") == "+1"
  {
    var s := "+1";
    assert |s| == 2 && s[0] == '+' && s[1] == '1' && s[..0] == "";
    assert DecodePairs("") == Ok([]) && ParseByte('+', '1') == Some(1);
    assert DecodePairs(s) == Ok([] + [1]) && [] + [1] == [1];
    assert [1][..0] == [] && ByteText(1) == "01";
    assert Encode([1]) == Encode([1][..0]) + ByteText(1) == "" + "01" == "01";
    assert LowerChar('+') == '+' && LowerChar('1') == '1';
  }

  lemma AppendReprints(s: string, init: seq<u8>, b: u8)
    requires |s| == 2 * |init| + 2
    ensures var n := |s| - 2;
      Encode(init + [b]) == Lower(s) <==>
      Encode(init) == Lower(s[..n]) && ByteText(b) == [LowerChar(s[n]), LowerChar(s[n + 1])]
  {
    var n := |s| - 2;
    EncodeLength(init);
    EncodeLast(init, b);
    LowerLast(s);
    ConcatEq(Encode(init), ByteText(b), Lower(s[..n]), [LowerChar(s[n]), LowerChar(s[n + 1])]);
  }

  lemma LowerLast(s: string)
    requires |s| >= 2
    ensures Lower(s) == Lower(s[..|s| - 2]) + [LowerChar(s[|s| - 2]), LowerChar(s[|s| - 1])]
  {
  }

  lemma PairReprints(hi: char, lo: char)
    requires ParseByte(hi, lo).Some?
    ensures ByteText(ParseByte(hi, lo).value) == [LowerChar(hi), LowerChar(lo)] <==> hi != '+' && lo != '+'
  {
    DigitReprints(lo);
    if hi != '+' {
      DigitReprints(hi);
    } else {
      assert ByteText(ParseByte(hi, lo).value)[0] != '+';
    }
  }

  lemma EncodeLast(bytes: seq<u8>, b: u8)
    ensures Encode(bytes + [b]) == Encode(bytes) + ByteText(b)
  {
    assert (bytes + [b])[..|bytes|] == bytes;
  }

  lemma ConcatEq(a: string, b: string, c: string, d: string)
    requires |a| == |c|
    ensures a + b == c + d <==> a == c && b == d
  {
    if a + b == c + d {
      assert a == (a + b)[..|a|] && c == (c + d)[..|c|];
      assert b == (a + b)[|a|..] && d == (c + d)[|c|..];
    }
  }

  /** The 32-byte variant accepts exactly the texts the other decodes to 32 bytes, and agrees on them. */
  lemma Decode32Iff(s: string, b: seq<u8>)
    ensures Decode32(s) == Some(b) <==> |b| == 32 && Decode(s) == Ok(b)
  {
    if Decode(s).Ok? { DecodedLength(s); }
  }
}
