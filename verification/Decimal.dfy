/** Decimal text of unsigned integers, as the standard formatter prints it and `str::parse::<u64>` reads it. */
module Decimal {
  import opened Numbers
  import opened Options

  function DigitChar(n: nat): char
    requires n < 10
  {
    ('0' as int + n) as char
  }

  function Text(n: nat): string {
    if n < 10 then [DigitChar(n)] else Text(n / 10) + [DigitChar(n % 10)]
  }

  predicate IsDigit(c: char) { '0' <= c <= '9' }

  predicate IsDigits(s: string) { s != "" && forall c :: c in s ==> IsDigit(c) }

  function Value(s: string): nat
    requires forall c :: c in s ==> IsDigit(c)
  {
    if s == "" then 0
    else
      assert IsDigit(s[|s| - 1]);
      10 * Value(s[..|s| - 1]) + (s[|s| - 1] as int - '0' as int)
  }

  /** An optional '+', then digits, leading zeros allowed, within 64 bits. */
  function ParseU64(s: string): Option<u64> {
    var body := if s != "" && s[0] == '+' then s[1..] else s;
    if !IsDigits(body) then None
    else if Value(body) < TWO_64 then Some(Value(body))
    else None
  }

  /** Digits without leading zeros. */
  predicate IsCanonical(s: string) { IsDigits(s) && (|s| > 1 ==> s[0] != '0') }

  lemma {:induction false} TextIsCanonical(n: nat)
    ensures IsCanonical(Text(n)) && Value(Text(n)) == n && (n > 0 ==> Text(n)[0] != '0')
  {
    if n >= 10 {
      TextIsCanonical(n / 10);
      assert Text(n)[..|Text(n)| - 1] == Text(n / 10);
      assert Text(n)[0] == Text(n / 10)[0];
    }
  }

  lemma {:induction false} CanonicalIsText(s: string)
    requires IsCanonical(s)
    ensures Text(Value(s)) == s && (Value(s) == 0 ==> s == "0")
  {
    var init, last := s[..|s| - 1], s[|s| - 1];
    assert s == init + [last] && IsDigit(last);
    if init == "" {
      assert Value(s) == last as int - '0' as int;
    } else {
      assert init[0] == s[0];
      CanonicalIsText(init);
      var d := last as int - '0' as int;
      assert Value(s) == 10 * Value(init) + d && Value(s) / 10 == Value(init) && Value(s) % 10 == d;
    }
  }

  /** A text of digits is what its value prints as exactly when it has no leading zero. */
  lemma ReprintsIff(s: string)
    requires IsDigits(s)
    ensures Text(Value(s)) == s <==> IsCanonical(s)
  {
    TextIsCanonical(Value(s));
    if IsCanonical(s) { CanonicalIsText(s); }
  }

  /** How digits are valued, and what is read: digits within 64 bits, a '+' before them ignored. */
  lemma ParseReads(s: string, c: char)
    requires IsDigits(s) && '0' <= c <= '9'
    ensures Value(s + [c]) == 10 * Value(s) + (c as int - 48) && Value([c]) == c as int - 48
    ensures ParseU64(s) == ParseU64("+" + s) == if Value(s) < 0x1_0000_0000_0000_0000 then Some(Value(s)) else None
  {
    ValueGrows(s, c);
    ValueGrows("", c);
    assert "" + [c] == [c];
    PlusIsIgnored(s);
  }

  lemma ValueGrows(s: string, c: char)
    requires (forall d :: d in s ==> IsDigit(d)) && IsDigit(c)
    ensures Value(s + [c]) == 10 * Value(s) + (c as int - 48)
  {
    assert (s + [c])[..|s|] == s;
  }

  lemma PlusIsIgnored(s: string)
    requires IsDigits(s)
    ensures ParseU64(s) == ParseU64("+" + s)
  {
    assert ("+" + s)[1..] == s && ("+" + s)[0] == '+';
    assert IsDigit(s[0]);
  }

  /** Nothing else is read. */
  lemma OthersDoNotParse(s: string)
    ensures ParseU64(s).Some? ==>
              var body := if s != "" && s[0] == '+' then s[1..] else s;
              body != "" && forall i :: 0 <= i < |body| ==> '0' <= body[i] <= '9'
  {
    var body := if s != "" && s[0] == '+' then s[1..] else s;
    if IsDigits(body) {
      forall i | 0 <= i < |body| ensures '0' <= body[i] <= '9' { assert IsDigit(body[i]); }
    }
  }

  lemma ParseUndoesText(n: u64)
    ensures ParseU64(Text(n)) == Some(n)
  {
    TextIsCanonical(n);
    assert IsDigit(Text(n)[0]);
  }
}
