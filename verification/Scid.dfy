/**
 Short channel ids: 24 bits of block, 24 of transaction index and 16 of output
 index, printed as three decimals around 'x' (BOLT #7, section "Definition of
 short_channel_id").
 */
module Scid {
  import opened Numbers
  import opened Options
  import opened Decimal

  // ---------- text in three parts ----------

  function Split(s: string, sep: char): (parts: seq<string>)
    ensures |parts| > 0
  {
    if s == "" then [""]
    else
      var n, parts := |s| - 1, Split(s[..|s| - 1], sep);
      if s[n] == sep then parts + [""]
      else parts[..|parts| - 1] + [parts[|parts| - 1] + [s[n]]]
  }

  function Join(parts: seq<string>, sep: char): string
    requires |parts| > 0
  {
    var n := |parts| - 1;
    if n == 0 then parts[0] else Join(parts[..n], sep) + [sep] + parts[n]
  }

  /** The parts with `t` added to the last one. */
  function Lengthen(parts: seq<string>, t: string): (r: seq<string>)
    requires |parts| > 0
    ensures |r| == |parts|
  {
    parts[..|parts| - 1] + [parts[|parts| - 1] + t]
  }

  lemma LengthenTwice(parts: seq<string>, t: string, u: string)
    requires |parts| > 0
    ensures Lengthen(Lengthen(parts, t), u) == Lengthen(parts, t + u)
  {
    var n := |parts| - 1;
    assert Lengthen(parts, t)[..n] == parts[..n];
    assert (parts[n] + t) + u == parts[n] + (t + u);
  }

  lemma SplitOne(s: string, c: char, sep: char)
    ensures Split(s + [c], sep) == if c == sep then Split(s, sep) + [""] else Lengthen(Split(s, sep), [c])
  {
    assert (s + [c])[..|s|] == s;
  }

  lemma OffByOne(s: string, u: string, c: char)
    ensures s + (u + [c]) == (s + u) + [c]
  {
  }

  lemma {:induction false} SplitAppend(s: string, t: string, sep: char)
    requires sep !in t
    ensures Split(s + t, sep) == Lengthen(Split(s, sep), t)
  {
    if t == "" {
      NothingAdded(Split(s, sep));
      assert s + t == s;
    } else {
      var u, c := t[..|t| - 1], t[|t| - 1];
      assert t == u + [c];
      SplitAppend(s, u, sep);
      SplitOne(s + u, c, sep);
      LengthenTwice(Split(s, sep), u, [c]);
      OffByOne(s, u, c);
    }
  }

  lemma NothingAdded(parts: seq<string>)
    requires |parts| > 0
    ensures Lengthen(parts, "") == parts
  {
    assert parts[|parts| - 1] + "" == parts[|parts| - 1];
  }

  lemma SplitAfterSeparator(s: string, t: string, sep: char)
    requires sep !in t
    ensures Split(s + [sep] + t, sep) == Split(s, sep) + [t]
  {
    SplitOne(s, sep, sep);
    SplitAppend(s + [sep], t, sep);
    var p := Split(s, sep);
    assert (p + [""])[..|p|] == p && "" + t == t;
  }

  lemma SplitThree(a: string, b: string, c: string, sep: char)
    requires sep !in a && sep !in b && sep !in c
    ensures Split(a + [sep] + b + [sep] + c, sep) == [a, b, c]
  {
    SplitAppend("", a, sep);
    assert "" + a == a;
    SplitAfterSeparator(a, b, sep);
    SplitAfterSeparator(a + [sep] + b, c, sep);
  }

  lemma JoinMore(parts: seq<string>, t: string, sep: char)
    requires |parts| > 0
    ensures Join(parts + [t], sep) == Join(parts, sep) + [sep] + t
  {
    assert (parts + [t])[..|parts|] == parts;
  }

  lemma JoinLonger(parts: seq<string>, c: char, sep: char)
    requires |parts| > 0
    ensures Join(parts[..|parts| - 1] + [parts[|parts| - 1] + [c]], sep) == Join(parts, sep) + [c]
  {
    var n := |parts| - 1;
    assert parts == parts[..n] + [parts[n]];
    if n > 0 {
      JoinMore(parts[..n], parts[n], sep);
      JoinMore(parts[..n], parts[n] + [c], sep);
    }
  }

  lemma {:induction false} JoinUndoesSplit(s: string, sep: char)
    ensures Join(Split(s, sep), sep) == s
  {
    if s == "" {
    } else {
      var init, c := s[..|s| - 1], s[|s| - 1];
      JoinUndoesSplit(init, sep);
      assert s == init + [c];
      if c == sep { JoinMore(Split(init, sep), "", sep); } else { JoinLonger(Split(init, sep), c, sep); }
    }
  }

  // ---------- bits ----------

  function Pow2(k: nat): nat { if k == 0 then 1 else 2 * Pow2(k - 1) }

  /** Bitwise or. */
  function Or(a: nat, b: nat): nat {
    if a == 0 && b == 0 then 0 else 2 * Or(a / 2, b / 2) + (if a % 2 == 1 || b % 2 == 1 then 1 else 0)
  }

  lemma {:induction false} OrZero(a: nat)
    ensures Or(a, 0) == a
  {
    if a == 0 {
    } else {
      OrZero(a / 2);
    }
  }

  /** Or of a number shifted left and one that fits below it is their sum. */
  lemma {:induction false} OrIsSum(a: nat, b: nat, k: nat)
    requires b < Pow2(k)
    ensures Or(a * Pow2(k), b) == a * Pow2(k) + b
  {
    if k == 0 {
      OrZero(a);
    } else {
      var h := a * Pow2(k - 1);
      assert a * Pow2(k) == 2 * h;
      OrIsSum(a, b / 2, k - 1);
      assert (2 * h) / 2 == h && (2 * h) % 2 == 0;
    }
  }

  lemma {:induction false} OrFits(a: nat, b: nat, k: nat)
    requires a < Pow2(k) && b < Pow2(k)
    ensures Or(a, b) < Pow2(k)
  {
    if k == 0 {
    } else {
      OrFits(a / 2, b / 2, k - 1);
    }
  }

  lemma Double(a: nat, b: nat)
    ensures (2 * a) * b == 2 * (a * b)
  {
  }

  lemma {:induction false} Pow2Sum(j: nat, k: nat)
    ensures Pow2(j + k) == Pow2(j) * Pow2(k)
  {
    if j == 0 {
    } else {
      Pow2Sum(j - 1, k);
      Double(Pow2(j - 1), Pow2(k));
      assert Pow2(j + k) == 2 * Pow2(j - 1 + k);
    }
  }

  lemma PowersOfTwo()
    ensures Pow2(16) == TWO_16 && Pow2(40) == TWO_40 && Pow2(64) == TWO_64
  {
    assert Pow2(2) == 4 && Pow2(4) == 4 * Pow2(2);
    Pow2Sum(4, 4);
    Pow2Sum(8, 8);
    Pow2Sum(8, 16);
    Pow2Sum(16, 24);
    Pow2Sum(24, 40);
  }

  // ---------- the printer and the parser ----------

  function Format(scid: u64): string {
    var block := scid / TWO_40;
    var tx := (scid / TWO_16) % TWO_24;
    var vout := scid % TWO_16;
    Text(block) + "x" + Text(tx) + "x" + Text(vout)
  }

  /** Shifts lose what leaves the 64 bits; parts out of range may overlap. */
  function Parse(s: string): Option<u64> {
    var parts := Split(s, 'x');
    if |parts| != 3 then None
    else
      var block, tx, vout := ParseU64(parts[0]), ParseU64(parts[1]), ParseU64(parts[2]);
      if block.None? || tx.None? || vout.None? then None
      else
        PowersOfTwo();
        OrFits(Wrap64(block.value * TWO_40), Wrap64(tx.value * TWO_16), 64);
        OrFits(Or(Wrap64(block.value * TWO_40), Wrap64(tx.value * TWO_16)), vout.value, 64);
        Some(Or(Or(Wrap64(block.value * TWO_40), Wrap64(tx.value * TWO_16)), vout.value))
  }

  function Pack(block: nat, tx: nat, vout: nat): nat { block * TWO_40 + tx * TWO_16 + vout }

  predicate InRange(block: nat, tx: nat, vout: nat) { block < TWO_24 && tx < TWO_24 && vout < TWO_16 }

  /** Whether bit `k` of a number is set. */
  function Bit(a: nat, k: nat): bool { if k == 0 then a % 2 == 1 else Bit(a / 2, k - 1) }

  lemma {:induction false} OrBits(a: nat, b: nat, k: nat)
    ensures Bit(Or(a, b), k) <==> Bit(a, k) || Bit(b, k)
  {
    OrHalves(a, b);
    if k == 0 {
    } else {
      OrBits(a / 2, b / 2, k - 1);
    }
  }

  lemma OrHalves(a: nat, b: nat)
    ensures Or(a, b) / 2 == Or(a / 2, b / 2)
    ensures Or(a, b) % 2 == 1 <==> a % 2 == 1 || b % 2 == 1
  {
  }

  /**
   Any three decimals of 64 bits parse, in range or not: a bit of the id is set
   where it is in one of the parts, shifted by 40, by 16 and not at all.
   */
  lemma ParseReads(a: string, b: string, c: string, k: nat)
    requires 'x' !in a && 'x' !in b && 'x' !in c
    requires ParseU64(a).Some? && ParseU64(b).Some? && ParseU64(c).Some?
    ensures var id := Parse(a + "x" + b + "x" + c);
      && id.Some?
      && (Bit(id.value, k) <==>
            || Bit(ParseU64(a).value * 0x100_0000_0000 % 0x1_0000_0000_0000_0000, k)
            || Bit(ParseU64(b).value * 0x1_0000 % 0x1_0000_0000_0000_0000, k)
            || Bit(ParseU64(c).value, k))
  {
    SplitThree(a, b, c, 'x');
    var x, y := Wrap64(ParseU64(a).value * TWO_40), Wrap64(ParseU64(b).value * TWO_16);
    OrBits(Or(x, y), ParseU64(c).value, k);
    OrBits(x, y, k);
  }

  /** Nothing but three parts that parse does. */
  lemma OthersDoNotParse(s: string)
    ensures Parse(s).Some? <==>
            |Split(s, 'x')| == 3 && forall i :: 0 <= i < 3 ==> ParseU64(Split(s, 'x')[i]).Some?
  {
  }

  lemma ShiftsFit(block: nat, tx: nat)
    requires block < TWO_24 && tx < TWO_24
    ensures Wrap64(block * TWO_40) == block * TWO_40 && Wrap64(tx * TWO_16) == tx * TWO_16 < TWO_40
    ensures block * TWO_40 + tx * TWO_16 == (block * TWO_24 + tx) * TWO_16
  {
  }

  lemma OrPacks(block: nat, tx: nat, vout: nat)
    requires InRange(block, tx, vout)
    ensures Or(Or(Wrap64(block * TWO_40), Wrap64(tx * TWO_16)), vout) == Pack(block, tx, vout)
  {
    PowersOfTwo();
    ShiftsFit(block, tx);
    OrIsSum(block, tx * TWO_16, 40);
    OrIsSum(block * TWO_24 + tx, vout, 16);
  }

  /** Block, transaction and output of an id are printed in this order. */
  lemma FormatPacked(block: nat, tx: nat, vout: nat)
    requires block < 0x100_0000 && tx < 0x100_0000 && vout < 0x1_0000
    ensures Pack(block, tx, vout) == block * 0x100_0000_0000 + tx * 0x1_0000 + vout < TWO_64
    ensures Format(Pack(block, tx, vout)) == Text(block) + "x" + Text(tx) + "x" + Text(vout)
  {
    Fields(block, tx, vout);
  }

  lemma Fields(block: nat, tx: nat, vout: nat)
    requires InRange(block, tx, vout)
    ensures var scid := Pack(block, tx, vout);
      scid < TWO_64 && scid / TWO_40 == block && (scid / TWO_16) % TWO_24 == tx && scid % TWO_16 == vout
  {
    var scid := Pack(block, tx, vout);
    assert scid / TWO_16 == block * TWO_24 + tx;
  }

  lemma Unpack(scid: u64) returns (block: nat, tx: nat, vout: nat)
    ensures InRange(block, tx, vout) && scid == Pack(block, tx, vout)
    ensures Format(scid) == Text(block) + "x" + Text(tx) + "x" + Text(vout)
  {
    block, tx, vout := scid / TWO_40, (scid / TWO_16) % TWO_24, scid % TWO_16;
    assert scid / TWO_16 == block * TWO_24 + tx;
  }

  lemma FormatSplits(block: nat, tx: nat, vout: nat)
    ensures Split(Text(block) + "x" + Text(tx) + "x" + Text(vout), 'x') == [Text(block), Text(tx), Text(vout)]
  {
    TextIsCanonical(block);
    TextIsCanonical(tx);
    TextIsCanonical(vout);
    SplitThree(Text(block), Text(tx), Text(vout), 'x');
  }

  /** Parsing undoes printing for every 64-bit id. */
  lemma ParseUndoesFormat(scid: u64)
    ensures Parse(Format(scid)) == Some(scid)
  {
    var block, tx, vout := Unpack(scid);
    FormatSplits(block, tx, vout);
    ParseUndoesText(block);
    ParseUndoesText(tx);
    ParseUndoesText(vout);
    OrPacks(block, tx, vout);
  }

  /** Three decimals without leading zeros or signs, each within its field. */
  predicate IsCanonicalScid(s: string) {
    var parts := Split(s, 'x');
    && |parts| == 3
    && IsCanonical(parts[0]) && IsCanonical(parts[1]) && IsCanonical(parts[2])
    && InRange(Value(parts[0]), Value(parts[1]), Value(parts[2]))
  }

  /** A parsed text prints back unchanged exactly when it is canonical. */
  lemma FormatUndoesParseIff(s: string)
    requires Parse(s).Some?
    ensures Format(Parse(s).value) == s <==> IsCanonicalScid(s)
  {
    if IsCanonicalScid(s) {
      CanonicalReprints(s);
    } else if Format(Parse(s).value) == s {
      var block, tx, vout := Unpack(Parse(s).value);
      FormatSplits(block, tx, vout);
      TextIsCanonical(block);
      TextIsCanonical(tx);
      TextIsCanonical(vout);
    }
  }

  lemma CanonicalPart(part: string)
    requires IsCanonical(part) && Value(part) < TWO_64
    ensures Text(Value(part)) == part && ParseU64(part) == Some(Value(part))
  {
    CanonicalIsText(part);
    ParseUndoesText(Value(part));
  }

  lemma CanonicalReprints(s: string)
    requires IsCanonicalScid(s)
    ensures Parse(s).Some? && Format(Parse(s).value) == s
  {
    var parts := Split(s, 'x');
    var block, tx, vout := Value(parts[0]), Value(parts[1]), Value(parts[2]);
    CanonicalPart(parts[0]);
    CanonicalPart(parts[1]);
    CanonicalPart(parts[2]);
    OrPacks(block, tx, vout);
    FormatPacked(block, tx, vout);
    PartsJoin(s);
  }

  lemma PartsJoin(s: string)
    requires |Split(s, 'x')| == 3
    ensures var p := Split(s, 'x'); s == p[0] + "x" + p[1] + "x" + p[2]
  {
    var p := Split(s, 'x');
    JoinUndoesSplit(s, 'x');
    JoinThree(p[0], p[1], p[2]);
    assert p == [p[0], p[1], p[2]];
  }

  lemma JoinThree(a: string, b: string, c: string)
    ensures Join([a, b, c], 'x') == a + "x" + b + "x" + c
  {
    assert [a, b, c][..2] == [a, b] && [a, b][..1] == [a];
    assert Join([a, b], 'x') == a + "x" + b;
  }

  /** An id with a leading zero is read, and prints without it. */
  lemma LeadingZeroIsLost()
    ensures Parse("01x0x0") == Some(TWO_40) && Format(TWO_40) == "1x0x0"
  {
    assert "01" + "x" + "0" + "x" + "0" == "01x0x0";
    SplitThree("01", "0", "0", 'x');
    NoughtAndOne();
    OrPacks(1, 0, 0);
    FormatPacked(1, 0, 0);
    assert "1" + "x" + "0" + "x" + "0" == "1x0x0";
  }

  lemma NoughtAndOne()
    ensures ParseU64("01") == Some(1) && ParseU64("0") == Some(0) && Text(1) == "1" && Text(0) == "0"
  {
    assert "0"[..0] == "" && "01"[..1] == "0";
    assert Value("") == 0;
    assert Value("0") == 0;
    assert Value("01") == 1;
  }

  /** Two ids that print alike are the same. */
  lemma FormatInjective(a: u64, b: u64)
    requires Format(a) == Format(b)
    ensures a == b
  {
    ParseUndoesFormat(a);
    ParseUndoesFormat(b);
  }

  /** Ids are ordered as their triples are: by block, then transaction, then output. */
  lemma PackKeepsOrder(b1: nat, t1: nat, v1: nat, b2: nat, t2: nat, v2: nat)
    requires InRange(b1, t1, v1) && InRange(b2, t2, v2)
    ensures Pack(b1, t1, v1) < Pack(b2, t2, v2) <==>
            b1 < b2 || (b1 == b2 && (t1 < t2 || (t1 == t2 && v1 < v2)))
  {
    if b1 < b2 {
      assert (b2 - b1) * TWO_40 >= TWO_40;
    } else if b2 < b1 {
      assert (b1 - b2) * TWO_40 >= TWO_40;
    } else if t1 < t2 {
      assert (t2 - t1) * TWO_16 >= TWO_16;
    } else if t2 < t1 {
      assert (t1 - t2) * TWO_16 >= TWO_16;
    }
  }
}
