/** The hex and UUID codecs of `ble_proto.c`. */
module BleUuid {
  import opened Esp

  /** -1 for anything but a hex digit of either case. */
  function HexVal(c: char): int {
    if '0' <= c <= '9' then c as int - '0' as int
    else if 'a' <= c <= 'f' then c as int - 'a' as int + 10
    else if 'A' <= c <= 'F' then c as int - 'A' as int + 10
    else -1
  }

  predicate IsHex(c: char) {
    HexVal(c) >= 0
  }

  type nibble = x: int | 0 <= x < 16

  function Digit(v: nibble, upper: bool): char {
    if v < 10 then '0' + v as char else if upper then 'A' + (v - 10) as char else 'a' + (v - 10) as char
  }

  function Hi(b: byte): nibble { var i: int := b; i / 16 }
  function Lo(b: byte): nibble { var i: int := b; i % 16 }

  lemma {:induction false} DigitRoundTrip(v: nibble, upper: bool)
    ensures HexVal(Digit(v, upper)) == v && Digit(v, upper) != '-'
  {
  }

  lemma {:induction false} ValueRoundTrip(c: char)
    requires IsHex(c)
    ensures HexVal(c) < 16 && Digit(HexVal(c), false) == Lower(c) && c != '-'
  {
  }

  /** The digits in order; a character of neither case of them has no value. */
  lemma {:induction false} DigitsAre(v: nibble, c: char)
    ensures Digit(v, false) == "0123456789abcdef"[v] && Digit(v, true) == "0123456789ABCDEF"[v]
    ensures IsHex(c) <==> c in "0123456789abcdef" || c in "0123456789ABCDEF"
  {
    DigitOf(v);
    if IsHex(c) {
      ValueRoundTrip(c);
      DigitOf(HexVal(c));
    }
  }

  lemma {:induction false} DigitOf(v: nibble)
    ensures Digit(v, false) == "0123456789abcdef"[v] && Digit(v, true) == "0123456789ABCDEF"[v]
    ensures Digit(v, false) in "0123456789abcdef" && Digit(v, true) in "0123456789ABCDEF"
  {
  }

  /** The byte two hex characters spell. */
  function PairAt(s: string, i: nat): byte
    requires i + 1 < |s| && IsHex(s[i]) && IsHex(s[i + 1])
  {
    ValueRoundTrip(s[i]);
    ValueRoundTrip(s[i + 1]);
    HexVal(s[i]) * 16 + HexVal(s[i + 1])
  }

  // ------------------------------------------------------------------------ plain hex

  predicate AllHex(s: string) {
    forall i :: 0 <= i < |s| ==> IsHex(s[i])
  }

  function HexBytes(s: string): (r: seq<byte>)
    requires AllHex(s) && |s| % 2 == 0
    ensures |r| == |s| / 2 && forall k :: 0 <= k < |r| ==> r[k] == PairAt(s, 2 * k)
  {
    seq(|s| / 2, k requires 0 <= k < |s| / 2 => PairAt(s, 2 * k))
  }

  function HexChar(x: seq<byte>, upper: bool, i: nat): char
    requires i < 2 * |x|
  {
    if i % 2 == 0 then Digit(Hi(x[i / 2]), upper) else Digit(Lo(x[i / 2]), upper)
  }

  function HexText(x: seq<byte>, upper: bool): (r: string)
    ensures |r| == 2 * |x| && forall i :: 0 <= i < 2 * |x| ==> r[i] == HexChar(x, upper, i)
  {
    seq(2 * |x|, i requires 0 <= i < 2 * |x| => HexChar(x, upper, i))
  }

  lemma {:induction false} HexTextIsHex(x: seq<byte>, upper: bool)
    ensures AllHex(HexText(x, upper)) && |HexText(x, upper)| % 2 == 0
  {
    var t := HexText(x, upper);
    forall i | 0 <= i < |t| ensures IsHex(t[i]) {
      var k := i / 2;
      DigitRoundTrip(Hi(x[k]), upper);
      DigitRoundTrip(Lo(x[k]), upper);
      assert i == 2 * k || i == 2 * k + 1;
    }
  }

  /** Either case decodes back to the bytes it was made from. */
  lemma {:induction false} HexDecodeOfEncode(x: seq<byte>, upper: bool)
    ensures AllHex(HexText(x, upper)) && |HexText(x, upper)| % 2 == 0
    ensures HexBytes(HexText(x, upper)) == x
  {
    hide Digit, HexVal, AllHex;
    HexTextIsHex(x, upper);
    var t := HexText(x, upper);
    forall k | 0 <= k < |x| ensures HexBytes(t)[k] == x[k] {
      assert t[2 * k] == Digit(Hi(x[k]), upper) && t[2 * k + 1] == Digit(Lo(x[k]), upper);
      DigitRoundTrip(Hi(x[k]), upper);
      DigitRoundTrip(Lo(x[k]), upper);
    }
  }

  /** High digit first, out of the digits of the case asked for. */
  lemma {:induction false} HexTextIs(x: seq<byte>, upper: bool, k: nat)
    requires k < |x|
    ensures var digits, b: int := if upper then "0123456789ABCDEF" else "0123456789abcdef", x[k];
      HexText(x, upper)[2 * k] == digits[b / 16] && HexText(x, upper)[2 * k + 1] == digits[b % 16]
  {
    hide Digit;
    DigitsAre(Hi(x[k]), '0');
    DigitsAre(Lo(x[k]), '0');
  }

  /** Two digits a byte and a terminator, in a caller's buffer. */
  method HexEncode(x: seq<byte>, upper: bool, out: array<char>)
    requires 2 * |x| < out.Length
    modifies out
    ensures out[..2 * |x|] == HexText(x, upper) && out[2 * |x|] == '\0'
    ensures out[2 * |x| + 1..] == old(out[2 * |x| + 1..])
  {
    hide Digit, Hi, Lo;
    var i := 0;
    while i < |x|
      invariant 0 <= i <= |x|
      invariant forall j :: 0 <= j < 2 * i ==> out[j] == HexChar(x, upper, j)
      invariant forall j :: 2 * |x| < j < out.Length ==> out[j] == old(out[j])
    {
      out[i * 2] := Digit(Hi(x[i]), upper);
      out[i * 2 + 1] := Digit(Lo(x[i]), upper);
      i := i + 1;
    }
    out[2 * |x|] := '\0';
  }

  /** -1 for an odd length, a foreign character or a buffer too small; else the byte count. */
  method HexDecode(s: string, out: array<byte>) returns (n: int)
    modifies out
    ensures n >= 0 <==> AllHex(s) && |s| % 2 == 0 && |s| / 2 <= out.Length
    ensures n < 0 ==> n == -1
    ensures n >= 0 ==> n <= out.Length && out[..n] == HexBytes(s)
  {
    if |s| % 2 != 0 { return -1; }
    var bytes := |s| / 2;
    if bytes > out.Length { return -1; }
    var i := 0;
    while i < bytes
      invariant 0 <= i <= bytes
      invariant forall j :: 0 <= j < 2 * i ==> IsHex(s[j])
      invariant forall k :: 0 <= k < i ==> out[k] == PairAt(s, 2 * k)
    {
      var hi, lo := HexVal(s[i * 2]), HexVal(s[i * 2 + 1]);
      if hi < 0 || lo < 0 { return -1; }
      out[i] := PairAt(s, 2 * i);
      i := i + 1;
    }
    return bytes;
  }

  // ---------------------------------------------------------------------------- UUIDs

  /** The Bluetooth base UUID beyond its first four bytes
      (Bluetooth Core Specification Vol 3, Part B, section 2.5.1). */
  const BASE_TAIL: seq<byte> := [0, 0, 0x10, 0, 0x80, 0, 0, 0x80, 0x5f, 0x9b, 0x34, 0xfb]

  type Uuid = u: seq<byte> | |u| == 16 witness [0, 0, 0, 0] + [0, 0, 0x10, 0, 0x80, 0, 0, 0x80, 0x5f, 0x9b, 0x34, 0xfb]

  datatype Parsed = Rejected | Parsed(uuid: Uuid, bits: nat)

  predicate IsDashAt(i: nat) {
    i == 8 || i == 13 || i == 18 || i == 23
  }

  /** Dashes before position `i` of the long form. */
  function DashesBefore(i: nat): nat {
    if i <= 8 then 0 else if i <= 13 then 1 else if i <= 18 then 2 else if i <= 23 then 3 else 4
  }

  /** Where the digits of byte `k` stand in the long form. */
  function PairPos(k: nat): nat {
    2 * k + (if k < 4 then 0 else if k < 6 then 1 else if k < 8 then 2 else if k < 10 then 3 else 4)
  }

  /** Dashes at exactly 8, 13, 18 and 23, hex digits everywhere else. */
  predicate IsLong(s: string) {
    |s| == 36 && forall i :: 0 <= i < 36 ==> if IsDashAt(i) then s[i] == '-' else IsHex(s[i])
  }

  lemma {:induction false} PairIsHex(s: string, k: nat)
    requires IsLong(s) && k < 16
    ensures PairPos(k) + 1 < 36 && IsHex(s[PairPos(k)]) && IsHex(s[PairPos(k) + 1])
  {
  }

  function LongBytes(s: string): Uuid
    requires IsLong(s)
  {
    seq(16, k requires 0 <= k < 16 => PairIsHex(s, k); PairAt(s, PairPos(k)))
  }

  /** What a UUID text means: the short forms are offsets into the base UUID. */
  function Parse(s: string): Parsed {
    if |s| == 4 && AllHex(s) then Parsed([0, 0, PairAt(s, 0), PairAt(s, 2)] + BASE_TAIL, 16)
    else if |s| == 8 && AllHex(s) then
      Parsed([PairAt(s, 0), PairAt(s, 2), PairAt(s, 4), PairAt(s, 6)] + BASE_TAIL, 32)
    else if IsLong(s) then Parsed(LongBytes(s), 128)
    else Rejected
  }

  function LongChar(u: Uuid, i: nat): char
    requires i < 36
  {
    if IsDashAt(i) then '-' else
      var j := i - DashesBefore(i);
      if j % 2 == 0 then Digit(Hi(u[j / 2]), false) else Digit(Lo(u[j / 2]), false)
  }

  /** The short forms stand for UUIDs built on the Bluetooth base; any other is written in full. */
  function Format(u: Uuid, bits: nat): string {
    if u[4..] == BASE_TAIL && bits == 16 && u[0] == 0 && u[1] == 0 then HexText(u[2..4], false)
    else if u[4..] == BASE_TAIL && bits == 32 then HexText(u[..4], false)
    else seq(36, i requires 0 <= i < 36 => LongChar(u, i))
  }

  /** Five groups of hex digits as the long form writes them. */
  function Dashed(a: string, b: string, c: string, d: string, e: string): string {
    a + "-" + b + "-" + c + "-" + d + "-" + e
  }

  /** The long form means the bytes its digits spell in order, the dashes left out. */
  lemma {:induction false} LongFormIsItsDigits(a: string, b: string, c: string, d: string, e: string)
    requires |a| == 8 && |b| == 4 && |c| == 4 && |d| == 4 && |e| == 12 && AllHex(a + b + c + d + e)
    ensures Parse(Dashed(a, b, c, d, e)) == Parsed(HexBytes(a + b + c + d + e), 128)
  {
    hide IsHex;
    var s, t := Dashed(a, b, c, d, e), a + b + c + d + e;
    assert |s| == 36 && |t| == 32;
    forall i: nat | i < 36 ensures if IsDashAt(i) then s[i] == '-' else s[i] == t[i - DashesBefore(i)] {
    }
    assert IsLong(s);
    forall k: nat | k < 16 ensures LongBytes(s)[k] == PairAt(t, 2 * k) {
      assert s[PairPos(k)] == t[2 * k] && s[PairPos(k) + 1] == t[2 * k + 1];
    }
  }

  lemma {:induction false} HexBytesJoin(a: string, b: string)
    requires AllHex(a) && AllHex(b) && |a| % 2 == 0 && |b| % 2 == 0
    ensures AllHex(a + b) && HexBytes(a + b) == HexBytes(a) + HexBytes(b)
  {
    hide HexVal;
    var s := a + b;
    assert AllHex(s);
    forall k | 0 <= k < |s| / 2 ensures HexBytes(s)[k] == (HexBytes(a) + HexBytes(b))[k] {
      if 2 * k < |a| { assert 2 * k + 1 < |a|; }
      else { assert s[2 * k] == b[2 * k - |a|] && s[2 * k + 1] == b[2 * (k - |a| / 2) + 1]; }
    }
  }

  lemma {:induction false} BaseDigits()
    ensures AllHex("00001000") && HexBytes("00001000") == [0, 0, 0x10, 0]
    ensures AllHex("80000080") && HexBytes("80000080") == [0x80, 0, 0, 0x80]
    ensures AllHex("5f9b34fb") && HexBytes("5f9b34fb") == [0x5f, 0x9b, 0x34, 0xfb]
    ensures AllHex("0000") && HexBytes("0000") == [0, 0]
  {
  }

  lemma {:induction false} OnBase(a: string)
    requires AllHex(a) && |a| == 8
    ensures Parse(Dashed(a, "0000", "1000", "8000", "00805f9b34fb")) == Parsed(HexBytes(a) + BASE_TAIL, 128)
  {
    hide AllHex, HexBytes, Parse, Dashed;
    BaseDigits();
    var p, q, r := "00001000", "80000080", "5f9b34fb";
    HexBytesJoin(a, p);
    HexBytesJoin(a + p, q);
    HexBytesJoin(a + p + q, r);
    assert a + "0000" + "1000" + "8000" + "00805f9b34fb" == a + p + q + r;
    LongFormIsItsDigits(a, "0000", "1000", "8000", "00805f9b34fb");
    assert HexBytes(a) + [0, 0, 0x10, 0] + [0x80, 0, 0, 0x80] + [0x5f, 0x9b, 0x34, 0xfb] == HexBytes(a) + BASE_TAIL;
  }

  /** A short form means the long form with its digits in front of the Bluetooth base. */
  lemma {:induction false} ShortFormIsOnBase(s: string)
    requires AllHex(s) && (|s| == 4 || |s| == 8)
    ensures Parse(s).Parsed? && Parse(s).bits == 4 * |s|
    ensures Parse(Dashed(if |s| == 4 then "0000" + s else s, "0000", "1000", "8000", "00805f9b34fb")) == Parsed(Parse(s).uuid, 128)
  {
    hide HexVal, PairAt, Dashed;
    if |s| == 4 {
      BaseDigits();
      HexBytesJoin("0000", s);
      OnBase("0000" + s);
      assert HexBytes(s) == [PairAt(s, 0), PairAt(s, 2)];
    } else {
      OnBase(s);
      assert HexBytes(s) == [PairAt(s, 0), PairAt(s, 2), PairAt(s, 4), PairAt(s, 6)];
    }
  }

  /** Nothing else is accepted. */
  lemma {:induction false} ParsedIff(s: string)
    ensures Parse(s).Parsed? <==>
      || (AllHex(s) && (|s| == 4 || |s| == 8))
      || (|s| == 36 && s == Dashed(s[..8], s[9..13], s[14..18], s[19..23], s[24..]) &&
          AllHex(s[..8] + s[9..13] + s[14..18] + s[19..23] + s[24..]))
  {
    hide HexVal;
    if |s| == 36 {
      var a, b, c, d, e := s[..8], s[9..13], s[14..18], s[19..23], s[24..];
      var t := a + b + c + d + e;
      if IsLong(s) {
        assert s == Dashed(a, b, c, d, e);
        forall j: nat | j < 32 ensures IsHex(t[j]) {
          var i := j + if j < 8 then 0 else if j < 12 then 1 else if j < 16 then 2 else if j < 20 then 3 else 4;
          assert !IsDashAt(i) && t[j] == s[i];
        }
      } else if s == Dashed(a, b, c, d, e) && AllHex(t) {
        LongFormIsItsDigits(a, b, c, d, e);
      }
    }
  }

  lemma {:induction false} NibblesFromPair(s: string, i: nat)
    requires i + 1 < |s| && IsHex(s[i]) && IsHex(s[i + 1])
    ensures Hi(PairAt(s, i)) == HexVal(s[i]) && Lo(PairAt(s, i)) == HexVal(s[i + 1])
  {
    ValueRoundTrip(s[i]);
    ValueRoundTrip(s[i + 1]);
  }

  /** Digits of a byte, parsed back. */
  lemma {:induction false} PairOfDigits(s: string, i: nat, b: byte, upper: bool)
    requires i + 1 < |s| && s[i] == Digit(Hi(b), upper) && s[i + 1] == Digit(Lo(b), upper)
    ensures IsHex(s[i]) && IsHex(s[i + 1]) && PairAt(s, i) == b
  {
    DigitRoundTrip(Hi(b), upper);
    DigitRoundTrip(Lo(b), upper);
    assert Hi(b) * 16 + Lo(b) == b;
  }

  lemma {:induction false} LongPair(u: Uuid, k: nat)
    requires k < 16
    ensures PairPos(k) + 1 < 36
    ensures LongChar(u, PairPos(k)) == Digit(Hi(u[k]), false)
    ensures LongChar(u, PairPos(k) + 1) == Digit(Lo(u[k]), false)
  {
    hide Digit, Hi, Lo;
    var i := PairPos(k);
    assert !IsDashAt(i) && i - DashesBefore(i) == 2 * k;
    assert !IsDashAt(i + 1) && i + 1 - DashesBefore(i + 1) == 2 * k + 1;
  }

  /** Every position of the long form that is no dash belongs to one byte. */
  lemma {:induction false} PairOf(i: nat) returns (k: nat)
    requires i < 36 && !IsDashAt(i)
    ensures k < 16 && (i == PairPos(k) || i == PairPos(k) + 1)
    ensures k == (i - DashesBefore(i)) / 2 && (i == PairPos(k) <==> (i - DashesBefore(i)) % 2 == 0)
  {
    k := (i - DashesBefore(i)) / 2;
  }

  lemma {:induction false} LongFormIsLong(u: Uuid)
    ensures var t := seq(36, i requires 0 <= i < 36 => LongChar(u, i)); IsLong(t) && LongBytes(t) == u
  {
    hide Digit, Hi, Lo, HexVal, PairPos, DashesBefore, LongChar;
    var t := seq(36, i requires 0 <= i < 36 => LongChar(u, i));
    forall i: nat | i < 36 ensures if IsDashAt(i) then t[i] == '-' else IsHex(t[i]) {
      if IsDashAt(i) {
        DashChar(u, i);
      } else {
        var k := PairOf(i);
        LongPair(u, k);
        PairOfDigits(t, PairPos(k), u[k], false);
      }
    }
    forall k: nat | k < 16 ensures LongBytes(t)[k] == u[k] {
      LongPair(u, k);
      PairOfDigits(t, PairPos(k), u[k], false);
    }
  }

  lemma {:induction false} DashChar(u: Uuid, i: nat)
    requires i < 36 && IsDashAt(i)
    ensures LongChar(u, i) == '-'
  {
  }

  lemma {:induction false} ShortForm(x: seq<byte>)
    ensures var t := HexText(x, false);
      && AllHex(t) && |t| == 2 * |x|
      && forall k :: 0 <= k < |x| ==> PairAt(t, 2 * k) == x[k]
  {
    HexDecodeOfEncode(x, false);
    var t := HexText(x, false);
    forall k | 0 <= k < |x| ensures PairAt(t, 2 * k) == x[k] {
      assert HexBytes(t)[k] == x[k];
    }
  }

  lemma {:induction false} Parse16(u: Uuid)
    requires u[4..] == BASE_TAIL && u[0] == 0 && u[1] == 0
    ensures Parse(HexText(u[2..4], false)) == Parsed(u, 16)
  {
    hide HexVal, HexText, PairAt;
    ShortForm(u[2..4]);
    var t := HexText(u[2..4], false);
    assert PairAt(t, 2 * 0) == u[2] && PairAt(t, 2 * 1) == u[3];
    assert u == [0, 0, u[2], u[3]] + u[4..];
  }

  lemma {:induction false} Parse32(u: Uuid)
    requires u[4..] == BASE_TAIL
    ensures Parse(HexText(u[..4], false)) == Parsed(u, 32)
  {
    hide HexVal, HexText, PairAt;
    ShortForm(u[..4]);
    var t := HexText(u[..4], false);
    assert PairAt(t, 2 * 0) == u[0] && PairAt(t, 2 * 1) == u[1] && PairAt(t, 2 * 2) == u[2] && PairAt(t, 2 * 3) == u[3];
    assert u == [u[0], u[1], u[2], u[3]] + u[4..];
  }

  lemma {:induction false} ParseLong(s: string)
    requires IsLong(s)
    ensures Parse(s) == Parsed(LongBytes(s), 128)
  {
  }

  /** Formatting and parsing back gives the same UUID, whatever width is asked for. */
  lemma {:induction false} ParseOfFormat(u: Uuid, bits: nat)
    ensures Parse(Format(u, bits)).Parsed? && Parse(Format(u, bits)).uuid == u
  {
    hide HexVal, HexText, PairAt, Parse, LongChar, LongBytes, IsLong;
    if u[4..] == BASE_TAIL && bits == 16 && u[0] == 0 && u[1] == 0 {
      Parse16(u);
    } else if u[4..] == BASE_TAIL && bits == 32 {
      Parse32(u);
    } else {
      LongFormIsLong(u);
      ParseLong(Format(u, bits));
    }
  }

  lemma {:induction false} ShortLower(s: string, x: seq<byte>)
    requires AllHex(s) && |s| == 2 * |x| && forall k :: 0 <= k < |x| ==> x[k] == PairAt(s, 2 * k)
    ensures HexText(x, false) == Lowercase(s)
  {
    forall i | 0 <= i < |s| ensures HexText(x, false)[i] == Lower(s[i]) {
      var k := i / 2;
      NibblesFromPair(s, 2 * k);
      ValueRoundTrip(s[i]);
      assert i == 2 * k || i == 2 * k + 1;
    }
  }

  /** Parsing and formatting back gives the text in lower case, for every text accepted. */
  lemma {:induction false} FormatOfParse(s: string)
    requires Parse(s).Parsed?
    ensures Format(Parse(s).uuid, Parse(s).bits) == Lowercase(s)
  {
    hide Digit, Hi, Lo, HexVal, PairPos, DashesBefore, LongChar, Lower;
    var u := Parse(s).uuid;
    if |s| == 4 {
      assert u[4..] == BASE_TAIL && u[2..4] == [PairAt(s, 2 * 0), PairAt(s, 2 * 1)];
      ShortLower(s, u[2..4]);
    } else if |s| == 8 {
      assert u[4..] == BASE_TAIL;
      assert u[..4] == [PairAt(s, 2 * 0), PairAt(s, 2 * 1), PairAt(s, 2 * 2), PairAt(s, 2 * 3)];
      ShortLower(s, u[..4]);
    } else {
      forall i: nat | i < 36 ensures LongChar(u, i) == Lower(s[i]) {
        LongLower(s, i);
      }
    }
  }

  lemma {:induction false} LongLower(s: string, i: nat)
    requires IsLong(s) && i < 36
    ensures LongChar(LongBytes(s), i) == Lower(s[i])
  {
    var u := LongBytes(s);
    if !IsDashAt(i) {
      hide Digit, Hi, Lo, HexVal, PairPos, DashesBefore, LongChar, Lower;
      var k := PairOf(i);
      PairIsHex(s, k);
      NibblesFromPair(s, PairPos(k));
      LongPair(u, k);
      ValueRoundTrip(s[i]);
    }
  }

  // ------------------------------------------------------------------ the code itself

  /** `hex_byte`: two characters, the terminating NUL included in what may be read. */
  function HexByte(s: string, i: nat): int {
    var hi := if i < |s| then HexVal(s[i]) else -1;
    var lo := if i + 1 < |s| then HexVal(s[i + 1]) else -1;
    if hi < 0 || lo < 0 then -1 else hi * 16 + lo
  }

  lemma {:induction false} HexByteIs(s: string, i: nat)
    ensures HexByte(s, i) >= 0 <==> i + 1 < |s| && IsHex(s[i]) && IsHex(s[i + 1])
    ensures HexByte(s, i) >= 0 ==> HexByte(s, i) == PairAt(s, i)
  {
    if i < |s| && IsHex(s[i]) { ValueRoundTrip(s[i]); }
    if i + 1 < |s| && IsHex(s[i + 1]) { ValueRoundTrip(s[i + 1]); }
  }

  /** The positions of the dashes among the first `i` characters. */
  ghost function DashSet(s: string, i: nat): set<nat>
    requires i <= |s|
  {
    set j: nat | j < i && s[j] == '-'
  }

  lemma {:induction false} DashSetStep(s: string, i: nat)
    requires i < |s|
    ensures DashSet(s, i + 1) == if s[i] == '-' then DashSet(s, i) + {i} else DashSet(s, i)
    ensures |DashSet(s, i + 1)| == |DashSet(s, i)| + (if s[i] == '-' then 1 else 0)
  {
    assert i !in DashSet(s, i);
    if s[i] == '-' {
      assert DashSet(s, i + 1) == DashSet(s, i) + {i};
    } else {
      assert DashSet(s, i + 1) == DashSet(s, i);
    }
  }

  lemma {:induction false} SupersetSize(a: set<nat>, b: set<nat>)
    requires a <= b
    ensures |a| <= |b| && (|a| == |b| ==> a == b)
  {
    var rest := b - a;
    assert b == a + rest;
  }

  /** Sixteen pairs found with the four dashes in place leave room for no other dash. */
  lemma {:induction false} SixteenPairsMeanLong(s: string, i: nat)
    requires |s| == 36 && 32 <= i <= 36 && i == 32 + |DashSet(s, i)|
    requires s[8] == '-' && s[13] == '-' && s[18] == '-' && s[23] == '-'
    requires forall j :: 0 <= j < i ==> s[j] == '-' || IsHex(s[j])
    ensures IsLong(s)
  {
    var four: set<nat> := {8, 13, 18, 23};
    assert |four| == 4;
    SupersetSize(four, DashSet(s, i));
    forall j: nat | j < 36 ensures if IsDashAt(j) then s[j] == '-' else IsHex(s[j]) {
      if s[j] == '-' { assert j in DashSet(s, i); }
    }
  }

  /** On the long form, `o` pairs end where this says. */
  ghost predicate InStep(s: string, i: nat, out: seq<byte>) {
    |s| == 36 && |out| <= 16 &&
    (IsLong(s) ==> i == 2 * |out| + DashesBefore(i) && out == LongBytes(s)[..|out|])
  }

  lemma {:induction false} StepOverDash(s: string, i: nat, out: seq<byte>)
    requires InStep(s, i, out) && i < 36 && s[i] == '-'
    ensures InStep(s, i + 1, out)
  {
    if IsLong(s) { assert IsDashAt(i); }
  }

  lemma {:induction false} StepOverPair(s: string, i: nat, out: seq<byte>)
    requires InStep(s, i, out) && i < 36 && s[i] != '-' && |out| < 16
    ensures IsLong(s) ==> HexByte(s, i) >= 0
    ensures 0 <= HexByte(s, i) ==> HexByte(s, i) < 256 && InStep(s, i + 2, out + [HexByte(s, i)])
  {
    HexByteIs(s, i);
    LongPairHere(s, i, |out|);
  }

  lemma {:induction false} InStepEnds(s: string, i: nat, out: seq<byte>)
    requires InStep(s, i, out) && i <= 36 && (i == 36 || |out| == 16)
    ensures IsLong(s) ==> |out| == 16 && out == LongBytes(s)
  {
  }

  /** The loop skips a dash wherever it stands; only the exact long form survives it. */
  method ParseDashed(s: string) returns (r: Option<Uuid>)
    requires |s| == 36
    ensures r == if IsLong(s) then Some(LongBytes(s)) else None
  {
    hide HexVal, PairAt, InStep, DashesBefore, LongBytes, DashSet;
    NotLongWithout(s);
    if s[8] != '-' || s[13] != '-' || s[18] != '-' || s[23] != '-' { return None; }
    hide IsLong;
    hide HexByte;
    var out: seq<byte> := [];
    var i := 0;
    AtStart(s);
    while i < 36 && |out| < 16
      invariant 0 <= i <= 36 && |out| <= 16 && i == 2 * |out| + |DashSet(s, i)|
      invariant forall j :: 0 <= j < i ==> s[j] == '-' || IsHex(s[j])
      invariant InStep(s, i, out)
    {
      DashSetStep(s, i);
      if s[i] == '-' {
        StepOverDash(s, i, out);
        i := i + 1;
        continue;
      }
      StepOverPair(s, i, out);
      HexByteIs(s, i);
      var b := HexByte(s, i);
      if b < 0 { return None; }
      DashSetStep(s, i + 1);
      ValueRoundTrip(s[i + 1]);
      out := out + [b];
      i := i + 2;
    }
    InStepEnds(s, i, out);
    if |out| != 16 { return None; }
    DashesAtLeastFour(s, i);
    SixteenPairsMeanLong(s, i);
    return Some(out);
  }

  lemma {:induction false} NotLongWithout(s: string)
    requires |s| == 36
    ensures IsLong(s) ==> s[8] == '-' && s[13] == '-' && s[18] == '-' && s[23] == '-'
  {
  }

  lemma {:induction false} AtStart(s: string)
    requires |s| == 36
    ensures DashSet(s, 0) == {} && InStep(s, 0, [])
  {
  }

  lemma {:induction false} DashesAtLeastFour(s: string, i: nat)
    requires |s| == 36 && i <= 36 && i >= 32
    requires s[8] == '-' && s[13] == '-' && s[18] == '-' && s[23] == '-'
    ensures |DashSet(s, i)| >= 4
  {
    var four: set<nat> := {8, 13, 18, 23};
    assert |four| == 4;
    SupersetSize(four, DashSet(s, i));
  }

  /** On the long form the loop stands at the pair it is about to read. */
  lemma {:induction false} LongPairHere(s: string, i: nat, o: nat)
    requires |s| == 36 && i < 36 && o < 16
    ensures IsLong(s) && i == 2 * o + DashesBefore(i) && s[i] != '-' ==>
      && i == PairPos(o) && i + 1 < 36 && IsHex(s[i]) && IsHex(s[i + 1])
      && LongBytes(s)[o] == PairAt(s, i)
      && i + 2 == 2 * (o + 1) + DashesBefore(i + 2)
  {
    if IsLong(s) && i == 2 * o + DashesBefore(i) && s[i] != '-' {
      assert !IsDashAt(i);
      PairIsHex(s, o);
    }
  }

  method ParseShort(s: string) returns (r: Option<Uuid>)
    requires |s| == 4 || |s| == 8
    ensures r == if AllHex(s) then Some(Parse(s).uuid) else None
  {
    hide HexVal, PairAt;
    var n := |s| / 2;
    var out := [0, 0, 0, 0];
    var i := 0;
    while i < n
      invariant 0 <= i <= n && |out| == 4 && forall j :: 0 <= j < 2 * i ==> IsHex(s[j])
      invariant forall k :: 0 <= k < 4 ==> out[k] == if 4 - n <= k < 4 - n + i then PairAt(s, 2 * (k - (4 - n))) else 0
    {
      HexByteIs(s, 2 * i);
      var b := HexByte(s, 2 * i);
      if b < 0 { return None; }
      out := out[4 - n + i := b];
      i := i + 1;
    }
    assert AllHex(s);
    if n == 2 {
      assert out == [0, 0, PairAt(s, 0), PairAt(s, 2)];
    } else {
      assert out == [PairAt(s, 0), PairAt(s, 2), PairAt(s, 4), PairAt(s, 6)];
    }
    return Some(out + BASE_TAIL);
  }

  /** `espos_ble_uuid_parse` */
  method UuidParse(s: string) returns (r: Parsed)
    ensures r == Parse(s)
  {
    if |s| == 4 || |s| == 8 {
      var u := ParseShort(s);
      if u.None? { return Rejected; }
      return Parsed(u.value, if |s| == 4 then 16 else 32);
    }
    if |s| == 36 {
      var u := ParseDashed(s);
      if u.None? { return Rejected; }
      return Parsed(u.value, 128);
    }
    return Rejected;
  }
}
