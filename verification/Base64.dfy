/** Base64 (section 4 of RFC 4648): a block encoder against a streaming decoder whose 32-bit
    accumulator wraps. */
module Base64 {
  import opened Esp
  import opened ModClock

  type sextet = x: int | 0 <= x < 64

  /** The alphabet table: A-Z, a-z, 0-9, plus and slash. */
  function Letter(v: sextet): char {
    if v < 26 then 'A' + v as char
    else if v < 52 then 'a' + (v - 26) as char
    else if v < 62 then '0' + (v - 52) as char
    else if v == 62 then '+'
    else '/'
  }

  /** The value of a letter, -1 for any other character. */
  function Value(c: char): int {
    if 'A' <= c <= 'Z' then c as int - 'A' as int
    else if 'a' <= c <= 'z' then c as int - 'a' as int + 26
    else if '0' <= c <= '9' then c as int - '0' as int + 52
    else if c == '+' then 62
    else if c == '/' then 63
    else -1
  }

  predicate IsLetter(c: char) {
    Value(c) >= 0
  }

  /** Table 1 of RFC 4648. */
  const ALPHABET: string := "ABCDEFGHIJKLMNOPQRSTUVWXYZ" + "abcdefghijklmnopqrstuvwxyz" + "0123456789+/"

  lemma {:induction false} LetterIs(v: sextet)
    ensures |ALPHABET| == 64 && Letter(v) == ALPHABET[v]
  {
    if v < 26 {
      UpperAt(v);
    } else if v < 52 {
      LowerAt(v - 26);
    } else {
      OtherAt(v - 52);
    }
  }

  lemma {:induction false} UpperAt(v: nat)
    requires v < 26
    ensures Letter(v) == "ABCDEFGHIJKLMNOPQRSTUVWXYZ"[v]
  {
  }

  lemma {:induction false} LowerAt(v: nat)
    requires v < 26
    ensures Letter(v + 26) == "abcdefghijklmnopqrstuvwxyz"[v]
  {
  }

  lemma {:induction false} OtherAt(v: nat)
    requires v < 12
    ensures Letter(v + 52) == "0123456789+/"[v]
  {
  }

  lemma {:induction false} LetterHasValue(v: sextet)
    ensures Value(Letter(v)) == v && Letter(v) != '='
  {
  }

  lemma {:induction false} ValueHasLetter(c: char)
    requires IsLetter(c)
    ensures Value(c) < 64 && Letter(Value(c)) == c
  {
  }

  // ------------------------------------------------------------- bytes and sextets

  function S0(x: byte): sextet { var i: int := x; i / 4 }
  function S1(x: byte, y: byte): sextet { var i: int, j: int := x, y; i % 4 * 16 + j / 16 }
  function S2(y: byte, z: byte): sextet { var i: int, j: int := y, z; i % 16 * 4 + j / 64 }
  function S3(z: byte): sextet { var i: int := z; i % 64 }

  function B0(a: sextet, b: sextet): byte { var i: int, j: int := a, b; i * 4 + j / 16 }
  function B1(b: sextet, c: sextet): byte { var i: int, j: int := b, c; i % 16 * 16 + j / 4 }
  function B2(c: sextet, d: sextet): byte { var i: int, j: int := c, d; i % 4 * 64 + j }

  lemma {:induction false} SplitJoin(x: byte, y: byte, z: byte)
    ensures B0(S0(x), S1(x, y)) == x && B1(S1(x, y), S2(y, z)) == y && B2(S2(y, z), S3(z)) == z
  {
  }

  lemma {:induction false} JoinSplit(a: sextet, b: sextet, c: sextet, d: sextet)
    ensures S0(B0(a, b)) == a && S1(B0(a, b), B1(b, c)) == b && S2(B1(b, c), B2(c, d)) == c && S3(B2(c, d)) == d
    ensures S1(B0(a, b), 0) == b <==> b % 16 == 0
    ensures S2(B1(b, c), 0) == c <==> c % 4 == 0
  {
  }

  /** A tail of one or two bytes is padded with zero bits. */
  function TailSextets(x: seq<byte>): seq<sextet>
    requires |x| < 3
  {
    if x == [] then []
    else if |x| == 1 then [S0(x[0]), S1(x[0], 0)]
    else [S0(x[0]), S1(x[0], x[1]), S2(x[1], 0)]
  }

  function BlockSextets(x: seq<byte>): seq<sextet>
    requires |x| >= 3
  {
    [S0(x[0]), S1(x[0], x[1]), S2(x[1], x[2]), S3(x[2])]
  }

  /** Three bytes are four sextets. */
  function Sextets(x: seq<byte>): seq<sextet> {
    if |x| < 3 then TailSextets(x) else BlockSextets(x) + Sextets(x[3..])
  }

  /** The leftover bits of a short tail are ignored. */
  function TailBytes(s: seq<sextet>): seq<byte>
    requires |s| < 4
  {
    if |s| < 2 then []
    else if |s| == 2 then [B0(s[0], s[1])]
    else [B0(s[0], s[1]), B1(s[1], s[2])]
  }

  function BlockBytes(s: seq<sextet>): seq<byte>
    requires |s| >= 4
  {
    [B0(s[0], s[1]), B1(s[1], s[2]), B2(s[2], s[3])]
  }

  /** Four sextets are three bytes. */
  function Bytes(s: seq<sextet>): seq<byte> {
    if |s| < 4 then TailBytes(s) else BlockBytes(s) + Bytes(s[4..])
  }

  lemma {:induction false} SextetsLength(x: seq<byte>)
    ensures |Sextets(x)| == (4 * |x| + 2) / 3 && |Sextets(x)| % 4 != 1
    decreases |x|
  {
    if |x| >= 3 { SextetsLength(x[3..]); }
  }

  /** A text of n letters holds floor(3n / 4) bytes. */
  lemma {:induction false} BytesLength(s: seq<sextet>)
    ensures |Bytes(s)| == 3 * |s| / 4
    decreases |s|
  {
    if |s| >= 4 { BytesLength(s[4..]); }
  }

  /** How many sextets of an unfinished block `s` ends with. */
  function Phase(s: seq<sextet>): (p: nat)
    ensures p < 4 && p <= |s|
  {
    if |s| < 4 then |s| else Phase(s[4..])
  }

  lemma {:induction false} PhaseIsRemainder(s: seq<sextet>)
    ensures Phase(s) == |s| % 4
    decreases |s|
  {
    if |s| >= 4 { PhaseIsRemainder(s[4..]); }
  }

  /** The byte `v` completes in a block whose last sextet so far is `last`. */
  function Completes(phase: nat, last: sextet, v: sextet): seq<byte> {
    if phase == 0 then []
    else if phase == 1 then [B0(last, v)]
    else if phase == 2 then [B1(last, v)]
    else [B2(last, v)]
  }

  function Last(s: seq<sextet>): sextet {
    if s == [] then 0 else s[|s| - 1]
  }

  lemma {:induction false} TailExtend(s: seq<sextet>, v: sextet)
    requires |s| < 4
    ensures |s| < 3 ==> TailBytes(s + [v]) == TailBytes(s) + Completes(|s|, Last(s), v)
    ensures |s| == 3 ==> BlockBytes(s + [v]) == TailBytes(s) + Completes(|s|, Last(s), v)
  {
    hide B0, B1, B2;
  }

  /** One more sextet adds the byte it completes, and moves the phase on. */
  lemma {:induction false} BytesExtend(s: seq<sextet>, v: sextet)
    ensures Bytes(s + [v]) == Bytes(s) + Completes(Phase(s), Last(s), v)
    ensures Phase(s + [v]) == if Phase(s) == 3 then 0 else Phase(s) + 1
    decreases |s|
  {
    hide TailBytes, BlockBytes, Completes;
    var e := s + [v];
    if |s| < 4 {
      TailExtend(s, v);
      if |s| == 3 {
        assert e[4..] == [];
        assert TailBytes([]) == [] by { NoByteYet(v, v); }
        assert Bytes(e) == BlockBytes(e) + Bytes([]);
      }
    } else {
      BytesExtend(s[4..], v);
      assert e[4..] == s[4..] + [v];
      assert |s| > 4 ==> Last(s) == Last(s[4..]);
      if |s| == 4 {
        assert Completes(0, Last(s), v) == Completes(0, Last(s[4..]), v) by { NoByteYet(Last(s), v); NoByteYet(Last(s[4..]), v); }
      }
      assert BlockBytes(e) == BlockBytes(s) by { SameBlock(s, v); }
    }
  }

  lemma {:induction false} NoByteYet(last: sextet, v: sextet)
    ensures Completes(0, last, v) == [] && TailBytes([]) == []
  {
  }

  lemma {:induction false} SameBlock(s: seq<sextet>, v: sextet)
    requires |s| >= 4
    ensures BlockBytes(s + [v]) == BlockBytes(s)
  {
  }

  lemma {:induction false} TailRoundTrip(x: seq<byte>)
    ensures |x| < 3 ==> |TailSextets(x)| < 4 && TailBytes(TailSextets(x)) == x
    ensures |x| >= 3 ==> BlockBytes(BlockSextets(x)) == x[..3]
  {
    hide S0, S1, S2, S3, B0, B1, B2;
    if x != [] {
      SplitJoin(x[0], if |x| > 1 then x[1] else 0, if |x| > 2 then x[2] else 0);
    }
  }

  lemma {:induction false} BytesOfSextets(x: seq<byte>)
    ensures Bytes(Sextets(x)) == x
    decreases |x|
  {
    TailRoundTrip(x);
    hide S0, S1, S2, S3, B0, B1, B2, TailSextets, TailBytes;
    if |x| >= 3 {
      BytesOfSextets(x[3..]);
      var s := Sextets(x);
      assert s[4..] == Sextets(x[3..]) && s[..4] == BlockSextets(x);
      assert BlockBytes(s) == BlockBytes(BlockSextets(x));
      assert x == x[..3] + x[3..];
    }
  }

  /** The bits of an incomplete tail that the decoder ignores are zero. */
  predicate Canonical(s: seq<sextet>) {
    var p := Phase(s);
    p != 1 && (p == 2 ==> Last(s) % 16 == 0) && (p == 3 ==> Last(s) % 4 == 0)
  }

  lemma {:induction false} TailBack(s: seq<sextet>)
    ensures |s| < 4 ==> |TailBytes(s)| < 3 && (TailSextets(TailBytes(s)) == s <==> Canonical(s))
    ensures |s| >= 4 ==> BlockSextets(BlockBytes(s)) == s[..4]
  {
    hide S0, S1, S2, S3, B0, B1, B2;
    if |s| >= 2 {
      JoinSplit(s[0], s[1], if |s| > 2 then s[2] else 0, if |s| > 3 then s[3] else 0);
    }
  }

  /** Re-encoding what was decoded gives the input back exactly when its ignored bits are zero. */
  lemma {:induction false} SextetsOfBytes(s: seq<sextet>)
    ensures Sextets(Bytes(s)) == s <==> Canonical(s)
    decreases |s|
  {
    TailBack(s);
    hide S0, S1, S2, S3, B0, B1, B2, TailSextets, TailBytes;
    if |s| >= 4 {
      var rest := Bytes(s[4..]);
      var b := Bytes(s);
      assert b[3..] == rest && b[..3] == BlockBytes(s);
      assert BlockSextets(b) == BlockSextets(BlockBytes(s));
      SextetsOfBytes(s[4..]);
      SameTail(s[..4], Sextets(rest), s[4..]);
      assert s[..4] + s[4..] == s;
      assert Canonical(s) == Canonical(s[4..]);
    }
  }

  lemma {:induction false} SameTail<T>(head: seq<T>, a: seq<T>, b: seq<T>)
    ensures head + a == head + b <==> a == b
  {
    assert (head + a)[|head|..] == a && (head + b)[|head|..] == b;
  }

  // ----------------------------------------------------------------------- the text

  function Letters(s: seq<sextet>): (r: string)
    ensures |r| == |s|
    ensures forall i :: 0 <= i < |s| ==> r[i] == Letter(s[i])
  {
    seq(|s|, i requires 0 <= i < |s| => Letter(s[i]))
  }

  function Padding(n: nat): string {
    if n % 3 == 0 then "" else if n % 3 == 1 then "==" else "="
  }

  function Encoded(x: seq<byte>): string {
    Letters(Sextets(x)) + Padding(|x|)
  }

  function EncodedLen(n: nat): nat {
    (n + 2) / 3 * 4 + 1
  }

  function Stripped(t: string): (r: string)
    ensures r <= t && (r != [] ==> r[|r| - 1] != '=')
    ensures forall i :: |r| <= i < |t| ==> t[i] == '='
  {
    if t == [] || t[|t| - 1] != '=' then t else Stripped(t[..|t| - 1])
  }

  /** How many leading characters are letters. */
  function GoodPrefix(t: string): (n: nat)
    ensures n <= |t| && (n < |t| ==> !IsLetter(t[n]))
    ensures forall i :: 0 <= i < n ==> IsLetter(t[i])
  {
    if t == [] || !IsLetter(t[0]) then 0 else
      var n := GoodPrefix(t[1..]);
      assert forall i :: 1 <= i < 1 + n ==> t[i] == t[1..][i - 1];
      1 + n
  }

  function Values(t: string): (r: seq<sextet>)
    requires forall i :: 0 <= i < |t| ==> IsLetter(t[i])
    ensures |r| == |t| && forall i :: 0 <= i < |t| ==> r[i] == Value(t[i])
  {
    var value := (c: char) requires IsLetter(c) => Value(c) as sextet;
    seq(|t|, i requires 0 <= i < |t| => value(t[i]))
  }

  /** What a text decodes to: all letters once the padding is gone, and not one letter too many. */
  function Decoded(t: string): Option<seq<byte>> {
    var s := Stripped(t);
    if |s| % 4 == 1 || GoodPrefix(s) < |s| then None else Some(Bytes(Values(s)))
  }

  lemma {:induction false} StripPadding(s: string, pad: string)
    requires s != [] ==> s[|s| - 1] != '='
    requires forall i :: 0 <= i < |pad| ==> pad[i] == '='
    ensures Stripped(s + pad) == s
    decreases |pad|
  {
    if pad == [] {
      assert s + pad == s;
    } else {
      StripPadding(s, pad[..|pad| - 1]);
      assert (s + pad)[..|s + pad| - 1] == s + pad[..|pad| - 1];
    }
  }

  lemma {:induction false} PaddingIsPadding(n: nat)
    ensures forall i :: 0 <= i < |Padding(n)| ==> Padding(n)[i] == '='
  {
  }

  /** decode(encode(x)) = x for every byte string, padding included. */
  lemma {:induction false} DecodeOfEncode(x: seq<byte>)
    ensures Decoded(Encoded(x)) == Some(x)
  {
    hide Sextets, Bytes, Value, Letter, Padding;
    var s := Sextets(x);
    var t := Letters(s);
    forall i | 0 <= i < |s| ensures Value(t[i]) == s[i] && t[i] != '=' { LetterHasValue(s[i]); }
    SextetsLength(x);
    PaddingIsPadding(|x|);
    StripPadding(t, Padding(|x|));
    assert Values(t) == s;
    BytesOfSextets(x);
  }

  /** The other way round: a text without padding is what its bytes encode to, padding aside,
      exactly when the bits its decoder ignores are zero. */
  lemma {:induction false} EncodeOfDecode(t: string)
    requires Stripped(t) == t && Decoded(t).Some?
    ensures Encoded(Decoded(t).value) == t + Padding(|Decoded(t).value|) <==> Canonical(Values(t))
  {
    var s := Values(t);
    SextetsOfBytes(s);
    forall i | 0 <= i < |t| ensures Letter(s[i]) == t[i] { ValueHasLetter(t[i]); }
    assert Letters(s) == t;
    var r := Sextets(Bytes(s));
    if Letters(r) + Padding(|Bytes(s)|) == t + Padding(|Bytes(s)|) {
      assert |r| == |t|;
      assert Letters(r) == (t + Padding(|Bytes(s)|))[..|t|] == t;
      forall i | 0 <= i < |r| ensures r[i] == s[i] {
        LetterHasValue(r[i]);
        LetterHasValue(s[i]);
        assert Letters(r)[i] == Letters(s)[i];
      }
      assert r == s;
    }
  }

  /** The import's buffer always has room: its decode never answers ESP_ERR_INVALID_SIZE. */
  lemma {:induction false} ImportBufferSuffices(t: string)
    ensures 3 * GoodPrefix(Stripped(t)) / 4 <= (|t| / 4 + 1) * 3
  {
    assert GoodPrefix(Stripped(t)) <= |t|;
  }

  // ------------------------------------------------------------------ the code itself

  /** The four characters written for the next up to three bytes. */
  function Quad(x: seq<byte>): string
    requires x != []
  {
    var y: byte, z: byte := if |x| > 1 then x[1] else 0, if |x| > 2 then x[2] else 0;
    [Letter(S0(x[0])), Letter(S1(x[0], y)),
     if |x| > 1 then Letter(S2(y, z)) else '=', if |x| > 2 then Letter(S3(z)) else '=']
  }

  lemma {:induction false} EncodedStep(x: seq<byte>)
    requires x != []
    ensures Encoded(x) == Quad(x) + Encoded(if |x| > 3 then x[3..] else [])
  {
    hide Letter, Sextets, Padding, Quad, Letters;
    NothingEncoded();
    if |x| >= 3 {
      BlockIsQuad(x);
      PaddingAgain(|x| - 3);
      assert |x| == 3 ==> x[3..] == [];
    } else {
      TailIsQuad(x);
    }
  }

  /** The big-endian number of three bytes from `at` on, zero bytes past the end. */
  function Word(x: seq<byte>, at: nat): nat {
    var b := (i: nat) => if i < |x| then x[i] as int else 0;
    b(at) * 0x1_0000 + b(at + 1) * 0x100 + b(at + 2)
  }

  /** Character i: the i % 4-th six bits, from the top, of the word of its block, as a letter; padding where no byte reaches. */
  lemma {:induction false} EncodedIs(x: seq<byte>, i: nat)
    requires i < |Encoded(x)|
    ensures |Encoded(x)| == (|x| + 2) / 3 * 4
    ensures var w := Word(x, i / 4 * 3);
      Encoded(x)[i] == if i / 4 * 3 + i % 4 > |x| then '='
                       else ALPHABET[if i % 4 == 0 then w / 262144 % 64 else if i % 4 == 1 then w / 4096 % 64
                                     else if i % 4 == 2 then w / 64 % 64 else w % 64]
    decreases |x|
  {
    hide Letter, Encoded, Word, Quad;
    EncodedFits(x);
    NothingEncoded();
    EncodedStep(x);
    QuadIsFour(x);
    var rest := if |x| > 3 then x[3..] else [];
    if i < 4 {
      QuadIs(x, i);
    } else {
      assert Encoded(x)[i] == Encoded(rest)[i - 4];
      EncodedIs(rest, i - 4);
      WordShift(x, (i - 4) / 4 * 3);
    }
  }

  lemma {:induction false} WordShift(x: seq<byte>, at: nat)
    requires |x| > 3
    ensures Word(x[3..], at) == Word(x, at + 3)
  {
  }

  lemma {:induction false} QuadIs(x: seq<byte>, i: nat)
    requires x != [] && i < 4
    ensures var w := Word(x, 0);
      Quad(x)[i] == if i > |x| then '='
                    else ALPHABET[if i == 0 then w / 262144 % 64 else if i == 1 then w / 4096 % 64
                                  else if i == 2 then w / 64 % 64 else w % 64]
  {
    hide S0, S1, S2, S3, Letter;
    var y: byte, z: byte := if |x| > 1 then x[1] else 0, if |x| > 2 then x[2] else 0;
    WordParts(x[0], y, z);
    LetterIs(S0(x[0]));
    LetterIs(S1(x[0], y));
    LetterIs(S2(y, z));
    LetterIs(S3(z));
    assert Word(x, 0) == x[0] * 65536 + y * 256 + z;
  }

  lemma {:induction false} BlockIsQuad(x: seq<byte>)
    requires |x| >= 3
    ensures Letters(Sextets(x)) == Quad(x) + Letters(Sextets(x[3..]))
  {
    hide Letter, S0, S1, S2, S3;
    var rest := Sextets(x[3..]);
    assert Letters(BlockSextets(x)) == Quad(x);
    assert Letters(BlockSextets(x) + rest) == Letters(BlockSextets(x)) + Letters(rest);
  }

  lemma {:induction false} TailIsQuad(x: seq<byte>)
    requires 0 < |x| < 3
    ensures Encoded(x) == Quad(x)
  {
    hide Letter, S0, S1, S2, S3;
    assert Sextets(x) == TailSextets(x);
  }

  lemma {:induction false} PaddingAgain(n: nat)
    ensures Padding(n + 3) == Padding(n)
  {
  }

  lemma {:induction false} EncodedFits(x: seq<byte>)
    ensures |Encoded(x)| + 1 == EncodedLen(|x|)
  {
    hide Sextets, Letters;
    SextetsLength(x);
    var q, r := |x| / 3, |x| % 3;
    assert |x| == 3 * q + r;
    DivideBy(3, 4 * |x| + 2, 4 * q + if r == 0 then 0 else r + 1, if r == 0 then 2 else if r == 1 then 0 else 1);
    DivideBy(3, |x| + 2, q + if r == 0 then 0 else 1, if r == 0 then 2 else r - 1);
  }

  lemma {:induction false} Digits(a: sextet, b: sextet, c: sextet, d: sextet)
    ensures var v: int := a * 262144 + b * 4096 + c * 64 + d;
      v / 262144 % 64 == a && v / 4096 % 64 == b && v / 64 % 64 == c && v % 64 == d
  {
    var v: int := a * 262144 + b * 4096 + c * 64 + d;
    assert v / 262144 == a;
    assert v / 4096 == a * 64 + b;
    assert v / 64 == (a * 64 + b) * 64 + c;
  }

  /** The code's 24-bit word, taken apart again. */
  lemma {:induction false} WordParts(x: byte, y: byte, z: byte)
    ensures var v: int := x * 65536 + y * 256 + z;
      v / 262144 % 64 == S0(x) && v / 4096 % 64 == S1(x, y) && v / 64 % 64 == S2(y, z) && v % 64 == S3(z)
  {
    Digits(S0(x), S1(x, y), S2(y, z), S3(z));
    assert x * 65536 == S0(x) * 262144 + x % 4 * 65536;
    assert y * 256 == y / 16 * 4096 + y % 16 * 256;
    assert z == z / 64 * 64 + S3(z);
    assert S1(x, y) * 4096 == x % 4 * 65536 + y / 16 * 4096;
    assert S2(y, z) * 64 == y % 16 * 256 + z / 64 * 64;
  }

  /** Write the four characters of one block. */
  method PutQuad(x: seq<byte>, out: array<char>, o: nat)
    requires x != [] && o + 4 <= out.Length
    modifies out
    ensures out[..o + 4] == old(out[..o]) + Quad(x)
  {
    hide S0, S1, S2, S3, Letter;
    var y: byte := if 1 < |x| then x[1] else 0;
    var z: byte := if 2 < |x| then x[2] else 0;
    WordParts(x[0], y, z);
    var v: int := x[0] * 65536 + y * 256 + z;
    out[o] := Letter(v / 262144 % 64);
    out[o + 1] := Letter(v / 4096 % 64);
    out[o + 2] := if 1 < |x| then Letter(v / 64 % 64) else '=';
    out[o + 3] := if 2 < |x| then Letter(v % 64) else '=';
  }

  /** `espos_b64_encode`: block by block into the caller's buffer, NUL-terminated. */
  method Encode(input: seq<byte>, out: array<char>) returns (written: nat)
    modifies out
    ensures out.Length < EncodedLen(|input|) ==>
      written == 0 && (out.Length > 0 ==> out[0] == '\0' && out[1..] == old(out[1..]))
    ensures out.Length >= EncodedLen(|input|) ==>
      written < out.Length && out[..written] == Encoded(input) && out[written] == '\0'
  {
    hide Encoded, Quad;
    if out.Length < EncodedLen(|input|) {
      if out.Length > 0 { out[0] := '\0'; }
      return 0;
    }
    EncodedFits(input);
    NothingEncoded();
    var o, i := 0, 0;
    ghost var left := input;
    while i < |input|
      invariant 0 <= i && left == (if i < |input| then input[i..] else [])
      invariant 0 <= o <= out.Length && out[..o] + Encoded(left) == Encoded(input)
    {
      EncodedStep(left);
      assert |out[..o] + Encoded(left)| == |Encoded(input)|;
      assert |Quad(left)| == 4 by { QuadIsFour(left); }
      ghost var done := out[..o];
      ghost var next := if |left| > 3 then left[3..] else [];
      PutQuad(input[i..], out, o);
      assert done + (Quad(left) + Encoded(next)) == (done + Quad(left)) + Encoded(next);
      o, i, left := o + 4, i + 3, next;
    }
    assert out[..o] + "" == out[..o];
    out[o] := '\0';
    return o;
  }

  lemma {:induction false} QuadIsFour(x: seq<byte>)
    requires x != []
    ensures |Quad(x)| == 4
  {
  }

  lemma {:induction false} NothingEncoded()
    ensures Encoded([]) == ""
  {
  }

  function BitsIn(phase: nat): nat {
    if phase == 0 then 0 else if phase == 1 then 6 else if phase == 2 then 4 else 2
  }

  /** `acc >> bits`, for the shifts that occur. */
  function ShiftRight(acc: u32, bits: nat): nat {
    if bits == 0 then acc else if bits == 2 then acc / 4 else if bits == 4 then acc / 16 else acc / 64
  }

  /** The wrapping accumulator keeps the last sextet, which is all the next byte needs. */
  lemma {:induction false} AccumulatorSuffices(acc: u32, last: sextet, v: sextet)
    requires acc % 64 == last
    ensures var next := (acc * 64 + v) % TWO32;
      && next % 64 == v
      && ShiftRight(next, 4) % 256 == B0(last, v)
      && ShiftRight(next, 2) % 256 == B1(last, v)
      && ShiftRight(next, 0) % 256 == B2(last, v)
  {
    hide B0, B1, B2;
    var w: int := last * 64 + v;
    var next := (acc * 64 + v) % TWO32;
    assert acc * 64 + v == acc / 64 * 4096 + w;
    LowPart(acc / 64, w);
    assert next == next / 4096 * 4096 + w;
    Low64(next / 4096, w);
    Low16(next / 4096, w);
    Low4(next / 4096, w);
    Low256(next / 4096, w);
    PairBytes(last, v);
  }

  /** Quotient and remainder, for the divisors the codec uses. */
  lemma {:induction false} DivideBy(d: int, n: int, q: int, r: int)
    requires d == 3 || d == 4 || d == 16 || d == 64 || d == 256
    requires n == d * q + r && 0 <= r < d
    ensures n / d == q && n % d == r
  {
    if d == 3 { assert n == 3 * q + r; }
    else if d == 4 { assert n == 4 * q + r; }
    else if d == 16 { assert n == 16 * q + r; }
    else if d == 64 { assert n == 64 * q + r; }
    else { assert n == 256 * q + r; }
  }

  lemma {:induction false} Low64(m: nat, w: nat)
    ensures (m * 4096 + w) % 64 == w % 64
  {
    DivideBy(64, m * 4096 + w, m * 64 + w / 64, w % 64);
  }

  lemma {:induction false} Low16(m: nat, w: nat)
    requires w < 4096
    ensures (m * 4096 + w) / 16 % 256 == w / 16
  {
    DivideBy(16, m * 4096 + w, m * 256 + w / 16, w % 16);
    DivideBy(256, m * 256 + w / 16, m, w / 16);
  }

  lemma {:induction false} Low4(m: nat, w: nat)
    ensures (m * 4096 + w) / 4 % 256 == w / 4 % 256
  {
    DivideBy(4, m * 4096 + w, m * 1024 + w / 4, w % 4);
    DivideBy(256, m * 1024 + w / 4, m * 4 + w / 4 / 256, w / 4 % 256);
  }

  lemma {:induction false} Low256(m: nat, w: nat)
    ensures (m * 4096 + w) % 256 == w % 256
  {
    DivideBy(256, m * 4096 + w, m * 16 + w / 256, w % 256);
  }

  lemma {:induction false} PairBytes(last: sextet, v: sextet)
    ensures var w: int := last * 64 + v;
      w % 64 == v && w / 16 == B0(last, v) && w / 4 % 256 == B1(last, v) && w % 256 == B2(last, v)
  {
    var w: int, l: int, i: int := last * 64 + v, last, v;
    DivideBy(64, w, l, i);
    DivideBy(16, w, l * 4 + i / 16, i % 16);
    DivideBy(4, w, l * 16 + i / 4, i % 4);
    DivideBy(256, l * 16 + i / 4, l / 16, l % 16 * 16 + i / 4);
    DivideBy(256, w, l / 4, l % 4 * 64 + i);
  }

  lemma {:induction false} LowPart(q: nat, r: nat)
    requires r < 4096
    ensures (q * 4096 + r) % TWO32 % 4096 == r
  {
    var k := (q * 4096 + r) / TWO32;
    assert (q * 4096 + r) % TWO32 == (q - k * 1048576) * 4096 + r;
  }

  lemma {:induction false} ValuesExtend(s: string, i: nat)
    requires i < GoodPrefix(s)
    ensures Values(s[..i + 1]) == Values(s[..i]) + [Value(s[i]) as sextet]
  {
    assert s[..i + 1] == s[..i] + [s[i]];
  }

  lemma {:induction false} StripMore(t: string, n: nat)
    requires 0 < n <= |t| && t[n - 1] == '=' && Stripped(t) == Stripped(t[..n])
    ensures Stripped(t) == Stripped(t[..n - 1])
  {
    assert t[..n][..n - 1] == t[..n - 1];
  }

  /** Drop the trailing padding. */
  method Strip(text: string) returns (n: nat)
    ensures n <= |text| && text[..n] == Stripped(text)
  {
    n := |text|;
    assert text[..n] == text;
    while n > 0 && text[n - 1] == '='
      invariant n <= |text| && Stripped(text) == Stripped(text[..n])
    {
      StripMore(text, n);
      n := n - 1;
    }
  }

  /** What the loop knows after `i` letters. */
  ghost predicate Streamed(s: string, i: nat, done: seq<byte>, acc: u32, bits: nat) {
    i <= GoodPrefix(s) &&
    var p := Values(s[..i]);
    done == Bytes(p) && |done| == 3 * i / 4 && bits == BitsIn(Phase(p)) && acc % 64 == Last(p)
  }

  lemma {:induction false} StreamStep(s: string, i: nat, done: seq<byte>, acc: u32, bits: nat)
    requires i < GoodPrefix(s) && Streamed(s, i, done, acc, bits)
    ensures 0 <= Value(s[i]) < 64
    ensures var next, held := (acc * 64 + Value(s[i])) % TWO32, bits + 6;
      if held >= 8
      then Streamed(s, i + 1, done + [ShiftRight(next, held - 8) % 256], next, held - 8)
      else Streamed(s, i + 1, done, next, held)
  {
    hide B0, B1, B2, Bytes, Value, ShiftRight, GoodPrefix;
    ValueHasLetter(s[i]);
    var p := Values(s[..i]);
    var v: sextet := Value(s[i]);
    ValuesExtend(s, i);
    BytesExtend(p, v);
    BytesLength(p + [v]);
    AccumulatorSuffices(acc, Last(p), v);
    PhaseIsRemainder(p);
  }

  /** `espos_b64_decode`: padding off, then letter by letter through the accumulator. */
  method Decode(text: string, out: array<byte>) returns (err: Err, len: nat)
    modifies out
    ensures var s := Stripped(text);
      err == if |s| % 4 == 1 then InvalidArg
             else if 3 * GoodPrefix(s) / 4 > out.Length then InvalidSize
             else if GoodPrefix(s) < |s| then InvalidArg
             else Ok
    ensures err == Ok ==> len <= out.Length && Decoded(text) == Some(out[..len])
  {
    hide Bytes, Value, ShiftRight, GoodPrefix, Stripped;
    var n := Strip(text);
    var s := text[..n];
    len := 0;
    if n % 4 == 1 { return InvalidArg, 0; }
    var i, acc: u32, bits := 0, 0, 0;
    StreamStart(s);
    while i < n
      invariant 0 <= i <= n && len <= out.Length && Streamed(s, i, out[..len], acc, bits)
    {
      var v := Value(s[i]);
      if v < 0 { return InvalidArg, 0; }
      StreamStep(s, i, out[..len], acc, bits);
      acc := (acc * 64 + v) % TWO32;
      bits := bits + 6;
      if bits >= 8 {
        bits := bits - 8;
        if len >= out.Length { return InvalidSize, 0; }
        ghost var done := out[..len];
        out[len] := ShiftRight(acc, bits) % 256;
        assert out[..len + 1] == done + [out[len]];
        len := len + 1;
      }
      i := i + 1;
    }
    assert s[..n] == s;
    return Ok, len;
  }

  lemma {:induction false} StreamStart(s: string)
    ensures Streamed(s, 0, [], 0, 0)
  {
  }
}
