/** Base64url without padding, as the JWKS, the PKCE check and the Keycloak state
    reader use it. */
module Base64Url {
  import opened Options

  type Byte = b: int | 0 <= b < 256
  type Sextet = k: int | 0 <= k < 64

  function Symbol(k: Sextet): char {
    if k < 26 then 'A' + k as char
    else if k < 52 then 'a' + (k - 26) as char
    else if k < 62 then '0' + (k - 52) as char
    else if k == 62 then '-' else '_'
  }

  /** The class `[A-Za-z0-9_-]`. */
  predicate IsSymbol(c: char) {
    'A' <= c <= 'Z' || 'a' <= c <= 'z' || '0' <= c <= '9' || c == '-' || c == '_'
  }

  function Value(c: char): (k: Sextet)
    requires IsSymbol(c)
    ensures Symbol(k) == c
  {
    if 'A' <= c <= 'Z' then c as int - 'A' as int
    else if 'a' <= c <= 'z' then c as int - 'a' as int + 26
    else if '0' <= c <= '9' then c as int - '0' as int + 52
    else if c == '-' then 62 else 63
  }

  lemma ValueOfSymbol(k: Sextet)
    ensures IsSymbol(Symbol(k)) && Value(Symbol(k)) == k && Symbol(k) != '='
  {
    if k < 26 {
      assert 'A' <= Symbol(k) <= 'Z';
    } else if k < 52 {
      assert 'a' <= Symbol(k) <= 'z';
    } else if k < 62 {
      assert '0' <= Symbol(k) <= '9';
    }
  }

  /** `base64.urlsafe_b64encode`. */
  function EncodePadded(bs: seq<Byte>): string {
    if bs == [] then ""
    else if |bs| == 1 then [Symbol(bs[0] / 4), Symbol(bs[0] % 4 * 16), '=', '=']
    else if |bs| == 2 then [Symbol(bs[0] / 4), Symbol(bs[0] % 4 * 16 + bs[1] / 16), Symbol(bs[1] % 16 * 4), '=']
    else Quad(bs[0], bs[1], bs[2]) + EncodePadded(bs[3..])
  }

  function Quad(a: Byte, b: Byte, c: Byte): string {
    [Symbol(a / 4), Symbol(a % 4 * 16 + b / 16), Symbol(b % 16 * 4 + c / 64), Symbol(c % 64)]
  }

  /** `rstrip(b"=")`. */
  function StripPadding(s: string): string {
    if s != "" && s[|s| - 1] == '=' then StripPadding(s[..|s| - 1]) else s
  }

  function Encode(bs: seq<Byte>): string {
    StripPadding(EncodePadded(bs))
  }

  function Padding(n: nat): string {
    if n == 0 then "" else "=" + Padding(n - 1)
  }

  /** The padding put back before decoding: `s + "=" * (-len(s) % 4)`. */
  function Repad(s: string): string {
    s + Padding(-|s| % 4)
  }

  /** `base64.urlsafe_b64decode` on well-formed text: groups of four symbols, only the
      last of which may be padded. */
  function Decode(s: string): Option<seq<Byte>> {
    if s == "" then Some([])
    else if |s| < 4 then None
    else if |s| == 4 && s[3] == '=' then DecodeLast(s)
    else
      match (DecodeGroup(s[..4]), Decode(s[4..]))
      case (Some(bytes), Some(rest)) => Some(bytes + rest)
      case _ => None
  }

  function DecodeGroup(g: string): Option<seq<Byte>>
    requires |g| == 4
  {
    if forall i | 0 <= i < 4 :: IsSymbol(g[i]) then
      var a, b, c, d := Value(g[0]), Value(g[1]), Value(g[2]), Value(g[3]);
      Some([a * 4 + b / 16, b % 16 * 16 + c / 4, c % 4 * 64 + d])
    else None
  }

  /** The last group, padded: one byte or two. */
  function DecodeLast(g: string): Option<seq<Byte>>
    requires |g| == 4
  {
    if !IsSymbol(g[0]) || !IsSymbol(g[1]) then None
    else
      var first := Value(g[0]) * 4 + Value(g[1]) / 16;
      if g[2] == '=' then Some([first])
      else if IsSymbol(g[2]) then Some([first, Value(g[1]) % 16 * 16 + Value(g[2]) / 4])
      else None
  }

  lemma QuadArithmetic(a: Byte, b: Byte, c: Byte)
    ensures var second, third := a % 4 * 16 + b / 16, b % 16 * 4 + c / 64;
            a / 4 * 4 + second / 16 == a && second % 16 * 16 + third / 4 == b && third % 4 * 64 + c % 64 == c
  {
  }

  lemma QuadGroup(a: Byte, b: Byte, c: Byte)
    ensures DecodeGroup(Quad(a, b, c)) == Some([a, b, c]) && IsSymbol(Quad(a, b, c)[3])
  {
    ValueOfSymbol(a / 4);
    ValueOfSymbol(a % 4 * 16 + b / 16);
    ValueOfSymbol(b % 16 * 4 + c / 64);
    ValueOfSymbol(c % 64);
    QuadArithmetic(a, b, c);
  }

  lemma QuadDecodes(a: Byte, b: Byte, c: Byte, rest: string)
    ensures Decode(Quad(a, b, c) + rest)
         == match Decode(rest) case None => None case Some(bs) => Some([a, b, c] + bs)
  {
    var s := Quad(a, b, c) + rest;
    QuadGroup(a, b, c);
    assert s[..4] == Quad(a, b, c) && s[4..] == rest;
  }

  lemma OneByteDecodes(a: Byte)
    ensures Decode(EncodePadded([a])) == Some([a])
  {
    var high, low := a / 4, a % 4 * 16;
    ValueOfSymbol(high);
    ValueOfSymbol(low);
    assert low / 16 == a % 4;
    assert EncodePadded([a]) == [Symbol(high), Symbol(low), '=', '='];
  }

  lemma TwoByteArithmetic(a: Byte, b: Byte, mid: Sextet, low: Sextet)
    requires mid == a % 4 * 16 + b / 16 && low == b % 16 * 4
    ensures a / 4 * 4 + mid / 16 == a && mid % 16 * 16 + low / 4 == b
  {
    assert mid / 16 == a % 4 && mid % 16 == b / 16;
    assert low / 4 == b % 16;
  }

  lemma TwoBytesDecode(a: Byte, b: Byte)
    ensures Decode(EncodePadded([a, b])) == Some([a, b])
  {
    var high: Sextet, mid: Sextet, low: Sextet := a / 4, a % 4 * 16 + b / 16, b % 16 * 4;
    ValueOfSymbol(high);
    ValueOfSymbol(mid);
    ValueOfSymbol(low);
    TwoByteArithmetic(a, b, mid, low);
    assert EncodePadded([a, b]) == [Symbol(high), Symbol(mid), Symbol(low), '='];
  }

  lemma {:induction false} DecodeEncodePadded(bs: seq<Byte>)
    ensures Decode(EncodePadded(bs)) == Some(bs)
  {
    if |bs| == 1 {
      assert bs == [bs[0]];
      OneByteDecodes(bs[0]);
    } else if |bs| == 2 {
      assert bs == [bs[0], bs[1]];
      TwoBytesDecode(bs[0], bs[1]);
    } else if |bs| > 2 {
      DecodeEncodePadded(bs[3..]);
      QuadStarts(bs, bs[3..]);
    }
  }

  lemma QuadStarts(bs: seq<Byte>, rest: seq<Byte>)
    requires |bs| > 2 && rest == bs[3..] && Decode(EncodePadded(rest)) == Some(rest)
    ensures Decode(EncodePadded(bs)) == Some(bs)
  {
    QuadDecodes(bs[0], bs[1], bs[2], EncodePadded(rest));
    assert EncodePadded(bs) == Quad(bs[0], bs[1], bs[2]) + EncodePadded(rest);
    assert bs == [bs[0], bs[1], bs[2]] + rest;
  }

  /** Stripping removes exactly the padding: what is left is all symbols, as long as
      four symbols for three bytes need, and padding it again gives the padded text. */
  lemma {:induction false} EncodeShape(bs: seq<Byte>)
    ensures forall i | 0 <= i < |Encode(bs)| :: IsSymbol(Encode(bs)[i])
    ensures |Encode(bs)| == (|bs| * 4 + 2) / 3
    ensures Repad(Encode(bs)) == EncodePadded(bs)
  {
    var body, padding := PaddedSplits(bs);
    StripExactly(body, padding);
    assert Encode(bs) == body;
  }

  lemma TailSplits(bs: seq<Byte>) returns (body: string)
    requires 1 <= |bs| <= 2
    ensures |body| == |bs| + 1 && EncodePadded(bs) == body + Padding(3 - |bs|)
    ensures forall i | 0 <= i < |body| :: IsSymbol(body[i])
  {
    assert Padding(1) == "=" && Padding(2) == "==";
    ValueOfSymbol(bs[0] / 4);
    if |bs| == 1 {
      ValueOfSymbol(bs[0] % 4 * 16);
      body := [Symbol(bs[0] / 4), Symbol(bs[0] % 4 * 16)];
    } else {
      ValueOfSymbol(bs[0] % 4 * 16 + bs[1] / 16);
      ValueOfSymbol(bs[1] % 16 * 4);
      body := [Symbol(bs[0] / 4), Symbol(bs[0] % 4 * 16 + bs[1] / 16), Symbol(bs[1] % 16 * 4)];
    }
  }

  lemma QuadIsSymbols(a: Byte, b: Byte, c: Byte)
    ensures forall i | 0 <= i < 4 :: IsSymbol(Quad(a, b, c)[i])
  {
    ValueOfSymbol(a / 4);
    ValueOfSymbol(a % 4 * 16 + b / 16);
    ValueOfSymbol(b % 16 * 4 + c / 64);
    ValueOfSymbol(c % 64);
  }

  lemma LengthStep(n: nat, length: int)
    requires length == (n * 4 + 2) / 3
    ensures length + 4 == ((n + 3) * 4 + 2) / 3 && -(length + 4) % 4 == -length % 4
  {
  }

  /** The padded text is a body of symbols, of the length the bytes need, and padding. */
  predicate Splits(bs: seq<Byte>, body: string, padding: nat) {
    && EncodePadded(bs) == body + Padding(padding)
    && (forall i | 0 <= i < |body| :: IsSymbol(body[i]))
    && |body| == (|bs| * 4 + 2) / 3 && padding == -|body| % 4
  }

  lemma QuadSplits(bs: seq<Byte>, rest: string, padding: nat)
    requires |bs| > 2 && Splits(bs[3..], rest, padding)
    ensures Splits(bs, Quad(bs[0], bs[1], bs[2]) + rest, padding)
  {
    var quad := Quad(bs[0], bs[1], bs[2]);
    QuadIsSymbols(bs[0], bs[1], bs[2]);
    assert quad + (rest + Padding(padding)) == (quad + rest) + Padding(padding);
    LengthStep(|bs| - 3, |rest|);
  }

  lemma {:induction false} PaddedSplits(bs: seq<Byte>) returns (body: string, padding: nat)
    ensures Splits(bs, body, padding)
  {
    if bs == [] {
      body, padding := "", 0;
    } else if |bs| <= 2 {
      body := TailSplits(bs);
      padding := 3 - |bs|;
    } else {
      body, padding := PaddedSplits(bs[3..]);
      QuadSplits(bs, body, padding);
      body := Quad(bs[0], bs[1], bs[2]) + body;
    }
  }

  lemma {:induction false} StripExactly(body: string, n: nat)
    requires forall i | 0 <= i < |body| :: IsSymbol(body[i])
    ensures StripPadding(body + Padding(n)) == body
  {
    if n == 0 {
      assert body + Padding(0) == body;
    } else {
      PaddingGrows(n - 1);
      var s := body + Padding(n);
      assert s[..|s| - 1] == body + Padding(n - 1);
      StripExactly(body, n - 1);
    }
  }

  lemma {:induction false} PaddingGrows(n: nat)
    ensures Padding(n + 1) == Padding(n) + "="
  {
    if n > 0 {
      PaddingGrows(n - 1);
    }
  }

  /** Encoding without padding is undone by padding to a multiple of four and
      decoding, for every byte string. */
  lemma RoundTrip(bs: seq<Byte>)
    ensures Decode(Repad(Encode(bs))) == Some(bs)
  {
    EncodeShape(bs);
    DecodeEncodePadded(bs);
  }

  lemma EncodeInjective(a: seq<Byte>, b: seq<Byte>)
    ensures Encode(a) == Encode(b) <==> a == b
  {
    RoundTrip(a);
    RoundTrip(b);
  }

  // ----- the text, symbol by symbol -----

  /** RFC 4648, table 2: the capitals, the small letters and the digits in their order,
      then the two that are safe in a URL. */
  lemma Alphabet(k: Sextet)
    ensures Symbol(0) == 'A' && Symbol(26) == 'a' && Symbol(52) == '0' && Symbol(62) == '-' && Symbol(63) == '_'
    ensures k !in {25, 51, 61, 62, 63} ==> Symbol(k + 1) as int == Symbol(k) as int + 1
  {
  }

  /** Bit `i` of the bytes, the most significant of each byte first, and zeros after them. */
  function Bit(bs: seq<Byte>, i: nat): int {
    if i / 8 >= |bs| then 0 else BitOf(bs[i / 8], i % 8)
  }

  function BitOf(b: Byte, k: nat): int
    requires k < 8
  {
    if k == 0 then b / 128 % 2 else if k == 1 then b / 64 % 2 else if k == 2 then b / 32 % 2
    else if k == 3 then b / 16 % 2 else if k == 4 then b / 8 % 2 else if k == 5 then b / 4 % 2
    else if k == 6 then b / 2 % 2 else b % 2
  }

  /** Six bits as a number, the first the most significant. */
  function SextetAt(bs: seq<Byte>, i: nat): int {
    32 * Bit(bs, 6 * i) + 16 * Bit(bs, 6 * i + 1) + 8 * Bit(bs, 6 * i + 2)
    + 4 * Bit(bs, 6 * i + 3) + 2 * Bit(bs, 6 * i + 4) + Bit(bs, 6 * i + 5)
  }

  /** The high, middle and low parts of a byte in its bits. */
  lemma HighBits(b: Byte)
    ensures b / 64 == 2 * BitOf(b, 0) + BitOf(b, 1)
    ensures b / 16 == 4 * (b / 64) + 2 * BitOf(b, 2) + BitOf(b, 3)
    ensures b / 4 == 4 * (b / 16) + 2 * BitOf(b, 4) + BitOf(b, 5)
  {
    Halves(b / 32, b / 64, b / 128);
    Halves(b / 8, b / 16, b / 32);
    Halves(b / 2, b / 4, b / 8);
  }

  lemma LowBits(b: Byte)
    ensures b % 4 == 2 * BitOf(b, 6) + BitOf(b, 7)
    ensures b % 16 == 4 * (2 * BitOf(b, 4) + BitOf(b, 5)) + b % 4
    ensures b % 64 == 16 * (2 * BitOf(b, 2) + BitOf(b, 3)) + b % 16
  {
    HighBits(b);
    assert b % 4 == b - 4 * (b / 4) && b % 16 == b - 16 * (b / 16) && b % 64 == b - 64 * (b / 64);
  }

  lemma Halves(a: nat, b: nat, c: nat)
    requires b == a / 2 && c == b / 2
    ensures a == 2 * b + a % 2 && b == 2 * c + b % 2
  {
  }

  /** The text before its padding. */
  function Body(bs: seq<Byte>): string {
    if bs == [] then ""
    else if |bs| == 1 then [Symbol(bs[0] / 4), Symbol(bs[0] % 4 * 16)]
    else if |bs| == 2 then [Symbol(bs[0] / 4), Symbol(bs[0] % 4 * 16 + bs[1] / 16), Symbol(bs[1] % 16 * 4)]
    else Quad(bs[0], bs[1], bs[2]) + Body(bs[3..])
  }

  lemma {:induction false} EncodeIsBody(bs: seq<Byte>)
    ensures Encode(bs) == Body(bs)
  {
    var n := BodyPadded(bs);
    BodySymbols(bs);
    StripExactly(Body(bs), n);
  }

  lemma {:induction false} BodyPadded(bs: seq<Byte>) returns (n: nat)
    ensures EncodePadded(bs) == Body(bs) + Padding(n)
  {
    assert Padding(0) == "" && Padding(1) == "=" && Padding(2) == "==";
    if bs == [] {
      n := 0;
    } else if |bs| <= 2 {
      n := 3 - |bs|;
    } else {
      n := BodyPadded(bs[3..]);
      assert Quad(bs[0], bs[1], bs[2]) + (Body(bs[3..]) + Padding(n)) == Body(bs) + Padding(n);
    }
  }

  lemma {:induction false} BodySymbols(bs: seq<Byte>)
    ensures forall i | 0 <= i < |Body(bs)| :: IsSymbol(Body(bs)[i])
  {
    if 1 <= |bs| <= 2 {
      ValueOfSymbol(bs[0] / 4);
      if |bs| == 1 {
        ValueOfSymbol(bs[0] % 4 * 16);
      } else {
        ValueOfSymbol(bs[0] % 4 * 16 + bs[1] / 16);
        ValueOfSymbol(bs[1] % 16 * 4);
      }
    } else if |bs| > 2 {
      QuadIsSymbols(bs[0], bs[1], bs[2]);
      BodySymbols(bs[3..]);
    }
  }

  lemma FirstSextet(bs: seq<Byte>)
    requires |bs| >= 1
    ensures SextetAt(bs, 0) == bs[0] / 4
  {
    HighBits(bs[0]);
    assert Bit(bs, 0) == BitOf(bs[0], 0) && Bit(bs, 1) == BitOf(bs[0], 1) && Bit(bs, 2) == BitOf(bs[0], 2);
    assert Bit(bs, 3) == BitOf(bs[0], 3) && Bit(bs, 4) == BitOf(bs[0], 4) && Bit(bs, 5) == BitOf(bs[0], 5);
  }

  lemma SecondSextet(bs: seq<Byte>)
    requires |bs| >= 1
    ensures SextetAt(bs, 1) == bs[0] % 4 * 16 + (if |bs| > 1 then bs[1] / 16 else 0)
  {
    LowBits(bs[0]);
    assert Bit(bs, 6) == BitOf(bs[0], 6) && Bit(bs, 7) == BitOf(bs[0], 7);
    if |bs| > 1 {
      HighBits(bs[1]);
      assert Bit(bs, 8) == BitOf(bs[1], 0) && Bit(bs, 9) == BitOf(bs[1], 1);
      assert Bit(bs, 10) == BitOf(bs[1], 2) && Bit(bs, 11) == BitOf(bs[1], 3);
    }
  }

  lemma ThirdSextet(bs: seq<Byte>)
    requires |bs| >= 2
    ensures SextetAt(bs, 2) == bs[1] % 16 * 4 + (if |bs| > 2 then bs[2] / 64 else 0)
  {
    LowBits(bs[1]);
    assert Bit(bs, 12) == BitOf(bs[1], 4) && Bit(bs, 13) == BitOf(bs[1], 5);
    assert Bit(bs, 14) == BitOf(bs[1], 6) && Bit(bs, 15) == BitOf(bs[1], 7);
    if |bs| > 2 {
      HighBits(bs[2]);
      assert Bit(bs, 16) == BitOf(bs[2], 0) && Bit(bs, 17) == BitOf(bs[2], 1);
    }
  }

  lemma FourthSextet(bs: seq<Byte>)
    requires |bs| >= 3
    ensures SextetAt(bs, 3) == bs[2] % 64
  {
    LowBits(bs[2]);
    assert Bit(bs, 18) == BitOf(bs[2], 2) && Bit(bs, 19) == BitOf(bs[2], 3) && Bit(bs, 20) == BitOf(bs[2], 4);
    assert Bit(bs, 21) == BitOf(bs[2], 5) && Bit(bs, 22) == BitOf(bs[2], 6) && Bit(bs, 23) == BitOf(bs[2], 7);
  }

  lemma FirstSextets(bs: seq<Byte>, i: nat)
    requires bs != [] && i < 4 && i < |Body(bs)|
    ensures 0 <= SextetAt(bs, i) < 64 && Body(bs)[i] == Symbol(SextetAt(bs, i))
  {
    if i == 0 {
      FirstSextet(bs);
    } else if i == 1 {
      SecondSextet(bs);
    } else if i == 2 {
      ThirdSextet(bs);
    } else {
      FourthSextet(bs);
    }
  }

  lemma BitsShift(bs: seq<Byte>, i: nat)
    requires |bs| > 2 && i >= 4
    ensures SextetAt(bs, i) == SextetAt(bs[3..], i - 4)
  {
    forall n | 6 * i <= n < 6 * i + 6
      ensures Bit(bs, n) == Bit(bs[3..], n - 24)
    {
      BitShift(bs, n);
    }
  }

  lemma BitShift(bs: seq<Byte>, n: nat)
    requires |bs| > 2 && n >= 24
    ensures Bit(bs, n) == Bit(bs[3..], n - 24)
  {
    assert n / 8 == (n - 24) / 8 + 3 && n % 8 == (n - 24) % 8;
  }

  lemma {:induction false} BodyReadsBits(bs: seq<Byte>, i: nat)
    requires i < |Body(bs)|
    ensures 0 <= SextetAt(bs, i) < 64 && Body(bs)[i] == Symbol(SextetAt(bs, i))
  {
    if i < 4 {
      FirstSextets(bs, i);
    } else {
      assert |bs| > 2 && Body(bs)[i] == Body(bs[3..])[i - 4];
      BodyReadsBits(bs[3..], i - 4);
      BitsShift(bs, i);
    }
  }

  /** RFC 4648, section 5: symbol i of the text is that of bits 6i to 6i + 5 of the bytes. */
  lemma EncodeReadsBits(bs: seq<Byte>, i: nat)
    requires i < |Encode(bs)|
    ensures 0 <= SextetAt(bs, i) < 64 && Encode(bs)[i] == Symbol(SextetAt(bs, i))
  {
    EncodeIsBody(bs);
    BodyReadsBits(bs, i);
  }

  /** And there are as many symbols as it takes for all the bits, and no more. */
  lemma EncodeLength(bs: seq<Byte>)
    ensures 6 * (|Encode(bs)| - 1) < 8 * |bs| <= 6 * |Encode(bs)| || bs == []
    ensures bs == [] ==> Encode(bs) == ""
  {
    EncodeShape(bs);
  }

  // ----- PKCE challenges -----

  /** The pattern `/authorize` demands of a challenge. */
  predicate IsChallenge(s: string) {
    |s| == 43 && forall i | 0 <= i < |s| :: IsSymbol(s[i])
  }

  /** Every SHA-256 digest makes a challenge the pattern accepts, and two digests make
      the same challenge only when they are the same digest. */
  lemma DigestChallenge(digest: seq<Byte>, other: seq<Byte>)
    requires |digest| == 32
    ensures IsChallenge(Encode(digest))
    ensures Encode(digest) == Encode(other) <==> digest == other
  {
    EncodeShape(digest);
    EncodeInjective(digest, other);
  }

  // ----- integers in the JWKS -----

  function BitLength(n: nat): nat {
    if n == 0 then 0 else 1 + BitLength(n / 2)
  }

  /** `n.to_bytes(length, "big")`, which fails on a number too big for the length. */
  function ToBytes(n: nat, length: nat): Option<seq<Byte>> {
    if length == 0 then if n == 0 then Some([]) else None
    else
      match ToBytes(n / 256, length - 1)
      case None => None
      case Some(high) => Some(high + [n % 256])
  }

  function FromBytes(bs: seq<Byte>): nat {
    if bs == [] then 0 else FromBytes(bs[..|bs| - 1]) * 256 + bs[|bs| - 1]
  }

  function OctetsNeeded(n: nat): nat {
    (BitLength(n) + 7) / 8
  }

  lemma BitLengthQuarter(n: nat)
    ensures if n < 4 then BitLength(n) <= 2 else BitLength(n) == 2 + BitLength(n / 4)
  {
    assert n / 2 / 2 == n / 4;
    assert BitLength(n / 2) == if n / 2 == 0 then 0 else 1 + BitLength(n / 4);
  }

  lemma OctetsStep(n: nat)
    requires n > 0
    ensures OctetsNeeded(n) == OctetsNeeded(n / 256) + 1
  {
    var a, b, c := n / 4, n / 16, n / 64;
    assert a / 4 == b && b / 4 == c && c / 4 == n / 256;
    BitLengthQuarter(n);
    BitLengthQuarter(a);
    BitLengthQuarter(b);
    BitLengthQuarter(c);
    assert BitLength(0) == 0;
  }

  /** The length the code asks for always fits, gives back the number, and spends no
      octet on a leading zero. */
  lemma {:induction false} MinimalOctets(n: nat)
    ensures var bs := ToBytes(n, OctetsNeeded(n));
            bs.Some? && FromBytes(bs.value) == n && (n > 0 ==> bs.value != [] && bs.value[0] != 0)
  {
    if n > 0 {
      OctetsStep(n);
      MinimalOctets(n / 256);
      var high := ToBytes(n / 256, OctetsNeeded(n / 256)).value;
      var bs := high + [n % 256];
      assert bs[..|bs| - 1] == high;
    } else {
      assert OctetsNeeded(0) == 0;
    }
  }

  /** `b64u` inside `get_jwks`. */
  function B64u(n: nat): string {
    var bs := ToBytes(n, OctetsNeeded(n));
    if bs.Some? then Encode(bs.value) else ""
  }

  /** A published modulus or exponent decodes to the number it stands for, as the
      minimal octet string (RFC 7518 sections 2 and 6.3.1.1). */
  lemma B64uDecodes(n: nat)
    requires n > 0
    ensures var bs := Decode(Repad(B64u(n)));
            bs.Some? && FromBytes(bs.value) == n && bs.value != [] && bs.value[0] != 0
  {
    MinimalOctets(n);
    RoundTrip(ToBytes(n, OctetsNeeded(n)).value);
  }
}
