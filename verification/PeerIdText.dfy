/**
 Peer ids as text (crates/identity/src/peer_id.rs): legacy base58btc, CIDv1 in base32 or
 base58btc, and the dispatch of `FromStr` between them.
 */
module PeerIdText {
  import opened Bytes
  import opened Radix
  import V = Varint
  import Base58
  import Base32
  import M = Multiaddr

  const LIBP2P_KEY: U64 := 0x72

  datatype ParseError =
    | EmptyInput
    | UnsupportedMultibase(prefix: char)
    | BadBase58(text: Base58.TextError)
    | BadBase32(digit: Base32.TextError)
    | InvalidCidVersion(version: V.VarintError)
    | InvalidCidMulticodec(codec: V.VarintError)
    | UnsupportedCidVersion(found: nat)
    | UnsupportedMulticodec(value: nat)
    | BadPeer(peer: M.PeerIdError)

  function ToBase58(p: M.PeerId): string {
    Base58.Encode(M.PeerBytes(p))
  }

  function CidBytes(p: M.PeerId): seq<Byte> {
    V.Encode(1) + (V.Encode(LIBP2P_KEY) + M.PeerBytes(p))
  }

  function ToCidBase32(p: M.PeerId): string {
    "b" + Base32.Encode(CidBytes(p))
  }

  function FromPeerBytes(bytes: seq<Byte>): Result<M.PeerId, ParseError> {
    match M.PeerFromBytes(bytes)
    case Err(e) => Err(BadPeer(e))
    case Ok(p) => Ok(p)
  }

  function FromBase58(s: string): Result<M.PeerId, ParseError> {
    match Base58.Decode(s)
    case Err(e) => Err(BadBase58(e))
    case Ok(bytes) => FromPeerBytes(bytes)
  }

  function FromCidBytes(cid: seq<Byte>): Result<M.PeerId, ParseError> {
    match V.Read(cid)
    case Err(e) => Err(InvalidCidVersion(e))
    case Ok(version) =>
      if version.value != 1 then Err(UnsupportedCidVersion(version.value))
      else
        var rest := cid[version.used..];
        match V.Read(rest)
        case Err(e) => Err(InvalidCidMulticodec(e))
        case Ok(codec) =>
          if codec.value != LIBP2P_KEY then Err(UnsupportedMulticodec(codec.value))
          else FromPeerBytes(rest[codec.used..])
  }

  function FromCid(s: string): Result<M.PeerId, ParseError> {
    if s == [] then Err(EmptyInput)
    else if s[0] == 'b' || s[0] == 'B' then
      match Base32.Decode(s[1..])
      case Err(e) => Err(BadBase32(e))
      case Ok(cid) => FromCidBytes(cid)
    else if s[0] == 'z' then
      match Base58.Decode(s[1..])
      case Err(e) => Err(BadBase58(e))
      case Ok(cid) => FromCidBytes(cid)
    else Err(UnsupportedMultibase(s[0]))
  }

  predicate LooksLegacy(s: string) {
    s != [] && (s[0] == '1' || (|s| >= 2 && s[0] == 'Q' && s[1] == 'm'))
  }

  /** `PeerId::from_str`. */
  function FromStr(s: string): Result<M.PeerId, ParseError> {
    if LooksLegacy(s) then FromBase58(s) else FromCid(s)
  }

  lemma CidBytesRoundTrip(p: M.PeerId)
    requires M.ValidPeer(p)
    ensures FromCidBytes(CidBytes(p)) == Ok(p)
  {
    V.ReadEncode(1, V.Encode(LIBP2P_KEY) + M.PeerBytes(p));
    V.ReadEncode(LIBP2P_KEY, M.PeerBytes(p));
    M.PeerRoundTrip(p);
  }

  /** The CID form of every peer id parses back. */
  lemma CidRoundTrip(p: M.PeerId)
    requires M.ValidPeer(p)
    ensures FromStr(ToCidBase32(p)) == Ok(p)
  {
    hide CidBytes, FromCidBytes, Base32.Encode, Base32.Decode, Base58.Decode;
    var s := ToCidBase32(p);
    assert s[0] == 'b' && s[1..] == Base32.Encode(CidBytes(p));
    Base32.DecodeEncode(CidBytes(p));
    CidBytesRoundTrip(p);
  }

  lemma Base58RoundTrip(p: M.PeerId)
    requires M.ValidPeer(p)
    ensures FromBase58(ToBase58(p)) == Ok(p)
  {
    Base58.DecodeEncode(M.PeerBytes(p));
    M.PeerRoundTrip(p);
  }

  // ---- the two kinds of peer id that keys produce ----

  lemma IdentityStartsWithOne(p: M.PeerId)
    requires M.ValidPeer(p) && p.code == 0
    ensures ToBase58(p) != [] && ToBase58(p)[0] == '1'
  {
    assert M.PeerBytes(p)[0] == 0;
  }

  /** A number that starts with the bytes 0x12 0x20 and has 32 more lies in a narrow range. */
  lemma Sha256Range(body: seq<nat>)
    requires |body| == 34 && Digits(body, 256) && body[0] == 0x12 && body[1] == 0x20
    ensures 0x1220 * Pow(256, 32) <= BigEndian(body, 256) < 0x1221 * Pow(256, 32)
  {
    BigEndianSplit(body, 2, 256);
    var head := body[..2];
    assert head[..1] == [0x12] && [0x12][..0] == [];
    assert BigEndian(head, 256) == BigEndian(head[..1], 256) * 256 + 0x20;
    assert BigEndian([0x12], 256) == BigEndian([], 256) * 256 + 0x12;
    assert BigEndian(head, 256) == 0x1220;
    BigEndianBound(body[2..], 256);
  }

  lemma {:induction false} BigEndianSplit(s: seq<nat>, k: nat, base: nat)
    requires k <= |s|
    ensures BigEndian(s, base) == BigEndian(s[..k], base) * Pow(base, |s| - k) + BigEndian(s[k..], base)
    decreases |s| - k
  {
    if k == |s| {
      assert s[..k] == s;
    } else {
      var n := |s| - 1;
      var init := s[..n];
      BigEndianSplit(init, k, base);
      assert init[..k] == s[..k] && init[k..] == s[k..][..n - k] && s[k..][n - k] == s[n];
      SplitShift(BigEndian(s[..k], base), Pow(base, n - k), BigEndian(init[k..], base), base, s[n]);
    }
  }

  lemma SplitShift(high: nat, pow: nat, low: nat, base: nat, d: nat)
    ensures (high * pow + low) * base + d == high * (base * pow) + (low * base + d)
  {
    assert (high * pow) * base == high * (base * pow);
  }

  lemma {:induction false} BigEndianBound(s: seq<nat>, base: nat)
    requires Digits(s, base)
    ensures BigEndian(s, base) < Pow(base, |s|)
  {
    if s != [] {
      var init := s[..|s| - 1];
      BigEndianBound(init, base);
      MulMonotone(BigEndian(init, base) + 1, Pow(base, |init|), base);
      Successor(BigEndian(init, base), base);
      assert BigEndian(init, base) * base == base * BigEndian(init, base);
    }
  }

  lemma PowSquares(base: nat)
    ensures Pow(base, 8) == Pow(base, 4) * Pow(base, 4)
    ensures Pow(base, 16) == Pow(base, 8) * Pow(base, 8)
    ensures Pow(base, 32) == Pow(base, 16) * Pow(base, 16)
  {
    hide Pow;
    PowAdd(base, 4, 4);
    PowAdd(base, 8, 8);
    PowAdd(base, 16, 16);
  }

  lemma PowFour()
    ensures Pow(58, 4) == 11316496 && Pow(256, 4) == 0x1_0000_0000
  {
  }

  lemma QmRange()
    ensures 1378 * Pow(58, 44) <= 0x1220 * Pow(256, 32)
    ensures 0x1221 * Pow(256, 32) <= 1379 * Pow(58, 44)
  {
    hide Pow;
    PowFour();
    PowSquares(58);
    PowSquares(256);
    PowAdd(58, 32, 8);
    PowAdd(58, 40, 4);
    assert Pow(58, 44) == 389790918707373377135528568990913592653094657612049369038476873218241589149696;
    assert Pow(256, 32) == 0x1_0000000000000000_0000000000000000_0000000000000000_0000000000000000;
  }

  /** Every sha2-256 peer id prints as `Qm...`. */
  lemma Sha256StartsWithQm(p: M.PeerId)
    requires M.ValidPeer(p) && p.code == M.SHA256_CODE
    ensures |ToBase58(p)| >= 2 && ToBase58(p)[0] == 'Q' && ToBase58(p)[1] == 'm'
  {
    hide Pow, BigEndian, Convert, Value, M.PeerBytes;
    var body := M.PeerBytes(p);
    Sha256Bytes(p);
    Sha256Range(body);
    QmRange();
    var d := Convert(body, 256, 58);
    ConvertValue(body, 256, 58);
    ConvertCanonical(body, 256, 58);
    QmValue();
    LeadingDigits(d, 44, [44, 23], 58);
    assert d[45] == d[44..][1] == 23 && d[44] == d[44..][0] == 44;
    Base58.LeadingZerosIs(body, 0);
    assert body[0..] == body;
    assert Base58.Letter(23) == 'Q' && Base58.Letter(44) == 'm';
  }

  lemma Sha256Bytes(p: M.PeerId)
    requires M.ValidPeer(p) && p.code == M.SHA256_CODE
    ensures var body := M.PeerBytes(p); |body| == 34 && body[0] == 0x12 && body[1] == 0x20
  {
    assert V.Encode(0x12) == [0x12] && V.Encode(0x20) == [0x20];
  }

  lemma QmValue()
    ensures Value([44, 23], 58) == 1378
  {
    assert [44, 23][1..] == [23] && [23][1..] == [];
    assert Value([23], 58) == 23;
  }

  /** Display then FromStr returns the same peer id for every id made from a public key. */
  lemma DisplayRoundTrip(p: M.PeerId)
    requires M.ValidPeer(p) && (p.code == 0 || p.code == M.SHA256_CODE)
    ensures FromStr(ToBase58(p)) == Ok(p)
  {
    Base58RoundTrip(p);
    if p.code == 0 {
      IdentityStartsWithOne(p);
    } else {
      Sha256StartsWithQm(p);
    }
  }

  // ---- any other multihash code ----

  /** A parsed CID is two bytes longer than the peer id in it. */
  lemma CidIsLonger(cid: seq<Byte>, p: M.PeerId)
    requires FromCidBytes(cid) == Ok(p)
    ensures |cid| == |M.PeerBytes(p)| + 2 && cid[0] == 1
  {
    V.ReadCanonical(cid);
    assert V.Encode(1) == [1] && V.Encode(LIBP2P_KEY) == [LIBP2P_KEY];
    V.ReadCanonical(cid[1..]);
    M.PeerExact(cid[2..]);
    assert cid[1..][1..] == cid[2..];
  }

  /** The digits of a text that does not start with `1`. */
  lemma TextDigits(bytes: seq<Byte>)
    requires bytes != [] && Base58.Encode(bytes) != [] && Base58.Encode(bytes)[0] != '1'
    ensures var d := Reverse(Convert(bytes, 256, 58));
            && Digits(d, 58) && d != [] && d[0] != 0 && Base58.Encode(bytes) == Base58.Letters(d)
  {
    var z := Base58.LeadingZeros(bytes);
    assert z == 0;
    assert bytes[0..] == bytes;
    ConvertValue(bytes, 256, 58);
    ConvertCanonical(bytes, 256, 58);
    hide Convert;
    var d := Reverse(Convert(bytes, 256, 58));
    Base58.ReverseDigits(Convert(bytes, 256, 58), 58);
    assert Base58.Repeat('1', 0) + Base58.Letters(d) == Base58.Letters(d);
  }

  lemma OneDigit(x: nat, base: nat)
    ensures BigEndian([x], base) == x
  {
    assert [x][..0] == [];
    assert BigEndian([], base) * base == 0;
  }

  /** A number is at least the place value of its first digit, on top of the rest. */
  lemma FirstDigit(d: seq<nat>, base: nat)
    requires d != [] && d[0] != 0
    ensures BigEndian(d, base) >= Pow(base, |d| - 1) + BigEndian(d[1..], base)
  {
    hide BigEndian, Pow;
    BigEndianSplit(d, 1, base);
    assert d[..1] == [d[0]];
    OneDigit(d[0], base);
    MulMonotone(1, d[0], Pow(base, |d| - 1));
  }

  lemma TextNumber(bytes: seq<Byte>)
    requires bytes != [] && Base58.Encode(bytes) != [] && Base58.Encode(bytes)[0] != '1'
    ensures var d := Reverse(Convert(bytes, 256, 58));
            d != [] && Pow(58, |d| - 1) + BigEndian(d[1..], 58) < Pow(256, |bytes|)
  {
    hide Convert, Base58.Encode, Base58.Letters, Pow, BigEndian, Value;
    TextDigits(bytes);
    var c := Convert(bytes, 256, 58);
    ConvertValue(bytes, 256, 58);
    BigEndianReverse(c, 58);
    BigEndianBound(bytes, 256);
    FirstDigit(Reverse(c), 58);
  }

  lemma CidNumber(cid: seq<Byte>)
    requires cid != [] && cid[0] == 1
    ensures BigEndian(cid, 256) >= Pow(256, |cid| - 1)
  {
    FirstDigit(cid, 256);
  }

  lemma CidInside(s: string, p: M.PeerId)
    requires FromCid(s) == Ok(p)
    ensures s != []
    ensures s[0] == 'z' ==> Base58.Decode(s[1..]).Ok? && FromCidBytes(Base58.Decode(s[1..]).value) == Ok(p)
    ensures s[0] != 'z' ==> Base32.Decode(s[1..]).Ok? && FromCidBytes(Base32.Decode(s[1..]).value) == Ok(p)
  {
    hide FromCidBytes, Base58.Decode, Base32.Decode;
  }

  lemma PeerBytesNonEmpty(p: M.PeerId)
    ensures |M.PeerBytes(p)| >= 1
  {
  }

  /** A base58 CID would be a larger number than the text it is part of. */
  lemma NoBase58Cid(p: M.PeerId)
    requires M.ValidPeer(p) && ToBase58(p) != [] && ToBase58(p)[0] == 'z'
    ensures FromCid(ToBase58(p)) != Ok(p)
  {
    hide FromCid, FromCidBytes, M.PeerBytes, Pow, BigEndian, Convert, Base58.Encode, Base58.Decode;
    var bytes, s := M.PeerBytes(p), ToBase58(p);
    PeerBytesNonEmpty(p);
    if FromCid(s) == Ok(p) {
      CidInside(s, p);
      var cid := Base58.Decode(s[1..]).value;
      CidIsLonger(cid, p);
      TextDigits(bytes);
      TextNumber(bytes);
      var d := Reverse(Convert(bytes, 256, 58));
      assert s[1..] == Base58.Letters(d[1..]);
      TailNumber(s[1..], d[1..], cid);
      CidNumber(cid);
      PowMonotone(256, |bytes|, |cid| - 1);
      assert false;
    }
  }

  lemma TailNumber(tail: string, d: seq<nat>, cid: seq<Byte>)
    requires Digits(d, 58) && tail == Base58.Letters(d) && Base58.Decode(tail) == Ok(cid) && cid != [] && cid[0] != 0
    ensures BigEndian(cid, 256) == BigEndian(d, 58)
  {
    var z := Base58.LeadingOnes(tail);
    assert z == 0;
    assert tail[0..] == tail;
    Base58.ValuesOfLetters(d, 0);
    if d != [] {
      Base58.LetterValue(d[0]);
    }
    Base58.AccumulateConvert(d);
    ConvertValue(d, 58, 256);
    BigEndianReverse(Convert(d, 58, 256), 256);
    hide Convert, BigEndian, Base58.Accumulate;
    assert cid == Reverse(Convert(d, 58, 256));
  }

  /** A base32 CID in a text that long would hold more bytes than the text stands for. */
  lemma NoBase32Cid(p: M.PeerId)
    requires M.ValidPeer(p) && ToBase58(p) != [] && (ToBase58(p)[0] == 'b' || ToBase58(p)[0] == 'B')
    ensures FromCid(ToBase58(p)) != Ok(p)
  {
    hide FromCid, FromCidBytes, M.PeerBytes, Pow, BigEndian, Convert, Base58.Encode, Base32.Decode;
    var bytes, s := M.PeerBytes(p), ToBase58(p);
    PeerBytesNonEmpty(p);
    if FromCid(s) == Ok(p) {
      CidInside(s, p);
      var cid := Base32.Decode(s[1..]).value;
      CidIsLonger(cid, p);
      Base32Length(s[1..]);
      TextDigits(bytes);
      TextNumber(bytes);
      PowersCompare(|bytes|, |s| - 1);
      assert false;
    }
  }

  lemma Base32Length(s: string)
    requires Base32.Decode(s).Ok?
    ensures 8 * |Base32.Decode(s).value| <= 5 * |s|
  {
    Base32.RegroupCounts(Base32.Values(s, 0).value, 5, 8, 0, 0);
  }

  lemma {:induction false} Pow256(n: nat)
    ensures Pow(256, n) == Base32.Pow2(8 * n)
  {
    if n > 0 {
      Pow256(n - 1);
      Base32.Pow2Add(8, 8 * (n - 1));
      Base32.Widths();
    }
  }

  lemma {:induction false} Pow58(m: nat)
    ensures Base32.Pow2(5 * m) <= Pow(58, m)
  {
    if m > 0 {
      Pow58(m - 1);
      Base32.Pow2Add(5, 5 * (m - 1));
      Base32.Widths();
    }
  }

  lemma {:induction false} Pow2Monotone(a: nat, b: nat)
    requires a <= b
    ensures Base32.Pow2(a) <= Base32.Pow2(b)
    decreases b - a
  {
    if a < b {
      Pow2Monotone(a, b - 1);
    }
  }

  lemma PowersCompare(n: nat, m: nat)
    requires 8 * n <= 5 * m
    ensures Pow(256, n) <= Pow(58, m)
  {
    Pow256(n);
    Pow58(m);
    Pow2Monotone(8 * n, 5 * m);
  }

  /** Display followed by FromStr is the identity exactly when the text looks legacy. */
  lemma DisplayRoundTripIff(p: M.PeerId)
    requires M.ValidPeer(p)
    ensures FromStr(ToBase58(p)) == Ok(p) <==> LooksLegacy(ToBase58(p))
  {
    Base58RoundTrip(p);
    var s := ToBase58(p);
    if !LooksLegacy(s) && s != [] {
      if s[0] == 'z' {
        NoBase58Cid(p);
      } else if s[0] == 'b' || s[0] == 'B' {
        NoBase32Cid(p);
      }
    }
  }

  /** A valid peer id whose printed form does not parse back. */
  lemma UnusualCodeFails()
    ensures var p := M.PeerId(1, []);
            M.ValidPeer(p) && M.PeerBytes(p) == [1, 0] && ToBase58(p) == "5R" && FromStr("5R") == Err(UnsupportedMultibase('5'))
  {
    hide Base58.Encode, Base58.Decode, Base32.Decode, FromCidBytes;
    assert V.Encode(1) == [1] && V.Encode(0) == [0];
    assert [1] + ([0] + []) == [1, 0];
    EncodeOneZero();
    assert "5R"[0] == '5';
  }

  lemma EncodeOneZero()
    ensures Base58.Encode([1, 0]) == "5R"
  {
    hide Convert, BigEndian, Base58.Letter;
    TwoDigits(1, 0, 256);
    TwoDigits(4, 24, 58);
    ConvertBack([1, 0], [4, 24], 256, 58);
    ReverseTwice([4, 24]);
    assert [1, 0][0..] == [1, 0];
    FourAndTwentyFour();
    assert Base58.Letters([4, 24]) == "5R";
    assert Base58.Repeat('1', 0) + "5R" == "5R";
  }

  lemma TwoDigits(x: nat, y: nat, base: nat)
    ensures BigEndian([x, y], base) == x * base + y
  {
    OneDigit(x, base);
    assert [x, y][..1] == [x];
  }

  lemma FourAndTwentyFour()
    ensures Base58.Letter(4) == '5' && Base58.Letter(24) == 'R'
  {
  }
}
