/** Premint documents, their metadata, and the identifier that keys them. */
module Premints {
  import opened ByteStrings

  type u32 = x: int | 0 <= x < 0x1_0000_0000
  type Address = b: Bytes | |b| == 20 witness [0, 0, 0, 0, 0, 0, 0, 0, 0, 0, 0, 0, 0, 0, 0, 0, 0, 0, 0, 0]

  /** A Zora premint; `rest` stands for the fields no rule or claim reads. */
  datatype Zora = Zora(collectionAddress: Address, chainId: u64, contractAdmin: Address, uid: u32, version: u32,
                       tokenUri: string, rest: nat)

  datatype Premint =
    | Simple(version: u64, chainId: u64, sender: Address, tokenId: u64, media: string)
    | ZoraV2(zora: Zora)
    | ZoraERC20V1(zora: Zora)

  datatype Metadata = Metadata(id: string, version: u64, kind: string, signer: Address, chainId: u64,
                               collection: Address, tokenId: nat, uri: string)

  const SIMPLE := "simple"
  const ZORA_V2 := "zora_premint_v2"
  const ZORA_ERC20 := "zora_premint_erc20v1"
  const NO_ADDRESS: Address := [0, 0, 0, 0, 0, 0, 0, 0, 0, 0, 0, 0, 0, 0, 0, 0, 0, 0, 0, 0]

  // ----- identifiers -----

  function HexDigit(d: int): char
    requires 0 <= d < 16
  {
    if d < 10 then '0' + d as char else 'a' + (d - 10) as char
  }

  function Decimal(n: nat): string {
    if n < 10 then [HexDigit(n)] else Decimal(n / 10) + [HexDigit(n % 10)]
  }

  function Hex(b: Bytes): string {
    if b == [] then [] else [HexDigit(b[0] / 16), HexDigit(b[0] % 16)] + Hex(b[1..])
  }

  /** chain:address:number, as the format strings print it. */
  function Guid(chainId: nat, address: Address, number: nat): string {
    Decimal(chainId) + ":" + ("0x" + Hex(address) + ":" + Decimal(number))
  }

  function MetadataOf(p: Premint): Metadata {
    match p
    case Simple(version, chainId, sender, tokenId, media) =>
      Metadata(Guid(chainId, sender, tokenId), version, SIMPLE, sender, chainId, NO_ADDRESS, tokenId, media)
    case ZoraV2(z) => ZoraMetadata(z, ZORA_V2)
    case ZoraERC20V1(z) => ZoraMetadata(z, ZORA_ERC20)
  }

  function ZoraMetadata(z: Zora, kind: string): Metadata {
    Metadata(Guid(z.chainId, z.collectionAddress, z.uid), z.version, kind, z.contractAdmin, z.chainId,
             z.collectionAddress, z.uid, z.tokenUri)
  }

  // ----- reading an identifier back -----

  function DigitValue(c: char): nat {
    if '0' <= c <= '9' then (c - '0') as nat
    else if 'a' <= c <= 'f' then (c - 'a') as nat + 10
    else 0
  }

  function DecimalValue(s: string): nat {
    if s == [] then 0 else DecimalValue(s[..|s| - 1]) * 10 + DigitValue(s[|s| - 1])
  }

  function HexValue(s: string): Bytes {
    if |s| < 2 then []
    else [(DigitValue(s[0]) * 16 + DigitValue(s[1])) % 256] + HexValue(s[2..])
  }

  function Colon(s: string): (i: nat)
    ensures i <= |s|
  {
    if s == [] || s[0] == ':' then 0 else 1 + Colon(s[1..])
  }

  /** The chain id, address and number a printed identifier was made of. */
  function ParseGuid(s: string): (nat, Bytes, nat) {
    var i := Colon(s);
    var rest := if i < |s| then s[i + 1..] else [];
    var j := Colon(rest);
    (DecimalValue(s[..i]),
     HexValue(if j >= 2 then rest[2..j] else []),
     DecimalValue(if j < |rest| then rest[j + 1..] else []))
  }

  lemma DigitRoundTrip(d: int)
    requires 0 <= d < 16
    ensures DigitValue(HexDigit(d)) == d && HexDigit(d) != ':'
  {
  }

  lemma {:induction false} DecimalRoundTrip(n: nat)
    ensures DecimalValue(Decimal(n)) == n && ':' !in Decimal(n)
  {
    if n < 10 {
      DigitRoundTrip(n);
      assert Decimal(n)[..0] == [];
    } else {
      DecimalRoundTrip(n / 10);
      DigitRoundTrip(n % 10);
      var s := Decimal(n);
      assert s[..|s| - 1] == Decimal(n / 10);
    }
  }

  lemma {:induction false} HexRoundTrip(b: Bytes)
    ensures HexValue(Hex(b)) == b && ':' !in Hex(b)
  {
    if b == [] {
    } else {
      HexRoundTrip(b[1..]);
      DigitRoundTrip(b[0] / 16);
      DigitRoundTrip(b[0] % 16);
      assert Hex(b)[2..] == Hex(b[1..]);
    }
  }

  lemma {:induction false} ColonAt(a: string, b: string)
    requires ':' !in a
    ensures Colon(a + ":" + b) == |a|
  {
    var s := a + ":" + b;
    if a != [] {
      assert s[1..] == a[1..] + ":" + b;
      assert s[0] == a[0] && a[0] in a;
      ColonAt(a[1..], b);
    }
  }

  /** A printed identifier parses back to what it was made of. */
  lemma GuidRoundTrip(chainId: nat, address: Address, number: nat)
    ensures ParseGuid(Guid(chainId, address, number)) == (chainId, address, number)
  {
    var a, b, c := Decimal(chainId), "0x" + Hex(address), Decimal(number);
    DecimalRoundTrip(chainId);
    HexRoundTrip(address);
    DecimalRoundTrip(number);
    var s := Guid(chainId, address, number);
    var rest := b + ":" + c;
    assert s == a + ":" + rest;
    ColonAt(a, rest);
    assert s[..|a|] == a && s[|a| + 1..] == rest;
    ColonAt(b, c);
    assert rest[2..|b|] == Hex(address) && rest[|b| + 1..] == c;
  }

  lemma GuidInjective(c: nat, a: Address, n: nat, c': nat, a': Address, n': nat)
    requires Guid(c, a, n) == Guid(c', a', n')
    ensures c == c' && a == a' && n == n'
  {
    GuidRoundTrip(c, a, n);
    GuidRoundTrip(c', a', n');
  }

  // ----- the printed form -----

  /** s is the decimal numeral of n: digits only, no leading zero, read positionally. */
  predicate IsDecimal(s: string, n: nat) {
    && s != []
    && (forall i :: 0 <= i < |s| ==> '0' <= s[i] <= '9')
    && (|s| > 1 ==> s[0] != '0')
    && DecimalValue(s) == n
  }

  predicate LowerHex(c: char) {
    '0' <= c <= '9' || 'a' <= c <= 'f'
  }

  /** s spells b, two lower-case hexadecimal digits to a byte. */
  predicate IsHex(s: string, b: Bytes) {
    && |s| == 2 * |b|
    && (forall i :: 0 <= i < |s| ==> LowerHex(s[i]))
    && HexValue(s) == b
  }

  lemma DecimalIff(s: string, n: nat)
    ensures IsDecimal(s, n) <==> s == Decimal(n)
  {
    DecimalIsDecimal(n);
    if IsDecimal(s, n) {
      DecimalUnique(s, n);
    }
  }

  lemma {:induction false} DecimalUnique(s: string, n: nat)
    requires IsDecimal(s, n)
    ensures s == Decimal(n)
    decreases |s|
  {
    var init, last := s[..|s| - 1], s[|s| - 1];
    assert s == init + [last];
    HexOne(last, DigitValue(last));
    if init != [] {
      DecimalValuePositive(init);
      DecimalUnique(init, DecimalValue(init));
      LastDigit(DecimalValue(init), DigitValue(last));
    }
  }

  lemma LastDigit(m: nat, d: nat)
    requires m > 0 && d < 10
    ensures Decimal(m * 10 + d) == Decimal(m) + [HexDigit(d)]
  {
    assert (m * 10 + d) / 10 == m && (m * 10 + d) % 10 == d;
  }

  lemma {:induction false} DecimalIsDecimal(n: nat)
    ensures IsDecimal(Decimal(n), n)
  {
    DecimalRoundTrip(n);
    if n >= 10 {
      DecimalIsDecimal(n / 10);
      if |Decimal(n / 10)| == 1 {
        assert Decimal(n / 10)[..0] == [];
      }
    }
  }

  lemma {:induction false} DecimalValuePositive(s: string)
    requires s != [] && '1' <= s[0] <= '9'
    ensures DecimalValue(s) > 0
  {
    if |s| > 1 {
      DecimalValuePositive(s[..|s| - 1]);
    } else {
      assert s[..0] == [];
    }
  }

  lemma {:induction false} HexIff(s: string, b: Bytes)
    ensures IsHex(s, b) <==> s == Hex(b)
  {
    HexRoundTrip(b);
    if b != [] {
      if |s| >= 2 {
        HexIff(s[2..], b[1..]);
        assert s == [s[0], s[1]] + s[2..];
        HexPair(s[0], s[1], b[0]);
      }
    }
  }

  lemma HexPair(c: char, d: char, x: byte)
    ensures c == HexDigit(x / 16) && d == HexDigit(x % 16)
      <==> LowerHex(c) && LowerHex(d) && (DigitValue(c) * 16 + DigitValue(d)) % 256 == x
  {
    HexOne(c, x / 16);
    HexOne(d, x % 16);
    if LowerHex(c) && LowerHex(d) {
      Nibbles(DigitValue(c), DigitValue(d), x);
    }
  }

  lemma Nibbles(a: int, b: int, x: byte)
    requires 0 <= a < 16 && 0 <= b < 16
    ensures (a * 16 + b) % 256 == x <==> a == x / 16 && b == x % 16
  {
  }

  lemma HexOne(c: char, v: int)
    requires 0 <= v < 16
    ensures c == HexDigit(v) <==> LowerHex(c) && DigitValue(c) == v
    ensures LowerHex(c) ==> DigitValue(c) < 16
  {
  }

  /** The identifier is the numeral of the chain, `0x` and the address in lower case, and the numeral of the number. */
  lemma GuidForm(chainId: nat, address: Address, number: nat, c: string, a: string, n: string)
    requires IsDecimal(c, chainId) && IsHex(a, address) && IsDecimal(n, number)
    ensures Guid(chainId, address, number) == c + ":0x" + a + ":" + n
  {
    DecimalIff(c, chainId);
    HexIff(a, address);
    DecimalIff(n, number);
  }

  /** Every chain, address and number have such spellings. */
  lemma GuidSpelled(chainId: nat, address: Address, number: nat) returns (c: string, a: string, n: string)
    ensures IsDecimal(c, chainId) && IsHex(a, address) && IsDecimal(n, number)
  {
    c, a, n := Decimal(chainId), Hex(address), Decimal(number);
    DecimalIff(c, chainId);
    HexIff(a, address);
    DecimalIff(n, number);
  }

  // ----- keys -----

  datatype Key = Key(kind: string, id: string)

  function KeyOf(p: Premint): Key {
    Key(MetadataOf(p).kind, MetadataOf(p).id)
  }

  /** Documents with one key agree on everything the identifier spells out; the signer only when it is part of it. */
  lemma KeyDetermines(p: Premint, q: Premint)
    requires KeyOf(p) == KeyOf(q)
    ensures var m, n := MetadataOf(p), MetadataOf(q);
      && m.chainId == n.chainId && m.collection == n.collection && m.tokenId == n.tokenId
      && (p.Simple? ==> m.signer == n.signer)
    ensures p.Simple? == q.Simple? && p.ZoraV2? == q.ZoraV2?
  {
    KindsDiffer();
    match (p, q)
    case (Simple(_, c, s, t, _), Simple(_, c', s', t', _)) => GuidInjective(c, s, t, c', s', t');
    case (ZoraV2(z), ZoraV2(w)) =>
      GuidInjective(z.chainId, z.collectionAddress, z.uid, w.chainId, w.collectionAddress, w.uid);
    case (ZoraERC20V1(z), ZoraERC20V1(w)) =>
      GuidInjective(z.chainId, z.collectionAddress, z.uid, w.chainId, w.collectionAddress, w.uid);
    case _ =>
  }

  lemma KindsDiffer()
    ensures SIMPLE != ZORA_V2 && SIMPLE != ZORA_ERC20 && ZORA_V2 != ZORA_ERC20
  {
  }
}
