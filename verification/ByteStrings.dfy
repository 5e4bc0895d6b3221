/** Byte strings with Rust's slice order, and the four-byte buffer fed to the hasher. */
module ByteStrings {
  type byte = x: int | 0 <= x < 256
  type Bytes = seq<byte>
  type Path = seq<Bytes>

  const TWO_64: int := 0x1_0000_0000_0000_0000
  const TWO_32: int := 0x1_0000_0000
  type u64 = x: int | 0 <= x < 0x1_0000_0000_0000_0000

  /** The digest of a byte stream.  Nothing is assumed about it: in particular it is never taken to be injective. */
  type Digest = Bytes -> u64

  datatype Ordering = Less | Equal | Greater

  function Cmp(a: Bytes, b: Bytes): Ordering {
    if a == [] && b == [] then Equal
    else if a == [] then Less
    else if b == [] then Greater
    else if a[0] < b[0] then Less
    else if a[0] > b[0] then Greater
    else Cmp(a[1..], b[1..])
  }

  function Flip(o: Ordering): Ordering {
    match o case Less => Greater case Equal => Equal case Greater => Less
  }

  lemma {:induction false} CmpEqual(a: Bytes, b: Bytes)
    ensures Cmp(a, b) == Equal <==> a == b
  {
    if a == [] || b == [] {
    } else {
      CmpEqual(a[1..], b[1..]);
      assert a == [a[0]] + a[1..] && b == [b[0]] + b[1..];
    }
  }

  lemma {:induction false} CmpFlip(a: Bytes, b: Bytes)
    ensures Cmp(b, a) == Flip(Cmp(a, b))
  {
    if a == [] || b == [] {
    } else {
      CmpFlip(a[1..], b[1..]);
    }
  }

  lemma {:induction false} CmpTransitive(a: Bytes, b: Bytes, c: Bytes)
    requires Cmp(a, b) == Less && Cmp(b, c) == Less
    ensures Cmp(a, c) == Less
  {
    if a != [] && b != [] && c != [] && a[0] == b[0] == c[0] {
      CmpTransitive(a[1..], b[1..], c[1..]);
    }
  }

  /** a and b agree up to i, where a ends or has the smaller byte. */
  predicate SplitsAt(a: Bytes, b: Bytes, i: nat) {
    i <= |a| && i < |b| && a[..i] == b[..i] && (i == |a| || a[i] < b[i])
  }

  lemma {:induction false} SplitIsLess(a: Bytes, b: Bytes, i: nat)
    requires SplitsAt(a, b, i)
    ensures Cmp(a, b) == Less
  {
    if i == 0 {
    } else {
      assert a[0] == a[..i][0] == b[..i][0] == b[0];
      assert a[1..][..i - 1] == a[..i][1..] && b[1..][..i - 1] == b[..i][1..];
      SplitIsLess(a[1..], b[1..], i - 1);
    }
  }

  lemma {:induction false} LessSplits(a: Bytes, b: Bytes) returns (i: nat)
    requires Cmp(a, b) == Less
    ensures SplitsAt(a, b, i)
  {
    if a == [] || a[0] < b[0] {
      i := 0;
    } else {
      i := LessSplits(a[1..], b[1..]);
      assert a[..i + 1] == [a[0]] + a[1..][..i] && b[..i + 1] == [b[0]] + b[1..][..i];
      i := i + 1;
    }
  }

  /** Rust's slice order: the first difference decides, and a proper prefix comes first. */
  lemma CmpIsSliceOrder(a: Bytes, b: Bytes)
    ensures Cmp(a, b) == Less <==> exists i: nat :: SplitsAt(a, b, i)
  {
    if i: nat :| SplitsAt(a, b, i) {
      SplitIsLess(a, b, i);
    }
    if Cmp(a, b) == Less {
      var i := LessSplits(a, b);
    }
  }

  /** Everything the trie needs of the order, for three values at once. */
  lemma CmpOrder(a: Bytes, b: Bytes, c: Bytes)
    ensures Cmp(a, b) == Equal <==> a == b
    ensures Cmp(b, a) == Flip(Cmp(a, b))
    ensures Cmp(a, b) == Less && Cmp(b, c) == Less ==> Cmp(a, c) == Less
  {
    CmpEqual(a, b);
    CmpFlip(a, b);
    if Cmp(a, b) == Less && Cmp(b, c) == Less {
      CmpTransitive(a, b, c);
    }
  }

  /** The four bytes the buffer keeps of a 64-bit hash, most significant first. */
  function Be32(v: u64): (b: Bytes)
    ensures |b| == 4
  {
    [(v / 0x100_0000) % 256, (v / 0x1_0000) % 256, (v / 0x100) % 256, v % 256]
  }

  function Low32(v: u64): int {
    v % TWO_32
  }

  lemma Be32Digits(v: u64)
    ensures var b: seq<int> := Be32(v); Low32(v) == ((b[0] * 256 + b[1]) * 256 + b[2]) * 256 + b[3]
  {
    assert v / 0x1_0000 == (v / 0x100) / 0x100;
    assert v / 0x100_0000 == (v / 0x1_0000) / 0x100;
    assert v / TWO_32 == (v / 0x100_0000) / 0x100;
  }

  lemma Digit0OfLow(v: u64)
    ensures v % 256 == Low32(v) % 256
  {
    var q, r := v / TWO_32, v % TWO_32;
    assert v == 256 * (0x100_0000 * q) + r;
  }

  lemma Digit1OfLow(v: u64)
    ensures (v / 0x100) % 256 == (Low32(v) / 0x100) % 256
  {
    var q, r := v / TWO_32, v % TWO_32;
    assert v / 0x100 == 0x100_0000 * q + r / 0x100;
  }

  lemma Digit2OfLow(v: u64)
    ensures (v / 0x1_0000) % 256 == (Low32(v) / 0x1_0000) % 256
  {
    var q, r := v / TWO_32, v % TWO_32;
    assert v / 0x1_0000 == 0x1_0000 * q + r / 0x1_0000;
  }

  lemma Digit3OfLow(v: u64)
    ensures (v / 0x100_0000) % 256 == (Low32(v) / 0x100_0000) % 256
  {
    var q, r := v / TWO_32, v % TWO_32;
    assert v / 0x100_0000 == 0x100 * q + r / 0x100_0000;
  }

  lemma Be32OfLow(v: u64)
    ensures Be32(v) == Be32(Low32(v))
  {
    Digit0OfLow(v);
    Digit1OfLow(v);
    Digit2OfLow(v);
    Digit3OfLow(v);
  }

  /** The buffer keeps exactly the low half of a hash: the high 32 bits never reach a parent. */
  lemma Be32KeepsLow32(v: u64, w: u64)
    ensures Be32(v) == Be32(w) <==> Low32(v) == Low32(w)
  {
    if Be32(v) == Be32(w) {
      Be32Digits(v);
      Be32Digits(w);
    }
    if Low32(v) == Low32(w) {
      Be32OfLow(v);
      Be32OfLow(w);
    }
  }

  method UpdateBuffer(buf: array<byte>, v: u64)
    requires buf.Length == 4
    modifies buf
    ensures buf[..] == Be32(v)
  {
    buf[0] := (v / 0x100_0000) % 256;
    buf[1] := (v / 0x1_0000) % 256;
    buf[2] := (v / 0x100) % 256;
    buf[3] := v % 256;
    assert buf[..] == [buf[0], buf[1], buf[2], buf[3]];
  }

  /** p comes before q and neither is a prefix of the other. */
  predicate Before(p: Path, q: Path) {
    p != [] && q != [] && (Cmp(p[0], q[0]) == Less || (p[0] == q[0] && Before(p[1..], q[1..])))
  }
}
