/** Bytes, and numbers written in bytes. */
module Octets {
  function Pow2(n: nat): (r: nat)
    ensures r > 0
  {
    if n == 0 then 1 else 2 * Pow2(n - 1)
  }

  lemma {:induction false} Pow2Monotone(m: nat, n: nat)
    requires m <= n
    ensures 1 <= Pow2(m) <= Pow2(n)
    decreases n
  {
    if m < n { Pow2Monotone(m, n - 1); } else if m > 0 { Pow2Monotone(m - 1, n - 1); }
  }

  /** A multiple of the modulus does not change the remainder. */
  lemma {:induction false} DropMultiple(r: int, m: nat, k: int)
    requires 0 <= r < m
    ensures (r + m * k) % m == r
  {
    var n := r + m * k;
    assert n == m * (n / m) + n % m;
    assert m * (k - n / m) == n % m - r;
    if k > n / m {
      MulAtLeast(m, k - n / m);
      assert false;
    } else if k < n / m {
      MulAtLeast(m, n / m - k);
      assert false;
    }
  }

  lemma {:induction false} MulAtLeast(m: nat, k: nat)
    requires k >= 1
    ensures m * k >= m
  {
  }

  lemma {:induction false} Pow2Add(m: nat, n: nat)
    ensures Pow2(m + n) == Pow2(m) * Pow2(n)
    decreases n
  {
    if n > 0 {
      Pow2Add(m, n - 1);
      assert m + n - 1 == m + (n - 1);
      Doubled(Pow2(m), Pow2(n - 1));
    }
  }

  lemma {:induction false} Doubled(a: nat, b: nat)
    ensures 2 * (a * b) == a * (2 * b)
  {
  }

  lemma {:induction false} SmallPowers()
    ensures Pow2(0) == 1 && Pow2(1) == 2 && Pow2(6) == 64 && Pow2(7) == 128 && Pow2(8) == 256
  {
    assert Pow2(3) == 8;
    assert Pow2(6) == 64;
  }

  newtype byte = b: int | 0 <= b < 256

  type Bytes = seq<byte>

  function Value(b: byte): (n: nat)
    ensures n < 256
  {
    b as nat
  }

  function LittleEndian(bytes: Bytes): nat {
    if bytes == [] then 0 else Value(bytes[0]) + 256 * LittleEndian(bytes[1..])
  }

  function AsByte(n: nat): byte
    requires n < 256
  {
    n as byte
  }

  function ToBytes(n: nat, length: nat): Bytes {
    if length == 0 then [] else [AsByte(n % 256)] + ToBytes(n / 256, length - 1)
  }

  lemma {:induction false} AsByteValue(n: nat)
    requires n < 256
    ensures Value(AsByte(n)) == n
  {
  }

  lemma {:induction false} BytePower(k: nat)
    ensures Pow2(8 * (k + 1)) == 256 * Pow2(8 * k)
  {
    Pow2Add(8 * k, 8);
    SmallPowers();
  }

  /** Encoding is exact for numbers that fit. */
  lemma {:induction false} EncodingExact(n: nat, length: nat)
    requires n < Pow2(8 * length)
    ensures |ToBytes(n, length)| == length && LittleEndian(ToBytes(n, length)) == n
    decreases length
  {
    if length > 0 {
      BytePower(length - 1);
      AsByteValue(n % 256);
      hide Pow2, AsByte, Value;
      EncodingExact(n / 256, length - 1);
      assert ToBytes(n, length)[1..] == ToBytes(n / 256, length - 1);
    }
  }

  lemma {:induction false} ByteOfValue(b: byte)
    ensures AsByte(Value(b)) == b
  {
  }

  /** Reading bytes and writing them back gives the same bytes. */
  lemma {:induction false} LittleEndianWrites(bytes: Bytes)
    ensures ToBytes(LittleEndian(bytes), |bytes|) == bytes
  {
    if bytes != [] {
      LittleEndianWrites(bytes[1..]);
      ByteOfValue(bytes[0]);
      hide AsByte, Value;
      var high, low := LittleEndian(bytes[1..]), Value(bytes[0]);
      assert LittleEndian(bytes) == low + 256 * high;
      assert (low + 256 * high) / 256 == high && (low + 256 * high) % 256 == low;
      assert bytes == [bytes[0]] + bytes[1..];
    }
  }

  lemma {:induction false} LittleEndianSplit(bytes: Bytes)
    requires bytes != []
    ensures var last := |bytes| - 1;
      LittleEndian(bytes) == LittleEndian(bytes[..last]) + Pow2(8 * last) * Value(bytes[last])
  {
    SmallPowers();
    hide Pow2, Value;
    var last := |bytes| - 1;
    if last == 0 {
      assert bytes[..last] == [] && bytes[1..] == [];
    } else {
      LittleEndianSplit(bytes[1..]);
      assert bytes[1..][..last - 1] == bytes[..last][1..];
      BytePower(last - 1);
      assert LittleEndian(bytes) == Value(bytes[0]) + 256 * LittleEndian(bytes[1..]);
      assert LittleEndian(bytes[..last]) == Value(bytes[0]) + 256 * LittleEndian(bytes[..last][1..]);
      hide LittleEndian;
      assert 256 * (Pow2(8 * (last - 1)) * Value(bytes[last])) == (256 * Pow2(8 * (last - 1))) * Value(bytes[last]);
    }
  }

  lemma {:induction false} LittleEndianBound(bytes: Bytes)
    ensures LittleEndian(bytes) < Pow2(8 * |bytes|)
  {
    if bytes != [] {
      LittleEndianBound(bytes[1..]);
      BytePower(|bytes| - 1);
      hide Pow2;
    }
  }

  function BigEndian(n: nat, width: nat): (bytes: Bytes)
    ensures |bytes| == width
  {
    if width == 0 then [] else BigEndian(n / 256, width - 1) + [AsByte(n % 256)]
  }

  function ReadBigEndian(bytes: Bytes): nat {
    if bytes == [] then 0 else 256 * ReadBigEndian(bytes[..|bytes| - 1]) + Value(bytes[|bytes| - 1])
  }

  lemma {:induction false} BigEndianReads(n: nat, width: nat)
    requires n < Pow2(8 * width)
    ensures ReadBigEndian(BigEndian(n, width)) == n
  {
    if width == 0 {
      SmallPowers();
    } else {
      BytePower(width - 1);
      hide Pow2, AsByte, Value;
      BigEndianReads(n / 256, width - 1);
      AsByteValue(n % 256);
      assert BigEndian(n, width)[..width - 1] == BigEndian(n / 256, width - 1);
    }
  }

  /** Reading bytes and writing them back gives the same bytes. */
  lemma {:induction false} BigEndianWrites(bytes: Bytes)
    ensures BigEndian(ReadBigEndian(bytes), |bytes|) == bytes
    ensures ReadBigEndian(bytes) < Pow2(8 * |bytes|)
  {
    if bytes == [] {
      SmallPowers();
    } else {
      var last := |bytes| - 1;
      BytePower(last);
      BigEndianWrites(bytes[..last]);
      ByteOfValue(bytes[last]);
      hide Pow2, AsByte, Value;
      var high, low := ReadBigEndian(bytes[..last]), Value(bytes[last]);
      assert ReadBigEndian(bytes) == 256 * high + low;
      assert (256 * high + low) / 256 == high && (256 * high + low) % 256 == low;
      assert bytes == bytes[..last] + [bytes[last]];
    }
  }

  lemma {:induction false} WordPowers()
    ensures Pow2(16) == 0x1_0000 && Pow2(32) == 0x1_0000_0000 && Pow2(64) == 0x1_0000_0000_0000_0000
  {
    SmallPowers();
    hide Pow2;
    Pow2Add(8, 8);
    Pow2Add(16, 16);
    Pow2Add(32, 32);
  }

  // ---- Encodings inside a message ----------------------------------------------------------------

  /** An encoding stands at an offset. */
  predicate StandsAt(payload: Bytes, offset: nat, encoding: Bytes) {
    offset + |encoding| <= |payload| && payload[offset..offset + |encoding|] == encoding
  }

  lemma {:induction false} StandsSplit(payload: Bytes, offset: nat, first: Bytes, second: Bytes)
    ensures StandsAt(payload, offset, first + second)
            <==> StandsAt(payload, offset, first) && StandsAt(payload, offset + |first|, second)
  {
    var both := first + second;
    if StandsAt(payload, offset, both) {
      assert first == both[..|first|] && second == both[|first|..];
      assert payload[offset..offset + |first|] == payload[offset..offset + |both|][..|first|];
      assert payload[offset + |first|..offset + |both|] == payload[offset..offset + |both|][|first|..];
    }
    if StandsAt(payload, offset, first) && StandsAt(payload, offset + |first|, second) {
      assert payload[offset..offset + |both|] == payload[offset..offset + |first|]
        + payload[offset + |first|..offset + |both|];
    }
  }

  lemma {:induction false} StandsByte(payload: Bytes, offset: nat, b: byte)
    ensures StandsAt(payload, offset, [b]) <==> offset < |payload| && payload[offset] == b
  {
    if offset < |payload| { assert payload[offset..offset + 1] == [payload[offset]]; }
  }

  lemma {:induction false} StandsWithin(payload: Bytes, offset: nat, encoding: Bytes)
    ensures StandsAt(payload, offset, encoding) ==> offset + |encoding| <= |payload|
  {
  }

  lemma {:induction false} Inside(payload: Bytes, at: nat, whole: Bytes, i: nat, j: nat)
    requires StandsAt(payload, at, whole) && i <= j <= |whole|
    ensures payload[at + i..at + j] == whole[i..j]
  {
    var part, slice := payload[at + i..at + j], whole[i..j];
    forall k | 0 <= k < j - i ensures part[k] == slice[k] {
      assert payload[at..at + |whole|][i + k] == whole[i + k];
    }
  }

  lemma {:induction false} StandsThree(payload: Bytes, offset: nat, first: Bytes, second: Bytes, third: Bytes)
    ensures StandsAt(payload, offset, first + (second + third)) <==>
      && StandsAt(payload, offset, first)
      && StandsAt(payload, offset + |first|, second)
      && StandsAt(payload, offset + |first| + |second|, third)
  {
    hide StandsAt;
    StandsSplit(payload, offset, first, second + third);
    StandsSplit(payload, offset + |first|, second, third);
  }
}
