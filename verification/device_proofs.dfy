/** Properties of the bus devices: a memory reads back what was written, reset and resize
    keep its shape, and a range limiter is transparent when off and filters by the
    address's high bits when on. */
module DeviceProofs {
  import opened Base
  import opened Numerals
  import opened Js
  import opened Devices

  /** For a non-negative address the index is inside the memory. */
  lemma IndexInside(nbits: nat, address: int)
    requires address >= 0
    ensures 0 <= CellIndex(nbits, address) < Pow(2, nbits)
    ensures address < Pow(2, nbits) ==> CellIndex(nbits, address) == address
  {
    PowPositive(2, nbits);
  }

  /** A memory reads back, at every non-negative address, the last value written there
      modulo 256, and a write leaves the other cells alone. */
  lemma MemoryReadsBack(nbits: nat, cells: seq<int>, address: int, value: int, other: int)
    requires ValidMemory(nbits, cells) && address >= 0 && other >= 0
    ensures ValidMemory(nbits, MemoryWrite(nbits, cells, address, value))
    ensures MemoryRead(nbits, MemoryWrite(nbits, cells, address, value), address) == Num(ToUint8(value))
    ensures CellIndex(nbits, other) != CellIndex(nbits, address) ==>
              MemoryRead(nbits, MemoryWrite(nbits, cells, address, value), other) == MemoryRead(nbits, cells, other)
  {
    IndexInside(nbits, address);
    IndexInside(nbits, other);
  }

  /** A write at a negative address leaves a memory unchanged; a read there is `undefined`
      unless the remainder is zero. */
  lemma NegativeAddress(nbits: nat, cells: seq<int>, address: int, value: int)
    requires address < 0 && CellIndex(nbits, address) != 0
    ensures MemoryWrite(nbits, cells, address, value) == cells
    ensures MemoryRead(nbits, cells, address) == Undefined
  {
  }

  /** What a valid device yields is a byte or `undefined`, so the bus sees a byte. */
  lemma {:induction false} ReadGivesByte(d: Device, address: int)
    requires Valid(d)
    ensures 0 <= CellNumber(Read(d, address).0) < 256
  {
    match d
    case Memory(nbits, cells) =>
    case Limiter(inner, _, _) =>
      ReadGivesByte(inner, address);
  }

  /** Writing keeps a device valid and never changes its structure: limiter settings and
      memory sizes stay as they were. */
  lemma {:induction false} WriteKeepsValid(d: Device, address: int, value: int)
    requires Valid(d)
    ensures Valid(Write(d, address, value).0)
    ensures Reset(Write(d, address, value).0) == Reset(d)
  {
    match d
    case Memory(nbits, cells) =>
      var i := CellIndex(nbits, address);
      if 0 <= i < |cells| {
        assert |MemoryWrite(nbits, cells, address, value)| == |cells|;
      }
    case Limiter(inner, rangeLimit, highBits) =>
      WriteKeepsValid(inner, address, value);
  }

  /** A reset device is valid, responds where it responded before, and reads zero (or
      `undefined`) everywhere. */
  lemma {:induction false} ResetClears(d: Device, address: int)
    requires Valid(d)
    ensures Valid(Reset(d))
    ensures Read(Reset(d), address).1 == Read(d, address).1
    ensures CellNumber(Read(Reset(d), address).0) == 0
  {
    match d
    case Memory(nbits, cells) =>
    case Limiter(inner, _, _) =>
      ResetClears(inner, address);
  }

  /** Resizing a memory gives `2^nbits` cells that start with the old contents, as far as
      both reach, and continue with zeros. */
  lemma SetNBitsResizes(d: Device, nbits: nat)
    requires d.Memory? && Valid(d)
    ensures var r := SetNBits(d, nbits);
            && r.Memory? && r.nbits == nbits && Valid(r)
            && forall k :: 0 <= k < |r.cells| ==> r.cells[k] == if k < |d.cells| then d.cells[k] else 0
  {
  }

  /** The early return for an unchanged size is unobservable: resizing to the same size
      copies every cell. */
  lemma ResizeToSameSize(d: Device)
    requires d.Memory? && Valid(d)
    ensures Memory(d.nbits, Resize(d.cells, Pow(2, d.nbits))) == d
  {
  }

  /** A limiter that is switched off behaves exactly like the device it wraps. */
  lemma LimiterOffIsTransparent(inner: Device, highBits: string, address: int, value: int)
    ensures Read(Limiter(inner, false, highBits), address) == Read(inner, address)
    ensures Write(Limiter(inner, false, highBits), address, value).1 == Write(inner, address, value).1
    ensures Write(Limiter(inner, false, highBits), address, value).0.inner == Write(inner, address, value).0
  {
  }

  /** A limiter that is on ignores an address outside its range: the read yields 0 without
      responding, the write is refused and the wrapped device keeps its contents; inside the
      range it behaves like the wrapped device. */
  lemma LimiterFilters(inner: Device, highBits: string, address: int, value: int)
    ensures var d := Limiter(inner, true, highBits);
            ShouldIgnore(address, highBits) ==>
              Read(d, address) == (Num(0), false) && Write(d, address, value) == (d, false)
    ensures var d := Limiter(inner, true, highBits);
            !ShouldIgnore(address, highBits) ==>
              && Read(d, address) == Read(inner, address)
              && Write(d, address, value) == (Limiter(Write(inner, address, value).0, true, highBits),
                                              Write(inner, address, value).1)
  {
  }

  /** Empty high bits never filter. */
  lemma EmptyHighBitsPassAll(address: int)
    ensures !ShouldIgnore(address, "")
  {
  }

  /** The 16-digit binary form of a 16-bit address. */
  function Binary16(address: int): string
  {
    PadStart(BinaryString(address), 16, '0')
  }

  /** Slices of a bit string are bit strings, and bit strings are binary digit strings. */
  lemma BitsSlice(s: string, i: nat, j: nat)
    requires IsBits(s) && i <= j <= |s|
    ensures IsBits(s[i..j]) && IsDigits(s[i..j], 2)
  {
    forall m | 0 <= m < j - i ensures s[i..j][m] == s[i + m] {
    }
  }

  /** The first `k` digits of a binary numeral are its value shifted right by the rest. */
  lemma BinaryPrefix(s: string, k: nat)
    requires IsBits(s) && k <= |s|
    ensures Pow(2, |s| - k) > 0
    ensures IsBits(s[..k]) && Value(s[..k], 2) == Value(s, 2) / Pow(2, |s| - k)
  {
    PowPositive(2, |s| - k);
    ValueSplit(s, k, 2);
    BitsSlice(s, 0, k);
    BitsSlice(s, k, |s|);
    assert s[0..k] == s[..k] && s[k..|s|] == s[k..];
    ValueBound(s[k..], 2);
    DivOfSplit(Value(s[..k], 2), Pow(2, |s| - k), Value(s[k..], 2));
  }

  lemma Pow16()
    ensures Pow(2, 16) == 65536
  {
    assert Pow(2, 8) == 256;
    PowAdd(2, 8, 8);
  }

  /** The 16-digit form of a 16-bit address is a binary numeral of the address. */
  lemma Binary16Value(address: int)
    requires 0 <= address < 65536
    ensures |Binary16(address)| == 16 && IsBits(Binary16(address)) && Value(Binary16(address), 2) == address
  {
    Pow16();
    PaddedBinary(address, 16);
  }

  /** The first `k` digits of the 16-digit form of an address are the bits of the address
      shifted right by `16 - k`. */
  lemma HighBitsOfAddress(address: int, k: nat)
    requires 0 <= address < 65536 && k <= 16
    ensures Pow(2, 16 - k) > 0
    ensures |Binary16(address)| == 16 && IsBits(Binary16(address)[..k])
    ensures Value(Binary16(address)[..k], 2) == address / Pow(2, 16 - k)
  {
    Binary16Value(address);
    BinaryPrefix(Binary16(address), k);
  }

  /** For a 16-bit address and a bit string of at most 16 digits, `shouldIgnore` compares
      the top `|highBits|` bits of the address, read as a number, with `highBits`. */
  lemma ShouldIgnoreComparesHighBits(address: int, highBits: string)
    requires 0 <= address < 65536 && IsBits(highBits) && |highBits| <= 16
    ensures Pow(2, 16 - |highBits|) > 0
    ensures ShouldIgnore(address, highBits) <==> address / Pow(2, 16 - |highBits|) != Value(highBits, 2)
  {
    var k := |highBits|;
    var s := Binary16(address);
    HighBitsOfAddress(address, k);
    assert Prefix(s, k) == s[..k];
    if Value(s[..k], 2) == Value(highBits, 2) {
      BitsInjective(s[..k], highBits);
    }
  }
}
