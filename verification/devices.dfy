/** The devices on the emulator's bus (emulator.js:431-560): byte-addressed memories of
    `2^nbits` cells, and range limiters that pass an access on to the device they wrap only
    when the address starts with given high bits. */
module Devices {
  import opened Base
  import opened Numerals
  import opened Js

  /** What reading an element of a `Uint8Array` yields: a stored byte, or `undefined` at an
      index outside the array. */
  datatype Cell = Undefined | Num(value: int)

  /** The number `|` makes of a read result: `undefined` converts to 0. */
  function CellNumber(c: Cell): int
  {
    match c
    case Undefined => 0
    case Num(v) => v
  }

  datatype Device =
    | /** `ReadWriteMemory`: `cells` is the `Uint8Array` of `2^nbits` elements. */
      Memory(nbits: nat, cells: seq<int>)
    | /** `RangeLimiter` around `inner`; `highBits` is the required address prefix. */
      Limiter(inner: Device, rangeLimit: bool, highBits: string)

  /** A memory of `2^nbits` bytes. */
  predicate ValidMemory(nbits: nat, cells: seq<int>)
  {
    |cells| == Pow(2, nbits) && forall k :: 0 <= k < |cells| ==> 0 <= cells[k] < 256
  }

  /** Every memory inside `d` has its size and holds bytes. */
  predicate Valid(d: Device)
  {
    match d
    case Memory(nbits, cells) => ValidMemory(nbits, cells)
    case Limiter(inner, _, _) => Valid(inner)
  }

  /** `new Uint8Array(n)`: `n` zeros. */
  function Zeros(n: nat): (r: seq<int>)
    ensures |r| == n && forall k :: 0 <= k < n ==> r[k] == 0
  {
    seq(n, k => 0)
  }

  /** `new ReadWriteMemory(nbits)` */
  function NewMemory(nbits: nat): (d: Device)
    ensures Valid(d) && d.Memory? && d.nbits == nbits
    ensures forall k :: 0 <= k < |d.cells| ==> d.cells[k] == 0
  {
    Memory(nbits, Zeros(Pow(2, nbits)))
  }

  /** The element index `address % (2 ** nbits)`, with JavaScript's remainder. */
  function CellIndex(nbits: nat, address: int): int
  {
    PowPositive(2, nbits);
    Rem(address, Pow(2, nbits))
  }

  /** `ReadWriteMemory.read`: the element at the index, which is `undefined` for a negative one. */
  function MemoryRead(nbits: nat, cells: seq<int>, address: int): Cell
  {
    var i := CellIndex(nbits, address);
    if 0 <= i < |cells| then Num(cells[i]) else Undefined
  }

  /** `ReadWriteMemory.write`: the element takes the value modulo 256; an assignment at a
      negative index changes nothing. */
  function MemoryWrite(nbits: nat, cells: seq<int>, address: int, value: int): seq<int>
  {
    var i := CellIndex(nbits, address);
    if 0 <= i < |cells| then cells[i := ToUint8(value)] else cells
  }

  /** `shouldIgnore`: whether the 16-digit binary form of `address` does not start with `highBits`. */
  function ShouldIgnore(address: int, highBits: string): bool
  {
    Prefix(PadStart(BinaryString(address), 16, '0'), |highBits|) != highBits
  }

  /** `device.read(address)`: the value and whether the device responded. */
  function Read(d: Device, address: int): (r: (Cell, bool))
  {
    match d
    case Memory(nbits, cells) => (MemoryRead(nbits, cells, address), true)
    case Limiter(inner, rangeLimit, highBits) =>
      if !rangeLimit then Read(inner, address)
      else if ShouldIgnore(address, highBits) then (Num(0), false)
      else Read(inner, address)
  }

  /** `device.write(address, value)`: the device afterwards and whether it accepted the value. */
  function Write(d: Device, address: int, value: int): (r: (Device, bool))
  {
    match d
    case Memory(nbits, cells) => (Memory(nbits, MemoryWrite(nbits, cells, address, value)), true)
    case Limiter(inner, rangeLimit, highBits) =>
      if rangeLimit && ShouldIgnore(address, highBits) then (d, false)
      else
        var (inner', accepted) := Write(inner, address, value);
        (Limiter(inner', rangeLimit, highBits), accepted)
  }

  /** `device.reset()`: a memory is replaced by zeros of the same length. */
  function Reset(d: Device): Device
  {
    match d
    case Memory(nbits, cells) => Memory(nbits, Zeros(|cells|))
    case Limiter(inner, rangeLimit, highBits) => Limiter(Reset(inner), rangeLimit, highBits)
  }

  /** The cells of a memory resized to `n`: the common prefix is copied, the rest is zero. */
  function Resize(cells: seq<int>, n: nat): seq<int>
  {
    seq(n, k requires 0 <= k < n => if k < |cells| then cells[k] else 0)
  }

  /** `ReadWriteMemory.setNBits(nbits)` */
  function SetNBits(d: Device, nbits: nat): Device
    requires d.Memory?
  {
    if nbits == d.nbits then d else Memory(nbits, Resize(d.cells, Pow(2, nbits)))
  }
}
