/** Linux ioctl command numbers as the virtual SPI device builds them: the
    layout of `asm-generic/ioctl.h` (number in bits 0-7, type in bits 8-15,
    argument size in bits 16-29, direction in bits 30-31), the SPI commands
    of `linux/spi/spidev.h`, and the return code of the device's `ioctl`. */
module Ioctl {
  import opened Bits

  const NrBits: nat := 8
  const TypeBits: nat := 8
  const SizeBits: nat := 14
  const DirBits: nat := 2

  const NrShift: nat := 0
  const TypeShift: nat := NrShift + NrBits
  const SizeShift: nat := TypeShift + TypeBits
  const DirShift: nat := SizeShift + SizeBits

  const DirNone: nat := 0
  const DirWrite: nat := 1
  const DirRead: nat := 2

  /** `ord('k')`, the type byte of every SPI command. */
  const SpiIocMagic: nat := 107

  /** `_ioc(dir, typ, num, size)`: the four fields shifted into place and
      combined with `|`, in the order the source writes them. Nothing is
      masked, so a field wider than its slot spills into the next one. */
  function Ioc(dir: nat, typ: nat, nr: nat, size: nat): nat {
    Or(Or(Or(Shl(dir, DirShift), Shl(typ, TypeShift)), Shl(nr, NrShift)), Shl(size, SizeShift))
  }

  /** `(cmd >> shift) & ((1 << bits) - 1)`: one field read back. */
  function Field(cmd: nat, shift: nat, bits: nat): nat {
    And(Shr(cmd, shift), Pow2(bits) - 1)
  }

  function IocNr(cmd: nat): nat { Field(cmd, NrShift, NrBits) }
  function IocType(cmd: nat): nat { Field(cmd, TypeShift, TypeBits) }
  function IocSize(cmd: nat): nat { Field(cmd, SizeShift, SizeBits) }
  function IocDir(cmd: nat): nat { Field(cmd, DirShift, DirBits) }

  /** When every field fits its slot, `_ioc` is the sum of the shifted fields,
      so the slots do not overlap and the number fits in 32 bits. */
  lemma IocLayout(dir: nat, typ: nat, nr: nat, size: nat)
    requires dir < 4 && typ < 0x100 && nr < 0x100 && size < 0x4000
    ensures Ioc(dir, typ, nr, size) == nr + 0x100 * (typ + 0x100 * (size + 0x4000 * dir))
    ensures Ioc(dir, typ, nr, size) < 0x1_0000_0000
  {
    Pow2Values();
    assert Pow2(0) == 1;
    assert Shl(dir, DirShift) == dir * 0x4000_0000 && Shl(typ, TypeShift) == typ * 0x100;
    assert Shl(nr, NrShift) == nr && Shl(size, SizeShift) == size * 0x1_0000;
    OrDirType(dir, typ);
    OrLowByte(dir * 0x40_0000 + typ, nr);
    OrSize(dir, typ * 0x100 + nr, size);
  }

  lemma OrDirType(dir: nat, typ: nat)
    requires typ < 0x100
    ensures Or(dir * 0x4000_0000, typ * 0x100) == dir * 0x4000_0000 + typ * 0x100
  {
    Pow2Values();
    OrSplit(dir * 0x40_0000, 0, typ, 0, 8);
    Disjoint(dir, typ, 22);
    OrZero(0);
  }

  lemma OrLowByte(x: nat, nr: nat)
    requires nr < 0x100
    ensures Or(x * 0x100, nr) == x * 0x100 + nr
  {
    Pow2Values();
    Disjoint(x, nr, 8);
  }

  lemma OrSize(dir: nat, low: nat, size: nat)
    requires low < 0x1_0000 && size < 0x4000
    ensures Or(dir * 0x4000_0000 + low, size * 0x1_0000) == dir * 0x4000_0000 + size * 0x1_0000 + low
  {
    Pow2Values();
    OrSplit(dir * 0x4000, low, size, 0, 16);
    Disjoint(dir, size, 14);
    OrZero(low);
  }

  /** Reading the fields back from an encoded command gives the fields that
      were encoded, whenever each fits its slot. */
  lemma IocFieldsRoundTrip(dir: nat, typ: nat, nr: nat, size: nat)
    requires dir < 4 && typ < 0x100 && nr < 0x100 && size < 0x4000
    ensures var cmd := Ioc(dir, typ, nr, size);
      IocDir(cmd) == dir && IocType(cmd) == typ && IocNr(cmd) == nr && IocSize(cmd) == size
  {
    IocLayout(dir, typ, nr, size);
    var cmd := Ioc(dir, typ, nr, size);
    Pow2Values();
    NrFieldOf(cmd, typ + 0x100 * (size + 0x4000 * dir), nr);
    TypeFieldOf(cmd, size + 0x4000 * dir, typ, nr);
    SizeFieldOf(cmd, dir, size, nr + 0x100 * typ);
    DirFieldOf(cmd, dir, nr + 0x100 * (typ + 0x100 * size));
  }

  lemma NrFieldOf(cmd: nat, high: nat, nr: nat)
    requires nr < 0x100 && cmd == nr + 0x100 * high
    ensures IocNr(cmd) == nr
  {
    Pow2Values();
    assert Pow2(0) == 1;
    ShrDiv(cmd, NrShift);
    AndLowMask(Shr(cmd, NrShift), NrBits);
    DivModUnique(cmd, 0x100, high, nr);
  }

  lemma TypeFieldOf(cmd: nat, high: nat, typ: nat, nr: nat)
    requires typ < 0x100 && nr < 0x100 && cmd == nr + 0x100 * (typ + 0x100 * high)
    ensures IocType(cmd) == typ
  {
    Pow2Values();
    ShrDiv(cmd, TypeShift);
    AndLowMask(Shr(cmd, TypeShift), TypeBits);
    DivModUnique(cmd, 0x100, typ + 0x100 * high, nr);
    DivModUnique(typ + 0x100 * high, 0x100, high, typ);
  }

  lemma SizeFieldOf(cmd: nat, dir: nat, size: nat, low: nat)
    requires size < 0x4000 && low < 0x1_0000 && cmd == low + 0x1_0000 * (size + 0x4000 * dir)
    ensures IocSize(cmd) == size
  {
    Pow2Values();
    ShrDiv(cmd, SizeShift);
    AndLowMask(Shr(cmd, SizeShift), SizeBits);
    DivModUnique(cmd, 0x1_0000, size + 0x4000 * dir, low);
    DivModUnique(size + 0x4000 * dir, 0x4000, dir, size);
  }

  lemma DirFieldOf(cmd: nat, dir: nat, low: nat)
    requires dir < 4 && low < 0x4000_0000 && cmd == low + 0x4000_0000 * dir
    ensures IocDir(cmd) == dir
  {
    Pow2Values();
    assert Pow2(2) == 4;
    ShrDiv(cmd, DirShift);
    AndLowMask(Shr(cmd, DirShift), DirBits);
    DivModUnique(cmd, 0x4000_0000, dir, low);
    DivModUnique(dir, 4, 0, dir);
  }

  /** Conversely, every 32-bit number is the encoding of its own fields. */
  lemma IocFieldsComplete(cmd: nat)
    requires cmd < 0x1_0000_0000
    ensures IocDir(cmd) < 4 && IocType(cmd) < 0x100 && IocNr(cmd) < 0x100 && IocSize(cmd) < 0x4000
    ensures Ioc(IocDir(cmd), IocType(cmd), IocNr(cmd), IocSize(cmd)) == cmd
  {
    var nr, typ, size, dir := IocNr(cmd), IocType(cmd), IocSize(cmd), IocDir(cmd);
    FieldsOf(cmd);
    Decompose(cmd);
    IocLayout(dir, typ, nr, size);
  }

  /** The four fields of a command as quotients and remainders. */
  lemma FieldsOf(cmd: nat)
    ensures IocNr(cmd) == cmd % 0x100 && IocType(cmd) == (cmd / 0x100) % 0x100
    ensures IocSize(cmd) == (cmd / 0x1_0000) % 0x4000 && IocDir(cmd) == (cmd / 0x4000_0000) % 4
  {
    Pow2Values();
    assert Pow2(0) == 1 && Pow2(2) == 4;
    FieldValue(cmd, NrShift, NrBits);
    FieldValue(cmd, TypeShift, TypeBits);
    FieldValue(cmd, SizeShift, SizeBits);
    FieldValue(cmd, DirShift, DirBits);
  }

  /** A field read back is the quotient by its offset, reduced to its width. */
  lemma FieldValue(cmd: nat, shift: nat, bits: nat)
    ensures Field(cmd, shift, bits) == (cmd / Pow2(shift)) % Pow2(bits)
  {
    ShrDiv(cmd, shift);
    AndLowMask(Shr(cmd, shift), bits);
  }

  /** A 32-bit number split at bits 8, 16 and 30. */
  lemma Decompose(cmd: nat)
    requires cmd < 0x1_0000_0000
    ensures var nr, typ, size, dir := cmd % 0x100, (cmd / 0x100) % 0x100, (cmd / 0x1_0000) % 0x4000, (cmd / 0x4000_0000) % 4;
      cmd == nr + 0x100 * (typ + 0x100 * (size + 0x4000 * dir))
  {
    DivDiv(cmd, 0x100, 0x100);
    DivDiv(cmd, 0x1_0000, 0x4000);
    assert cmd / 0x4000_0000 < 4;
  }

  /** The C types whose sizes the commands carry. */
  datatype CType = UInt8 | UInt32 | CharArray(n: nat) | SpiIocTransfer

  /** `ctypes.sizeof`. `struct spi_ioc_transfer` holds two 64-bit buffer
      addresses, the 32-bit length and speed, the 16-bit delay, the 8-bit word
      size and chip-select flag and 32 bits of padding: 32 bytes with every
      field at its natural alignment. */
  function SizeOf(t: CType): nat {
    match t
    case UInt8 => 1
    case UInt32 => 4
    case CharArray(n) => n
    case SpiIocTransfer => 8 + 8 + 4 + 4 + 2 + 1 + 1 + 4
  }

  function Io(typ: nat, nr: nat): nat { Ioc(DirNone, typ, nr, 0) }
  function Ior(typ: nat, nr: nat, t: CType): nat { Ioc(DirRead, typ, nr, SizeOf(t)) }
  function Iow(typ: nat, nr: nat, t: CType): nat { Ioc(DirWrite, typ, nr, SizeOf(t)) }
  function Iowr(typ: nat, nr: nat, t: CType): nat { Ioc(Or(DirRead, DirWrite), typ, nr, SizeOf(t)) }

  /** The wrappers differ only in the direction they encode: none (with no
      size) for `_io`, read for `_ior`, write for `_iow`, both for `_iowr`. */
  lemma WrapperDirections(typ: nat, nr: nat, t: CType)
    requires typ < 0x100 && nr < 0x100 && SizeOf(t) < 0x4000
    ensures IocDir(Io(typ, nr)) == 0 && IocSize(Io(typ, nr)) == 0
    ensures IocDir(Ior(typ, nr, t)) == 2 && IocDir(Iow(typ, nr, t)) == 1 && IocDir(Iowr(typ, nr, t)) == 3
    ensures IocSize(Ior(typ, nr, t)) == SizeOf(t) && IocSize(Iow(typ, nr, t)) == SizeOf(t)
    ensures IocSize(Iowr(typ, nr, t)) == SizeOf(t)
    ensures IocType(Iowr(typ, nr, t)) == typ && IocNr(Iowr(typ, nr, t)) == nr
  {
    assert Or(DirRead, DirWrite) == 3 by {
      OrUnfold(2, 1);
      OrUnfold(1, 0);
      OrZero(0);
    }
    IocFieldsRoundTrip(0, typ, nr, 0);
    IocFieldsRoundTrip(2, typ, nr, SizeOf(t));
    IocFieldsRoundTrip(1, typ, nr, SizeOf(t));
    IocFieldsRoundTrip(3, typ, nr, SizeOf(t));
  }

  /** `spi_msgsize(num)`: the size of `num` transfer structs when that fits
      the 14-bit size slot, and 0 otherwise. */
  function SpiMsgSize(num: nat): (r: nat)
    ensures r < 0x4000
    ensures r == 0 || r == num * SizeOf(SpiIocTransfer)
  {
    Pow2Values();
    if num * SizeOf(SpiIocTransfer) < Pow2(SizeBits) then num * SizeOf(SpiIocTransfer) else 0
  }

  /** Up to 511 transfers the size is exact; from 512 on it is 0. */
  lemma SpiMsgSizeBound(num: nat)
    ensures num < 512 ==> SpiMsgSize(num) == 32 * num
    ensures num >= 512 ==> SpiMsgSize(num) == 0
  {
    Pow2Values();
  }

  /** `SPI_IOC_MESSAGE(num)`: a write command of type `k`, number 0, whose
      size is the size of `num` transfers. */
  function SpiIocMessage(num: nat): nat {
    Iow(SpiIocMagic, 0, CharArray(SpiMsgSize(num)))
  }

  /** The message command records the message length: two counts below 512
      give different commands, while every count from 512 on gives the same
      command as a message of no transfers. */
  lemma SpiIocMessageCounts(n: nat, m: nat)
    ensures n < 512 && m < 512 && n != m ==> SpiIocMessage(n) != SpiIocMessage(m)
    ensures n >= 512 ==> SpiIocMessage(n) == SpiIocMessage(0)
  {
    SpiMsgSizeBound(n);
    SpiMsgSizeBound(m);
    SpiMsgSizeBound(0);
    if n < 512 && m < 512 && n != m {
      IocFieldsRoundTrip(DirWrite, SpiIocMagic, 0, SpiMsgSize(n));
      IocFieldsRoundTrip(DirWrite, SpiIocMagic, 0, SpiMsgSize(m));
    }
  }

  const SpiIocRdMode := Ior(SpiIocMagic, 1, UInt8)
  const SpiIocWrMode := Iow(SpiIocMagic, 1, UInt8)
  const SpiIocRdLsbFirst := Ior(SpiIocMagic, 2, UInt8)
  const SpiIocWrLsbFirst := Iow(SpiIocMagic, 2, UInt8)
  const SpiIocRdBitsPerWord := Ior(SpiIocMagic, 3, UInt8)
  const SpiIocWrBitsPerWord := Iow(SpiIocMagic, 3, UInt8)
  const SpiIocRdMaxSpeedHz := Ior(SpiIocMagic, 4, UInt32)
  const SpiIocWrMaxSpeedHz := Iow(SpiIocMagic, 4, UInt32)

  /** The command numbers agree with the kernel's `spidev.h` values. */
  lemma SpiCommandValues()
    ensures SpiIocMessage(1) == 0x4020_6B00 && SpiIocMessage(2) == 0x4040_6B00
    ensures SpiIocRdMode == 0x8001_6B01 && SpiIocWrMode == 0x4001_6B01
    ensures SpiIocRdLsbFirst == 0x8001_6B02 && SpiIocWrLsbFirst == 0x4001_6B02
    ensures SpiIocRdBitsPerWord == 0x8001_6B03 && SpiIocWrBitsPerWord == 0x4001_6B03
    ensures SpiIocRdMaxSpeedHz == 0x8004_6B04 && SpiIocWrMaxSpeedHz == 0x4004_6B04
  {
    SpiMsgSizeBound(1);
    SpiMsgSizeBound(2);
    IocLayout(1, 107, 0, 32);
    IocLayout(1, 107, 0, 64);
    IocLayout(2, 107, 1, 1);
    IocLayout(1, 107, 1, 1);
    IocLayout(2, 107, 2, 1);
    IocLayout(1, 107, 2, 1);
    IocLayout(2, 107, 3, 1);
    IocLayout(1, 107, 3, 1);
    IocLayout(2, 107, 4, 4);
    IocLayout(1, 107, 4, 4);
  }

  /** The device's `ioctl`: the one- and two-transfer message commands return
      1 and 2; every other command, the mode and speed commands included,
      returns 0 after logging. */
  function IoctlResult(cmd: nat): (r: nat)
    ensures r <= 2
  {
    if cmd == SpiIocMessage(1) then 1
    else if cmd == SpiIocMessage(2) then 2
    else 0
  }

  /** The eight mode, bit-order, word-length and speed commands are only
      logged: each returns 0. */
  lemma IoctlSettings()
    ensures IoctlResult(SpiIocRdMode) == 0 && IoctlResult(SpiIocWrMode) == 0
    ensures IoctlResult(SpiIocRdLsbFirst) == 0 && IoctlResult(SpiIocWrLsbFirst) == 0
    ensures IoctlResult(SpiIocRdBitsPerWord) == 0 && IoctlResult(SpiIocWrBitsPerWord) == 0
    ensures IoctlResult(SpiIocRdMaxSpeedHz) == 0 && IoctlResult(SpiIocWrMaxSpeedHz) == 0
  {
    SpiCommandValues();
  }

  /** The return code identifies the message length only for one and two
      transfers; longer messages, up to the six the source names, get 0, and
      so do all eight mode, bit-order, word-length and speed commands. */
  lemma IoctlMessages(n: nat)
    requires 1 <= n < 512
    ensures IoctlResult(SpiIocMessage(n)) == (if n <= 2 then n else 0)
    ensures IoctlResult(SpiIocRdMode) == 0 && IoctlResult(SpiIocWrMode) == 0
    ensures IoctlResult(SpiIocRdLsbFirst) == 0 && IoctlResult(SpiIocWrLsbFirst) == 0
    ensures IoctlResult(SpiIocRdBitsPerWord) == 0 && IoctlResult(SpiIocWrBitsPerWord) == 0
    ensures IoctlResult(SpiIocRdMaxSpeedHz) == 0 && IoctlResult(SpiIocWrMaxSpeedHz) == 0
  {
    SpiIocMessageCounts(n, 1);
    SpiIocMessageCounts(n, 2);
    IoctlSettings();
  }
}
