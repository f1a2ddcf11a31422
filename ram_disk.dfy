/**
 * The RAM disk behind the USB mass-storage volume (fat_ramdisk.c): the
 * FatFS disk-I/O layer over one fixed byte buffer, sector by sector.
 */
module RamDisk {
  import opened Common

  /** The geometry and label of the volume (usb_filesystem.c:10-20). */
  const SectorSize: nat := 512
  const NumSectors: nat := 128
  const Label: string := "usedbadger"

  /** FatFS `DRESULT`: RES_OK, RES_ERROR, RES_NOTRDY and RES_PARERR. */
  datatype DResult = Ok | Error | NotReady | ParErr

  /** FatFS `DSTATUS` bits. */
  const StaNoInit: byte := 0x01
  const StaNoDisk: byte := 0x02

  /** disk_initialize: only physical drive 0 exists. */
  function DiskInitialize(pdrv: byte): (s: byte)
    ensures s == 0 <==> pdrv == 0
    ensures s != 0 ==> s == StaNoInit
  {
    if pdrv != 0 then StaNoInit else 0
  }

  /** disk_status: drive 0 is always ready, whether or not a disk is registered. */
  function DiskStatus(pdrv: byte): (s: byte)
    ensures s == 0 <==> pdrv == 0
    ensures s != 0 ==> s == StaNoDisk
  {
    if pdrv != 0 then StaNoDisk else 0
  }

  /**
   * The parameter checks of disk_read and disk_write as written: the drive
   * number, a registered disk, and the start sector only.
   */
  function AccessCheckAsWritten(pdrv: byte, registered: bool, sector: nat, numSectors: nat): DResult
  {
    if pdrv != 0 then ParErr
    else if !registered then NotReady
    else if sector >= numSectors then ParErr
    else Ok
  }

  /**
   * The same checks with the end of the range checked as well, so that an
   * accepted request always lies inside the buffer.
   */
  function AccessCheck(pdrv: byte, registered: bool, sector: nat, count: nat, numSectors: nat): (r: DResult)
    ensures r == Ok <==> pdrv == 0 && registered && sector + count <= numSectors && sector < numSectors
    ensures r == NotReady <==> pdrv == 0 && !registered
    ensures r == ParErr <==> pdrv != 0 || (registered && (sector >= numSectors || sector + count > numSectors))
  {
    var w := AccessCheckAsWritten(pdrv, registered, sector, numSectors);
    if w == Ok && sector + count > numSectors then ParErr else w
  }

  /** For every request inside the volume the corrected check answers as the written one. */
  lemma AccessCheckAgreesInRange(pdrv: byte, registered: bool, sector: nat, count: nat, numSectors: nat)
    requires sector + count <= numSectors
    ensures AccessCheck(pdrv, registered, sector, count, numSectors)
         == AccessCheckAsWritten(pdrv, registered, sector, numSectors)
  {
  }

  /**
   * The written check accepts a two-sector request that starts at the last
   * sector: the copy it allows runs one sector past the end of the buffer.
   */
  lemma AsWrittenAcceptsOverrun()
    ensures AccessCheckAsWritten(0, true, NumSectors - 1, NumSectors) == Ok
    ensures (NumSectors - 1 + 2) * SectorSize > NumSectors * SectorSize
    ensures AccessCheck(0, true, NumSectors - 1, 2, NumSectors) == ParErr
  {
  }

  /** Byte offset of a sector: `sector * sector_size`. */
  function SectorOffset(sector: nat, sectorSize: nat): nat
  {
    sector * sectorSize
  }

  /** A range of whole sectors lies inside a volume of `numSectors` sectors. */
  lemma SectorSpan(sector: nat, count: nat, sectorSize: nat, numSectors: nat)
    requires sector + count <= numSectors
    ensures SectorOffset(sector, sectorSize) + count * sectorSize == SectorOffset(sector + count, sectorSize)
    ensures SectorOffset(sector + count, sectorSize) <= numSectors * sectorSize
  {
    assert (sector + count) * sectorSize == sector * sectorSize + count * sectorSize;
    assert numSectors * sectorSize == (sector + count) * sectorSize + (numSectors - sector - count) * sectorSize;
  }

  /** Sectors `[a, a+m)` and `[b, b+n)` that do not overlap have disjoint byte ranges. */
  lemma SectorsDisjoint(a: nat, m: nat, b: nat, n: nat, sectorSize: nat)
    requires a + m <= b || b + n <= a
    ensures SectorOffset(a + m, sectorSize) <= SectorOffset(b, sectorSize)
         || SectorOffset(b + n, sectorSize) <= SectorOffset(a, sectorSize)
  {
    if a + m <= b {
      assert b * sectorSize == (a + m) * sectorSize + (b - a - m) * sectorSize;
    } else {
      assert a * sectorSize == (b + n) * sectorSize + (a - b - n) * sectorSize;
    }
  }

  /** The bytes of `count` sectors from `sector`: what disk_read copies out. */
  function ReadSectors(data: seq<byte>, sectorSize: nat, sector: nat, count: nat): (r: seq<byte>)
    requires SectorOffset(sector, sectorSize) + count * sectorSize <= |data|
    ensures |r| == count * sectorSize
    ensures forall i :: 0 <= i < |r| ==> r[i] == data[SectorOffset(sector, sectorSize) + i]
  {
    var lo := SectorOffset(sector, sectorSize);
    data[lo .. lo + count * sectorSize]
  }

  /** The buffer after disk_write of `buff` from `sector`: that range replaced, the rest kept. */
  function WriteSectors(data: seq<byte>, sectorSize: nat, sector: nat, buff: seq<byte>): (r: seq<byte>)
    requires SectorOffset(sector, sectorSize) + |buff| <= |data|
    ensures |r| == |data|
    ensures forall i :: 0 <= i < |buff| ==> r[SectorOffset(sector, sectorSize) + i] == buff[i]
    ensures forall i :: 0 <= i < |data| && !(SectorOffset(sector, sectorSize) <= i < SectorOffset(sector, sectorSize) + |buff|)
                        ==> r[i] == data[i]
  {
    var lo := SectorOffset(sector, sectorSize);
    data[..lo] + buff + data[lo + |buff|..]
  }

  /** Reading back the sectors just written returns the written bytes. */
  lemma ReadAfterWrite(data: seq<byte>, sectorSize: nat, sector: nat, count: nat, buff: seq<byte>)
    requires |buff| == count * sectorSize
    requires SectorOffset(sector, sectorSize) + |buff| <= |data|
    ensures ReadSectors(WriteSectors(data, sectorSize, sector, buff), sectorSize, sector, count) == buff
  {
    var r := ReadSectors(WriteSectors(data, sectorSize, sector, buff), sectorSize, sector, count);
    assert |r| == |buff|;
    forall i | 0 <= i < |r|
      ensures r[i] == buff[i]
    {
    }
  }

  /** A write leaves every sector range it does not overlap as it was. */
  lemma WriteKeepsOtherSectors(data: seq<byte>, sectorSize: nat, numSectors: nat,
                               sector: nat, count: nat, buff: seq<byte>, other: nat, n: nat)
    requires |data| == numSectors * sectorSize
    requires |buff| == count * sectorSize
    requires sector + count <= numSectors && other + n <= numSectors
    requires sector + count <= other || other + n <= sector
    ensures SectorOffset(sector, sectorSize) + |buff| <= |data|
    ensures SectorOffset(other, sectorSize) + n * sectorSize <= |data|
    ensures ReadSectors(WriteSectors(data, sectorSize, sector, buff), sectorSize, other, n)
         == ReadSectors(data, sectorSize, other, n)
  {
    SectorSpan(sector, count, sectorSize, numSectors);
    SectorSpan(other, n, sectorSize, numSectors);
    SectorsDisjoint(sector, count, other, n, sectorSize);
    var w := WriteSectors(data, sectorSize, sector, buff);
    var a := ReadSectors(w, sectorSize, other, n);
    var b := ReadSectors(data, sectorSize, other, n);
    assert |a| == |b|;
    forall i | 0 <= i < |a|
      ensures a[i] == b[i]
    {
      assert a[i] == w[SectorOffset(other, sectorSize) + i];
    }
  }

  /** The result of the FatFS calls of fat_ramdisk_init, and whether the volume is left mounted. */
  datatype InitResult = InitResult(res: int, mounted: bool)

  /**
   * fat_ramdisk_init after the buffer is zeroed: f_mkfs, f_mount and
   * f_setlabel in turn, stopping at the first error; a failed f_setlabel
   * unmounts the volume it had mounted.
   */
  function InitEffect(mkfs: int, mount: int, setlabel: int): InitResult
  {
    if mkfs != 0 then InitResult(mkfs, false)
    else if mount != 0 then InitResult(mount, false)
    else if setlabel != 0 then InitResult(setlabel, false)
    else InitResult(0, true)
  }

  /**
   * fat_ramdisk_init returns the first error of the three FatFS calls, or 0,
   * and it leaves the FAT volume mounted exactly when it returns 0.
   */
  lemma InitMountedIffOk(mkfs: int, mount: int, setlabel: int)
    ensures InitEffect(mkfs, mount, setlabel).mounted <==> InitEffect(mkfs, mount, setlabel).res == 0
    ensures InitEffect(mkfs, mount, setlabel).res
         == (if mkfs != 0 then mkfs else if mount != 0 then mount else setlabel)
  {
  }

  /** disk_ioctl commands: CTRL_SYNC, the three GET_* queries, and any other code. */
  datatype IoctlCmd = CtrlSync | GetSectorCount | GetSectorSize | GetBlockSize | OtherCmd(code: byte)

  /** What disk_ioctl returns, and the value it stores through `buff` if any. */
  datatype IoctlResult = IoctlResult(res: DResult, out: Option<nat>)

  /**
   * The RAM disk: the static `fat_ramdisk` of usb_filesystem.c with its
   * buffer, and the driver's `__disk` pointer, which is set once
   * fat_ramdisk_init has run (`registered`).
   */
  class RamDiskDevice {
    const volumeLabel: string
    const sectorSize: nat
    const numSectors: nat
    const data: array<byte>
    var registered: bool
    var fatMounted: bool

    ghost predicate Valid()
      reads this
    {
      data.Length == sectorSize * numSectors
    }

    /** The buffer is `noinit`: its contents at start are whatever `contents` holds. */
    constructor (volumeLabel: string, sectorSize: nat, numSectors: nat, contents: seq<byte>)
      requires |contents| == sectorSize * numSectors
      ensures Valid() && fresh(data)
      ensures this.volumeLabel == volumeLabel && this.sectorSize == sectorSize && this.numSectors == numSectors
      ensures data[..] == contents && !registered && !fatMounted
    {
      this.volumeLabel := volumeLabel;
      this.sectorSize := sectorSize;
      this.numSectors := numSectors;
      data := new byte[|contents|](i requires 0 <= i < |contents| => contents[i]);
      registered := false;
      fatMounted := false;
    }

    /** fat_ramdisk.c:24-25: register the disk and zero all of its bytes. */
    method Register()
      modifies this, data
      ensures registered && fatMounted == old(fatMounted)
      ensures forall i :: 0 <= i < data.Length ==> data[i] == 0
    {
      registered := true;
      forall i | 0 <= i < data.Length {
        data[i] := 0;
      }
    }

    /**
     * fat_ramdisk_init.  The results of f_mkfs, f_mount and f_setlabel are
     * parameters, and so are the bytes of the empty FAT volume that f_mkfs
     * lays down, which FatFS computes.
     */
    method Init(mkfs: int, mount: int, setlabel: int, image: seq<byte>) returns (res: int)
      requires |image| == data.Length
      modifies this, data
      ensures registered
      ensures InitResult(res, fatMounted) == InitEffect(mkfs, mount, setlabel)
      ensures data[..] == if mkfs == 0 then image else seq(data.Length, i => 0)
    {
      Register();
      // f_mkfs invalidates whatever volume object was mounted on the drive.
      fatMounted := false;
      if mkfs != 0 {
        assert data[..] == seq(data.Length, i => 0);
        return mkfs;
      }
      forall i | 0 <= i < data.Length {
        data[i] := image[i];
      }
      assert data[..] == image;
      if mount != 0 {
        return mount;
      }
      fatMounted := true;
      if setlabel != 0 {
        fatMounted := false;
        return setlabel;
      }
      return 0;
    }

    /** disk_read: copies `count` sectors from `sector` into `buff`. */
    method DiskRead(pdrv: byte, buff: array<byte>, sector: nat, count: nat) returns (r: DResult)
      requires Valid() && buff != data
      requires AccessCheck(pdrv, registered, sector, count, numSectors) == Ok ==> count * sectorSize <= buff.Length
      modifies buff
      ensures r == AccessCheck(pdrv, registered, sector, count, numSectors)
      ensures r == Ok ==> SectorOffset(sector, sectorSize) + count * sectorSize <= data.Length
      ensures r == Ok ==> buff[..count * sectorSize] == ReadSectors(data[..], sectorSize, sector, count)
      ensures r == Ok ==> buff[count * sectorSize..] == old(buff[count * sectorSize..])
      ensures r != Ok ==> buff[..] == old(buff[..])
    {
      r := AccessCheck(pdrv, registered, sector, count, numSectors);
      if r != Ok {
        return;
      }
      SectorSpan(sector, count, sectorSize, numSectors);
      var lo := SectorOffset(sector, sectorSize);
      var n := count * sectorSize;
      forall i | 0 <= i < n {
        buff[i] := data[lo + i];
      }
      assert buff[..n] == ReadSectors(data[..], sectorSize, sector, count);
    }

    /** disk_write: copies `count` sectors of `buff` into the disk from `sector`. */
    method DiskWrite(pdrv: byte, buff: seq<byte>, sector: nat, count: nat) returns (r: DResult)
      requires Valid()
      requires AccessCheck(pdrv, registered, sector, count, numSectors) == Ok ==> count * sectorSize <= |buff|
      modifies data
      ensures r == AccessCheck(pdrv, registered, sector, count, numSectors)
      ensures r == Ok ==> SectorOffset(sector, sectorSize) + count * sectorSize <= data.Length
      ensures r == Ok ==> data[..] == WriteSectors(old(data[..]), sectorSize, sector, buff[..count * sectorSize])
      ensures r != Ok ==> data[..] == old(data[..])
    {
      r := AccessCheck(pdrv, registered, sector, count, numSectors);
      if r != Ok {
        return;
      }
      SectorSpan(sector, count, sectorSize, numSectors);
      var lo := SectorOffset(sector, sectorSize);
      var n := count * sectorSize;
      ghost var before := data[..];
      forall i | lo <= i < lo + n {
        data[i] := buff[i - lo];
      }
      assert data[..] == WriteSectors(before, sectorSize, sector, buff[..n]);
    }

    /** disk_ioctl with the get_sector_count, get_sector_size and get_block_size helpers. */
    function Ioctl(pdrv: byte, cmd: IoctlCmd): (r: IoctlResult)
      reads this
      ensures pdrv != 0 ==> r == IoctlResult(ParErr, None)
      ensures pdrv == 0 && !registered ==> r == IoctlResult(NotReady, None)
      ensures pdrv == 0 && registered ==> (r.res == Ok <==> !cmd.OtherCmd?)
      ensures r.out.Some? <==> pdrv == 0 && registered && (cmd.GetSectorCount? || cmd.GetSectorSize? || cmd.GetBlockSize?)
      ensures r.res != Ok ==> r.out == None
      ensures pdrv == 0 && registered && cmd == CtrlSync ==> r == IoctlResult(Ok, None)
      ensures pdrv == 0 && registered && cmd == GetSectorCount ==> r == IoctlResult(Ok, Some(numSectors))
      ensures pdrv == 0 && registered && cmd == GetSectorSize ==> r == IoctlResult(Ok, Some(sectorSize))
      ensures pdrv == 0 && registered && cmd == GetBlockSize ==> r == IoctlResult(Ok, Some(1))
      ensures pdrv == 0 && registered && cmd.OtherCmd? ==> r == IoctlResult(Error, None)
    {
      if pdrv != 0 then IoctlResult(ParErr, None)
      else if !registered then IoctlResult(NotReady, None)
      else match cmd
        case CtrlSync => IoctlResult(Ok, None)
        case GetSectorCount => IoctlResult(Ok, Some(numSectors))
        case GetSectorSize => IoctlResult(Ok, Some(sectorSize))
        case GetBlockSize => IoctlResult(Ok, Some(1))
        case OtherCmd(_) => IoctlResult(Error, None)
    }

    /**
     * The geometry disk_ioctl reports to FatFS covers exactly the buffer:
     * sector count times sector size is its length, in erase blocks of one
     * sector.
     */
    lemma IoctlGeometryCoversBuffer()
      requires Valid() && registered
      ensures Ioctl(0, GetSectorCount).out.Some? && Ioctl(0, GetSectorSize).out.Some?
      ensures Ioctl(0, GetSectorCount).out.value * Ioctl(0, GetSectorSize).out.value == data.Length
      ensures Ioctl(0, GetBlockSize) == IoctlResult(Ok, Some(1))
    {
    }
  }
}
