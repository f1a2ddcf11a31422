/**
 * The littlefs block device over the on-chip flash (lfs_pico_flash.c).
 *
 * Reads copy out of the execute-in-place window; program and erase are
 * bracketed by the multicore lockout (only in multicore mode) and by the
 * critical section.  The bracketing is recorded in a ghost trace whose
 * well-formedness is the object invariant.
 */
module FlashDevice {
  import opened Common

  /** littlefs geometry configured in main.c. */
  const BlockSize: nat := 4096
  const BlockCount: nat := 16
  /** FLASH_PAGE_SIZE: the program unit of the flash (also littlefs' prog_size). */
  const PageSize: nat := 256
  /** FLASH_SECTOR_SIZE: the erase unit of the flash. */
  const SectorSize: nat := 4096
  /** The value every byte of an erased sector reads as. */
  const Erased: byte := 0xFF

  /** One observable step of the driver. */
  datatype Step =
    | LockoutStart            // multicore_lockout_start_blocking
    | LockoutEnd              // multicore_lockout_end_blocking
    | CriticalEnter           // critical_section_enter_blocking
    | CriticalExit            // critical_section_exit
    | FlashProgram(offs: nat, size: nat)
    | FlashErase(offs: nat, size: nat)

  /** What is held at a point of the trace. */
  datatype Held = Held(lockout: bool, critical: bool)

  const Idle := Held(false, false)

  /**
   * Runs a trace from `h`: `None` if some step breaks the discipline.
   * The lockout is never entered twice nor changed while the critical
   * section is held; the critical section is not re-entered; flash is
   * written only inside the critical section.
   */
  function Scan(t: seq<Step>, h: Held): Option<Held>
    decreases |t|
  {
    if t == [] then Some(h)
    else
      var next: Option<Held> := match t[0]
        case LockoutStart => if !h.lockout && !h.critical then Some(h.(lockout := true)) else None
        case LockoutEnd => if h.lockout && !h.critical then Some(h.(lockout := false)) else None
        case CriticalEnter => if !h.critical then Some(h.(critical := true)) else None
        case CriticalExit => if h.critical then Some(h.(critical := false)) else None
        case FlashProgram(_, _) => if h.critical then Some(h) else None
        case FlashErase(_, _) => if h.critical then Some(h) else None;
      if next.None? then None else Scan(t[1..], next.value)
  }

  /** A trace that keeps the discipline and leaves nothing held. */
  ghost predicate WellBracketed(t: seq<Step>) {
    Scan(t, Idle) == Some(Idle)
  }

  /** Scanning a concatenation scans the first part and then the second. */
  lemma {:induction false} ScanAppend(a: seq<Step>, b: seq<Step>, h: Held)
    ensures Scan(a + b, h) == (match Scan(a, h) case None => None case Some(m) => Scan(b, m))
    decreases |a|
  {
    if a == [] {
      assert a + b == b;
    } else {
      assert (a + b)[0] == a[0];
      assert (a + b)[1..] == a[1..] + b;
      var next: Option<Held> := match a[0]
        case LockoutStart => if !h.lockout && !h.critical then Some(h.(lockout := true)) else None
        case LockoutEnd => if h.lockout && !h.critical then Some(h.(lockout := false)) else None
        case CriticalEnter => if !h.critical then Some(h.(critical := true)) else None
        case CriticalExit => if h.critical then Some(h.(critical := false)) else None
        case FlashProgram(_, _) => if h.critical then Some(h) else None
        case FlashErase(_, _) => if h.critical then Some(h) else None;
      if next.Some? {
        ScanAppend(a[1..], b, next.value);
      }
    }
  }

  /** The steps one program or erase call performs around the flash operation `op`. */
  function Bracket(multicore: bool, op: Step): seq<Step> {
    (if multicore then [LockoutStart] else [])
    + [CriticalEnter, op, CriticalExit]
    + (if multicore then [LockoutEnd] else [])
  }

  /**
   * One call's steps keep the discipline and release everything they take;
   * in multicore mode the flash operation happens while core 1 is locked
   * out, and in single-core mode no lockout step occurs.
   */
  lemma BracketIsWellBracketed(multicore: bool, op: Step)
    requires op.FlashProgram? || op.FlashErase?
    ensures WellBracketed(Bracket(multicore, op))
    ensures multicore ==> Bracket(multicore, op) == [LockoutStart, CriticalEnter, op, CriticalExit, LockoutEnd]
    ensures !multicore ==> Bracket(multicore, op) == [CriticalEnter, op, CriticalExit]
    ensures !multicore ==> LockoutStart !in Bracket(multicore, op) && LockoutEnd !in Bracket(multicore, op)
  {
    var inner := [CriticalEnter, op, CriticalExit];
    var locked := Held(true, false);
    assert Scan([], Idle) == Some(Idle);
    assert Scan([], locked) == Some(locked);
    assert Scan([LockoutEnd], locked) == Some(Idle);
    assert Scan([CriticalExit], Held(false, true)) == Some(Idle);
    assert Scan([CriticalExit, LockoutEnd], Held(true, true)) == Some(Idle);
    assert Scan([op, CriticalExit], Held(false, true)) == Some(Idle);
    assert Scan([op, CriticalExit, LockoutEnd], Held(true, true)) == Some(Idle);
    assert Scan(inner, Idle) == Some(Idle);
    var tail := [CriticalEnter, op, CriticalExit, LockoutEnd];
    assert tail[1..] == [op, CriticalExit, LockoutEnd];
    assert inner + [LockoutEnd] == tail;
    assert Scan(tail, locked) == Some(Idle);
    if multicore {
      assert Bracket(multicore, op) == [LockoutStart] + (inner + [LockoutEnd]);
    } else {
      assert Bracket(multicore, op) == inner;
    }
  }

  /** Appending a well-bracketed call to a well-bracketed trace keeps it well-bracketed. */
  lemma AppendWellBracketed(t: seq<Step>, u: seq<Step>)
    requires WellBracketed(t) && WellBracketed(u)
    ensures WellBracketed(t + u)
  {
    ScanAppend(t, u, Idle);
  }

  /** `ctx->base + block * cfg->block_size + off`. */
  function FlashOffset(base: nat, block: nat, blockSize: nat, off: nat): nat {
    base + block * blockSize + off
  }

  /** One past the last byte of the reserved region. */
  function RegionEnd(base: nat, blockCount: nat, blockSize: nat): nat {
    base + blockCount * blockSize
  }

  /** An access inside block `block` stays inside the reserved region. */
  lemma OffsetInRegion(base: nat, block: nat, blockSize: nat, blockCount: nat, off: nat, size: nat)
    requires block < blockCount && off + size <= blockSize
    ensures base + block * blockSize <= FlashOffset(base, block, blockSize, off)
    ensures FlashOffset(base, block, blockSize, off) + size <= RegionEnd(base, blockCount, blockSize)
  {
    calc {
      FlashOffset(base, block, blockSize, off) + size;
    <=
      base + block * blockSize + blockSize;
    ==  { assert block * blockSize + blockSize == (block + 1) * blockSize; }
      base + (block + 1) * blockSize;
    <=  { MulMonotone(block + 1, blockCount, blockSize); }
      RegionEnd(base, blockCount, blockSize);
    }
  }

  lemma MulMonotone(a: nat, b: nat, c: nat)
    requires a <= b
    ensures a * c <= b * c
  {
    assert b * c == a * c + (b - a) * c;
  }

  /**
   * The flash after programming `data` at `offs`: NOR programming can only
   * clear bits, so each programmed byte becomes the old byte AND the new one;
   * bytes outside `[offs, offs + |data|)` are untouched.
   */
  function Programmed(s: seq<byte>, offs: nat, data: seq<byte>): (r: seq<byte>)
    requires offs + |data| <= |s|
    ensures |r| == |s|
    ensures forall i :: 0 <= i < |s| && !(offs <= i < offs + |data|) ==> r[i] == s[i]
    ensures forall i :: 0 <= i < |data| ==> r[offs + i] == s[offs + i] & data[i]
  {
    s[..offs] + seq(|data|, j requires 0 <= j < |data| => s[offs + j] & data[j]) + s[offs + |data|..]
  }

  /** The flash after erasing `len` bytes at `offs`: those bytes read 0xFF, the rest is untouched. */
  function ErasedRange(s: seq<byte>, offs: nat, len: nat): (r: seq<byte>)
    requires offs + len <= |s|
    ensures |r| == |s|
    ensures forall i :: 0 <= i < |s| && !(offs <= i < offs + len) ==> r[i] == s[i]
    ensures forall i :: offs <= i < offs + len ==> r[i] == Erased
  {
    s[..offs] + seq(len, _ => Erased) + s[offs + len..]
  }

  /** Programming an erased range stores exactly the programmed bytes. */
  lemma ProgramAfterErase(s: seq<byte>, eoffs: nat, len: nat, offs: nat, data: seq<byte>)
    requires eoffs <= offs && offs + |data| <= eoffs + len <= |s|
    ensures Programmed(ErasedRange(s, eoffs, len), offs, data)[offs..offs + |data|] == data
  {
    var e := ErasedRange(s, eoffs, len);
    var p := Programmed(e, offs, data);
    forall i | 0 <= i < |data|
      ensures p[offs..offs + |data|][i] == data[i]
    {
      assert e[offs + i] == Erased;
      assert p[offs + i] == Erased & data[i];
    }
  }

  /** The flash driver's context (struct lfs_flash_cfg with the littlefs configuration). */
  class FlashBlockDevice {
    /** Offset of the reserved region in the flash address space. */
    const base: nat
    const blockSize: nat
    const blockCount: nat
    /** Whether core 1 runs and must be locked out during program and erase. */
    var multicore: bool
    /** The whole flash, indexed by flash offset (the XIP window). */
    const flash: array<byte>
    /** Everything the driver did to the lockout, the lock and the flash. */
    ghost var trace: seq<Step>

    ghost predicate Valid()
      reads this
    {
      && blockSize > 0
      && base % SectorSize == 0 && blockSize % SectorSize == 0
      && RegionEnd(base, blockCount, blockSize) <= flash.Length
      && WellBracketed(trace)
    }

    /**
     * The configuration of main.c: 16 blocks of 4096 bytes at the top of the
     * flash, whose contents at boot are `image`.
     */
    constructor (image: seq<byte>, multicore: bool)
      requires |image| >= BlockCount * BlockSize && |image| % SectorSize == 0
      ensures Valid() && fresh(flash)
      ensures flash[..] == image && base == |image| - BlockCount * BlockSize
      ensures blockSize == BlockSize && blockCount == BlockCount
      ensures this.multicore == multicore && trace == []
    {
      base := |image| - BlockCount * BlockSize;
      blockSize := BlockSize;
      blockCount := BlockCount;
      this.multicore := multicore;
      flash := new byte[|image|](i requires 0 <= i < |image| => image[i]);
      trace := [];
    }

    /** lfs_flash_read: copies `size` bytes of block `block` from `off`; flash is not changed. */
    method Read(block: nat, off: nat, size: nat) returns (buffer: seq<byte>, r: int)
      requires Valid()
      requires block < blockCount && off + size <= blockSize
      ensures FlashOffset(base, block, blockSize, off) + size <= flash.Length
      ensures r == 0
      ensures |buffer| == size
      ensures forall i :: 0 <= i < size ==> buffer[i] == flash[FlashOffset(base, block, blockSize, off) + i]
    {
      OffsetInRegion(base, block, blockSize, blockCount, off, size);
      var offs := FlashOffset(base, block, blockSize, off);
      buffer := flash[offs..offs + size];
      r := 0;
    }

    /**
     * lfs_flash_prog: programs `data` into block `block` at `off`.  The
     * flash primitive demands page alignment, which littlefs' prog_size of
     * 256 provides.
     */
    method Prog(block: nat, off: nat, data: seq<byte>) returns (r: int)
      requires Valid()
      requires block < blockCount && off + |data| <= blockSize
      requires off % PageSize == 0 && |data| % PageSize == 0
      modifies this, flash
      ensures FlashOffset(base, block, blockSize, off) + |data| <= flash.Length
      ensures Valid() && r == 0
      ensures multicore == old(multicore)
      ensures flash[..] == Programmed(old(flash[..]), FlashOffset(base, block, blockSize, off), data)
      ensures trace == old(trace) + Bracket(multicore, FlashProgram(FlashOffset(base, block, blockSize, off), |data|))
    {
      OffsetInRegion(base, block, blockSize, blockCount, off, |data|);
      ghost var t0 := trace;
      if multicore {
        trace := trace + [LockoutStart];
      }
      trace := trace + [CriticalEnter];
      var offs := FlashOffset(base, block, blockSize, off);
      FlashRangeProgram(offs, data);
      trace := trace + [CriticalExit];
      if multicore {
        trace := trace + [LockoutEnd];
      }
      r := 0;
      ghost var op := FlashProgram(offs, |data|);
      BracketIsWellBracketed(multicore, op);
      if multicore {
        assert trace == t0 + [LockoutStart, CriticalEnter, op, CriticalExit, LockoutEnd];
      } else {
        assert trace == t0 + [CriticalEnter, op, CriticalExit];
      }
      assert trace == t0 + Bracket(multicore, op);
      AppendWellBracketed(t0, Bracket(multicore, op));
    }

    /** lfs_flash_erase: erases the whole of block `block`. */
    method Erase(block: nat) returns (r: int)
      requires Valid()
      requires block < blockCount
      modifies this, flash
      ensures FlashOffset(base, block, blockSize, 0) + blockSize <= flash.Length
      ensures Valid() && r == 0
      ensures multicore == old(multicore)
      ensures flash[..] == ErasedRange(old(flash[..]), FlashOffset(base, block, blockSize, 0), blockSize)
      ensures trace == old(trace) + Bracket(multicore, FlashErase(FlashOffset(base, block, blockSize, 0), blockSize))
    {
      OffsetInRegion(base, block, blockSize, blockCount, 0, blockSize);
      ghost var t0 := trace;
      if multicore {
        trace := trace + [LockoutStart];
      }
      trace := trace + [CriticalEnter];
      var offs := FlashOffset(base, block, blockSize, 0);
      FlashRangeErase(offs, blockSize);
      trace := trace + [CriticalExit];
      if multicore {
        trace := trace + [LockoutEnd];
      }
      r := 0;
      ghost var op := FlashErase(offs, blockSize);
      BracketIsWellBracketed(multicore, op);
      if multicore {
        assert trace == t0 + [LockoutStart, CriticalEnter, op, CriticalExit, LockoutEnd];
      } else {
        assert trace == t0 + [CriticalEnter, op, CriticalExit];
      }
      assert trace == t0 + Bracket(multicore, op);
      AppendWellBracketed(t0, Bracket(multicore, op));
    }

    /** lfs_flash_sync: writes are synchronous, so there is nothing to do. */
    method Sync() returns (r: int)
      ensures r == 0
    {
      r := 0;
    }

    /** flash_range_program: the SDK primitive, recorded in the trace. */
    method FlashRangeProgram(offs: nat, data: seq<byte>)
      requires offs + |data| <= flash.Length
      modifies this, flash
      ensures flash[..] == Programmed(old(flash[..]), offs, data)
      ensures trace == old(trace) + [FlashProgram(offs, |data|)]
      ensures multicore == old(multicore)
    {
      forall i | offs <= i < offs + |data| {
        flash[i] := flash[i] & data[i - offs];
      }
      trace := trace + [FlashProgram(offs, |data|)];
    }

    /** flash_range_erase: the SDK primitive, recorded in the trace. */
    method FlashRangeErase(offs: nat, len: nat)
      requires offs + len <= flash.Length
      modifies this, flash
      ensures flash[..] == ErasedRange(old(flash[..]), offs, len)
      ensures trace == old(trace) + [FlashErase(offs, len)]
      ensures multicore == old(multicore)
    {
      forall i | offs <= i < offs + len {
        flash[i] := Erased;
      }
      trace := trace + [FlashErase(offs, len)];
    }
  }
}
