/**
 * The per-file part of the USB sync (usb_filesystem.c:22-123): copying one
 * open file to another in 128-byte chunks, in either direction, and
 * comparing a flash file with a FAT file chunk by chunk.  Each loop runs
 * while a 32-bit byte count `size` is not zero.
 */
module ChunkCopy {
  import opened Common
  import opened Filesystems

  /** The stack buffers of the copy and compare loops. */
  const ChunkSize: nat := 128

  type Flash = Volume<LfsErr>
  type Fat = Volume<FatErr>

  /** What a loop returns, and both volumes after it. */
  datatype Transfer = Transfer(res: int, flash: Flash, fat: Fat)

  /** `size -= n` on a `uint32_t`: wraps around below zero. */
  function Sub32(size: nat, n: nat): (r: nat)
    ensures r < U32
    ensures n <= size < U32 ==> r == size - n
  {
    (size - n) % U32
  }

  /** A file size handed on as a `uint32_t`. */
  function Size32(n: nat): (r: nat)
    ensures r < U32
    ensures n < U32 ==> r == n
  {
    n % U32
  }

  /**
   * copy_file_flash_to_fat from read position `pos` of flash file `src`,
   * appending to FAT file `dst`.  A read error is returned as is.  A read
   * of zero bytes ends the loop and the function returns 0.  A write that
   * stores fewer bytes than were read gives -1; FatFS's FRESULT is never
   * negative, so the `res < 0` test after f_write never fires and a failed
   * f_write, which stores nothing, also gives -1.
   */
  function FlashToFat(flash: Flash, src: string, pos: nat, fat: Fat, dst: string, size: nat): (t: Transfer)
    requires src in flash.files && pos <= |flash.files[src]| && dst in fat.files
    ensures t.flash.listing == flash.listing && t.flash.files == flash.files
    ensures t.fat.listing == fat.listing && dst in t.fat.files && t.fat.files == fat.files[dst := t.fat.files[dst]]
    decreases |flash.files[src]| - pos, 1
  {
    if size == 0 then Transfer(0, flash, fat)
    else
      var flash1 := Consume(flash);
      match Next(flash)
      case Failed(e) => Transfer(e, flash1, fat)
      case r =>
        var n := Moved(r, Min(ChunkSize, |flash.files[src]| - pos));
        if n == 0 then Transfer(0, flash1, fat)
        else FlashToFatWrite(flash1, src, pos, n, fat, dst, size)
  }

  /** The second half of a copy_file_flash_to_fat round: the f_write of the `n` bytes read at `pos`. */
  function FlashToFatWrite(flash: Flash, src: string, pos: nat, n: nat, fat: Fat, dst: string, size: nat): (t: Transfer)
    requires src in flash.files && 0 < n && pos + n <= |flash.files[src]| && dst in fat.files
    ensures t.flash.listing == flash.listing && t.flash.files == flash.files
    ensures t.fat.listing == fat.listing && dst in t.fat.files && t.fat.files == fat.files[dst := t.fat.files[dst]]
    decreases |flash.files[src]| - pos, 0
  {
    var (w, fat1) := WriteFile(fat, dst, flash.files[src][pos .. pos + n]);
    var nwrote := if w.Wrote? then w.count else 0;
    if nwrote != n then Transfer(-1, flash, fat1)
    else FlashToFat(flash, src, pos + n, fat1, dst, Sub32(size, n))
  }

  /**
   * copy_file_fat_to_flash from read position `pos` of FAT file `src`,
   * appending to flash file `dst`.  A failed f_read returns its FRESULT; a
   * read of zero bytes ends the loop with 0; a failed lfs_file_write returns
   * its error and a short one -1.
   */
  function FatToFlash(fat: Fat, src: string, pos: nat, flash: Flash, dst: string, size: nat): (t: Transfer)
    requires src in fat.files && pos <= |fat.files[src]| && dst in flash.files
    ensures t.fat.listing == fat.listing && t.fat.files == fat.files
    ensures t.flash.listing == flash.listing && dst in t.flash.files && t.flash.files == flash.files[dst := t.flash.files[dst]]
    decreases |fat.files[src]| - pos, 1
  {
    if size == 0 then Transfer(0, flash, fat)
    else
      var fat1 := Consume(fat);
      match Next(fat)
      case Failed(e) => Transfer(e, flash, fat1)
      case r =>
        var n := Moved(r, Min(ChunkSize, |fat.files[src]| - pos));
        if n == 0 then Transfer(0, flash, fat1)
        else FatToFlashWrite(fat1, src, pos, n, flash, dst, size)
  }

  /** The second half of a copy_file_fat_to_flash round: the lfs_file_write of the `n` bytes read at `pos`. */
  function FatToFlashWrite(fat: Fat, src: string, pos: nat, n: nat, flash: Flash, dst: string, size: nat): (t: Transfer)
    requires src in fat.files && 0 < n && pos + n <= |fat.files[src]| && dst in flash.files
    ensures t.fat.listing == fat.listing && t.fat.files == fat.files
    ensures t.flash.listing == flash.listing && dst in t.flash.files && t.flash.files == flash.files[dst := t.flash.files[dst]]
    decreases |fat.files[src]| - pos, 0
  {
    var (w, flash1) := WriteFile(flash, dst, fat.files[src][pos .. pos + n]);
    match w
    case WriteErr(e) => Transfer(e, flash1, fat)
    case Wrote(m) =>
      if m != n then Transfer(-1, flash1, fat)
      else FatToFlash(fat, src, pos + n, flash1, dst, Sub32(size, n))
  }

  /**
   * compare_files: flash file `a` from `apos` against FAT file `b` from
   * `bpos`.  A flash read error is returned as is, a zero-byte flash read
   * gives -1, a FAT read error its FRESULT negated; chunks of different
   * length or bytes give 1.
   */
  function Compare(flash: Flash, a: string, apos: nat, fat: Fat, b: string, bpos: nat, size: nat): (t: Transfer)
    requires a in flash.files && apos <= |flash.files[a]|
    requires b in fat.files && bpos <= |fat.files[b]|
    ensures t.flash.listing == flash.listing && t.flash.files == flash.files
    ensures t.fat.listing == fat.listing && t.fat.files == fat.files
    decreases |flash.files[a]| - apos, 1
  {
    if size == 0 then Transfer(0, flash, fat)
    else
      var flash1 := Consume(flash);
      match Next(flash)
      case Failed(e) => Transfer(e, flash1, fat)
      case r =>
        var n := Moved(r, Min(ChunkSize, |flash.files[a]| - apos));
        if n == 0 then Transfer(-1, flash1, fat)
        else CompareChunkWith(flash1, a, apos, n, fat, b, bpos, size)
  }

  /**
   * The second half of a compare_files round: the FAT read, and the
   * comparison of what it returned with the `n` bytes just read from the
   * flash at `apos`.
   */
  function CompareChunkWith(flash: Flash, a: string, apos: nat, n: nat, fat: Fat, b: string, bpos: nat, size: nat): (t: Transfer)
    requires a in flash.files && 0 < n && apos + n <= |flash.files[a]|
    requires b in fat.files && bpos <= |fat.files[b]|
    ensures t.flash.listing == flash.listing && t.flash.files == flash.files
    ensures t.fat.listing == fat.listing && t.fat.files == fat.files
    decreases |flash.files[a]| - apos, 0
  {
    var fat1 := Consume(fat);
    match Next(fat)
    case Failed(e) => Transfer(-(e as int), flash, fat1)
    case r =>
      var m := Moved(r, Min(ChunkSize, |fat.files[b]| - bpos));
      if n != m then Transfer(1, flash, fat1)
      else if flash.files[a][apos .. apos + n] != fat.files[b][bpos .. bpos + m] then Transfer(1, flash, fat1)
      else Compare(flash, a, apos + n, fat1, b, bpos + m, Sub32(size, n))
  }

  /** copy_file_flash_to_fat on a freshly opened source. */
  method CopyFileFlashToFat(flash: Flash, src: string, fat: Fat, dst: string, size: nat)
      returns (res: int, flashOut: Flash, fatOut: Fat)
    requires src in flash.files && dst in fat.files && size < U32
    ensures Transfer(res, flashOut, fatOut) == FlashToFat(flash, src, 0, fat, dst, size)
  {
    var left: nat, pos: nat := size, 0;
    flashOut, fatOut := flash, fat;
    while left != 0
      invariant src in flashOut.files && flashOut.files == flash.files && pos <= |flash.files[src]|
      invariant dst in fatOut.files && left < U32
      invariant FlashToFat(flash, src, 0, fat, dst, size) == FlashToFat(flashOut, src, pos, fatOut, dst, left)
      decreases |flash.files[src]| - pos
    {
      var r := ReadFile(flashOut, src, pos, ChunkSize);
      flashOut := Consume(flashOut);
      if r.ReadErr? {
        return r.err, flashOut, fatOut;
      }
      var nread := |r.bytes|;
      if nread == 0 {
        // The short-read branch records -1 and leaves the loop, but 0 is what the function returns.
        res := -1;
        break;
      }
      var wr := WriteFile(fatOut, dst, r.bytes);
      var w := wr.0;
      fatOut := wr.1;
      var nwrote := if w.Wrote? then w.count else 0;
      if nwrote != nread {
        return -1, flashOut, fatOut;
      }
      pos := pos + nread;
      left := Sub32(left, nread);
    }
    res := 0;
  }

  /** copy_file_fat_to_flash on a freshly opened source. */
  method CopyFileFatToFlash(fat: Fat, src: string, flash: Flash, dst: string, size: nat)
      returns (res: int, flashOut: Flash, fatOut: Fat)
    requires src in fat.files && dst in flash.files && size < U32
    ensures Transfer(res, flashOut, fatOut) == FatToFlash(fat, src, 0, flash, dst, size)
  {
    var left: nat, pos: nat := size, 0;
    flashOut, fatOut := flash, fat;
    while left != 0
      invariant src in fatOut.files && fatOut.files == fat.files && pos <= |fat.files[src]|
      invariant dst in flashOut.files && left < U32
      invariant FatToFlash(fat, src, 0, flash, dst, size) == FatToFlash(fatOut, src, pos, flashOut, dst, left)
      decreases |fat.files[src]| - pos
    {
      var r := ReadFile(fatOut, src, pos, ChunkSize);
      fatOut := Consume(fatOut);
      if r.ReadErr? {
        return r.err, flashOut, fatOut;
      }
      var nread := |r.bytes|;
      if nread == 0 {
        // As in the other direction: -1 is recorded, then 0 returned.
        res := -1;
        break;
      }
      var wr := WriteFile(flashOut, dst, r.bytes);
      var w := wr.0;
      flashOut := wr.1;
      if w.WriteErr? {
        return w.err, flashOut, fatOut;
      }
      if w.count != nread {
        return -1, flashOut, fatOut;
      }
      pos := pos + nread;
      left := Sub32(left, nread);
    }
    res := 0;
  }

  /** compare_files on a freshly opened pair. */
  method CompareFiles(flash: Flash, a: string, fat: Fat, b: string, size: nat)
      returns (res: int, flashOut: Flash, fatOut: Fat)
    requires a in flash.files && b in fat.files && size < U32
    ensures Transfer(res, flashOut, fatOut) == Compare(flash, a, 0, fat, b, 0, size)
  {
    var left: nat, pos: nat := size, 0;
    flashOut, fatOut := flash, fat;
    while left != 0
      invariant a in flashOut.files && flashOut.files == flash.files && pos <= |flash.files[a]|
      invariant b in fatOut.files && fatOut.files == fat.files && pos <= |fat.files[b]|
      invariant left < U32
      invariant Compare(flash, a, 0, fat, b, 0, size) == Compare(flashOut, a, pos, fatOut, b, pos, left)
      decreases |flash.files[a]| - pos
    {
      var done, n;
      done, res, n, flashOut, fatOut := CompareChunk(flashOut, a, pos, fatOut, b, left);
      if done {
        return;
      }
      pos := pos + n;
      left := Sub32(left, n);
    }
    res := 0;
  }

  /**
   * One round of the compare_files loop: both reads and the comparison of
   * what they returned.  Either the round settles the comparison with
   * `res`, or both files agree on the next `n > 0` bytes and the
   * comparison goes on from there.
   */
  method CompareChunk(flash: Flash, a: string, pos: nat, fat: Fat, b: string, left: nat)
      returns (done: bool, res: int, n: nat, flashOut: Flash, fatOut: Fat)
    requires a in flash.files && pos <= |flash.files[a]|
    requires b in fat.files && pos <= |fat.files[b]| && left != 0
    ensures flashOut.files == flash.files && fatOut.files == fat.files
    ensures done ==> Transfer(res, flashOut, fatOut) == Compare(flash, a, pos, fat, b, pos, left)
    ensures !done ==> && 0 < n && pos + n <= |flash.files[a]| && pos + n <= |fat.files[b]|
                      && Compare(flash, a, pos, fat, b, pos, left)
                         == Compare(flashOut, a, pos + n, fatOut, b, pos + n, Sub32(left, n))
  {
    var ra := ReadFile(flash, a, pos, ChunkSize);
    flashOut, fatOut := Consume(flash), fat;
    done, n := true, 0;
    if ra.ReadErr? {
      return done, ra.err, n, flashOut, fatOut;
    }
    if |ra.bytes| == 0 {
      return done, -1, n, flashOut, fatOut;
    }
    var rb := ReadFile(fat, b, pos, ChunkSize);
    fatOut := Consume(fat);
    if rb.ReadErr? {
      return done, -(rb.err as int), n, flashOut, fatOut;
    }
    if |ra.bytes| != |rb.bytes| {
      // Chunked differently: taken as different.
      return done, 1, n, flashOut, fatOut;
    }
    if ra.bytes != rb.bytes {
      return done, 1, n, flashOut, fatOut;
    }
    done, res, n := false, 0, |ra.bytes|;
  }

  /** Appending the empty sequence to a file changes no file. */
  lemma AppendNothing<E>(v: Volume<E>, name: string)
    requires name in v.files
    ensures v.files[name := v.files[name] + []] == v.files
  {
    assert v.files[name] + [] == v.files[name];
  }

  /** One clean round of copy_file_flash_to_fat: a full chunk read, then written in full. */
  lemma FlashToFatStep(flash: Flash, src: string, pos: nat, fat: Fat, dst: string, size: nat)
    requires src in flash.files && pos < |flash.files[src]| && dst in fat.files && size > 0
    requires Clean(flash) && Clean(fat)
    ensures var n := Min(ChunkSize, |flash.files[src]| - pos);
      var buf := flash.files[src][pos .. pos + n];
      && n > 0 && WriteFile(fat, dst, buf).1.files == fat.files[dst := fat.files[dst] + buf]
      && FlashToFat(flash, src, pos, fat, dst, size)
         == FlashToFat(Consume(flash), src, pos + n, WriteFile(fat, dst, buf).1, dst, Sub32(size, n))
  {
    CleanNext(flash);
    CleanNext(fat);
    var n := Min(ChunkSize, |flash.files[src]| - pos);
    var buf := flash.files[src][pos .. pos + n];
    assert buf[..n] == buf;
  }

  /** One clean round of copy_file_fat_to_flash. */
  lemma FatToFlashStep(fat: Fat, src: string, pos: nat, flash: Flash, dst: string, size: nat)
    requires src in fat.files && pos < |fat.files[src]| && dst in flash.files && size > 0
    requires Clean(flash) && Clean(fat)
    ensures var n := Min(ChunkSize, |fat.files[src]| - pos);
      var buf := fat.files[src][pos .. pos + n];
      && n > 0 && WriteFile(flash, dst, buf).1.files == flash.files[dst := flash.files[dst] + buf]
      && FatToFlash(fat, src, pos, flash, dst, size)
         == FatToFlash(Consume(fat), src, pos + n, WriteFile(flash, dst, buf).1, dst, Sub32(size, n))
  {
    CleanNext(flash);
    CleanNext(fat);
    var n := Min(ChunkSize, |fat.files[src]| - pos);
    var buf := fat.files[src][pos .. pos + n];
    assert buf[..n] == buf;
  }

  /** Appending one chunk and then the rest is appending the whole rest. */
  lemma AppendChunk(x: seq<byte>, data: seq<byte>, pos: nat, n: nat)
    requires pos + n <= |data|
    ensures x + data[pos .. pos + n] + data[pos + n..] == x + data[pos..]
  {
    assert data[pos .. pos + n] + data[pos + n..] == data[pos..];
  }

  /** copy_file_flash_to_fat at the end of its source: nothing more is copied. */
  lemma FlashToFatAtEnd(flash: Flash, src: string, pos: nat, fat: Fat, dst: string, size: nat)
    requires src in flash.files && pos == |flash.files[src]| && dst in fat.files
    requires Clean(flash)
    ensures var t := FlashToFat(flash, src, pos, fat, dst, size);
      && t.res == 0 && t.flash.files == flash.files
      && t.fat.files == fat.files[dst := fat.files[dst] + flash.files[src][pos..]]
  {
    assert flash.files[src][pos..] == [];
    AppendNothing(fat, dst);
    CleanNext(flash);
  }

  /** copy_file_fat_to_flash at the end of its source. */
  lemma FatToFlashAtEnd(fat: Fat, src: string, pos: nat, flash: Flash, dst: string, size: nat)
    requires src in fat.files && pos == |fat.files[src]| && dst in flash.files
    requires Clean(fat)
    ensures var t := FatToFlash(fat, src, pos, flash, dst, size);
      && t.res == 0 && t.fat.files == fat.files
      && t.flash.files == flash.files[dst := flash.files[dst] + fat.files[src][pos..]]
  {
    assert fat.files[src][pos..] == [];
    AppendNothing(flash, dst);
    CleanNext(fat);
  }

  /**
   * With no failing call, copy_file_flash_to_fat returns 0 and appends the
   * rest of the source to the destination whenever `size` is at least what
   * is left of the source: all of it when `size` is the file's size, and
   * also when the file is shorter than `size`, where the zero-byte read
   * ends the copy early and still reports success.
   */
  lemma {:induction false} FlashToFatCopiesRest(flash: Flash, src: string, pos: nat, fat: Fat, dst: string, size: nat)
    requires src in flash.files && pos <= |flash.files[src]| && dst in fat.files
    requires Clean(flash) && Clean(fat)
    requires |flash.files[src]| - pos <= size < U32
    ensures var t := FlashToFat(flash, src, pos, fat, dst, size);
      && t.res == 0 && Clean(t.flash) && Clean(t.fat)
      && t.fat.files == fat.files[dst := fat.files[dst] + flash.files[src][pos..]]
    decreases |flash.files[src]| - pos
  {
    var data := flash.files[src];
    if pos == |data| {
      FlashToFatAtEnd(flash, src, pos, fat, dst, size);
      return;
    }
    FlashToFatStep(flash, src, pos, fat, dst, size);
    var n := Min(ChunkSize, |data| - pos);
    var fat1 := WriteFile(fat, dst, data[pos .. pos + n]).1;
    CleanNext(flash);
    CleanNext(fat);
    FlashToFatCopiesRest(Consume(flash), src, pos + n, fat1, dst, Sub32(size, n));
    AppendChunk(fat.files[dst], data, pos, n);
  }

  /** The same for copy_file_fat_to_flash, from FAT to flash. */
  lemma {:induction false} FatToFlashCopiesRest(fat: Fat, src: string, pos: nat, flash: Flash, dst: string, size: nat)
    requires src in fat.files && pos <= |fat.files[src]| && dst in flash.files
    requires Clean(flash) && Clean(fat)
    requires |fat.files[src]| - pos <= size < U32
    ensures var t := FatToFlash(fat, src, pos, flash, dst, size);
      && t.res == 0 && Clean(t.flash) && Clean(t.fat)
      && t.flash.files == flash.files[dst := flash.files[dst] + fat.files[src][pos..]]
    decreases |fat.files[src]| - pos
  {
    var data := fat.files[src];
    if pos == |data| {
      FatToFlashAtEnd(fat, src, pos, flash, dst, size);
      return;
    }
    FatToFlashStep(fat, src, pos, flash, dst, size);
    var n := Min(ChunkSize, |data| - pos);
    var flash1 := WriteFile(flash, dst, data[pos .. pos + n]).1;
    CleanNext(fat);
    CleanNext(flash);
    FatToFlashCopiesRest(Consume(fat), src, pos + n, flash1, dst, Sub32(size, n));
    AppendChunk(flash.files[dst], data, pos, n);
  }

  /**
   * copy_file_flash_to_fat gives -1 when a chunk read in full is then
   * written short or not at all, and returns a flash read error as is.
   */
  lemma FlashToFatFailures(flash: Flash, src: string, pos: nat, fat: Fat, dst: string, size: nat)
    requires src in flash.files && pos < |flash.files[src]| && dst in fat.files && size > 0
    ensures Next(flash).Failed? ==> FlashToFat(flash, src, pos, fat, dst, size).res == Next(flash).err
    ensures Next(flash) == Full && (Next(fat).Failed? || (Next(fat).Short? && Next(fat).count < Min(ChunkSize, |flash.files[src]| - pos)))
            ==> FlashToFat(flash, src, pos, fat, dst, size).res == -1
  {
  }

  /**
   * copy_file_fat_to_flash returns an f_read error as is, an
   * lfs_file_write error as is, and -1 for a write that comes up short.
   */
  lemma FatToFlashFailures(fat: Fat, src: string, pos: nat, flash: Flash, dst: string, size: nat)
    requires src in fat.files && pos < |fat.files[src]| && dst in flash.files && size > 0
    ensures Next(fat).Failed? ==> FatToFlash(fat, src, pos, flash, dst, size).res == Next(fat).err
    ensures Next(fat) == Full && Next(flash).Failed?
            ==> FatToFlash(fat, src, pos, flash, dst, size).res == Next(flash).err
    ensures Next(fat) == Full && Next(flash).Short? && Next(flash).count < Min(ChunkSize, |fat.files[src]| - pos)
            ==> FatToFlash(fat, src, pos, flash, dst, size).res == -1
  {
  }

  /** `p` plus less than a chunk is not a whole number of chunks when `p` is. */
  lemma PartChunk(p: nat, k: nat)
    requires p % ChunkSize == 0 && 0 < k < ChunkSize
    ensures (p + k) % ChunkSize == k
  {
    assert p == (p / ChunkSize) * ChunkSize;
    assert p + k == (p / ChunkSize) * ChunkSize + k;
  }

  /**
   * What compare_files concludes about flash contents `A` and FAT contents
   * `B` when no call fails, stated on the contents alone: 0 ("the same")
   * when `B` is a prefix of `A` that is all of `A` or a whole number of
   * chunks long, so an emptied FAT file counts as the same as any flash
   * file; -1 (an error) when `A` is a proper prefix of `B` a whole number
   * of chunks long, because the flash read then comes back empty; 1
   * ("different") otherwise.
   */
  function CleanVerdict(A: seq<byte>, B: seq<byte>): (r: int)
    ensures r == 0 || r == -1 || r == 1
    ensures r == 0 ==> B <= A
    ensures A == B ==> r == 0
  {
    if B <= A && (|A| == |B| || |B| % ChunkSize == 0) then 0
    else if A < B && |A| % ChunkSize == 0 then -1
    else 1
  }

  /** Both files hold a further whole chunk from `p`, the same in both. */
  predicate SameNextChunk(A: seq<byte>, B: seq<byte>, p: nat)
  {
    p + ChunkSize <= |A| && p + ChunkSize <= |B| && A[p .. p + ChunkSize] == B[p .. p + ChunkSize]
  }

  /**
   * CleanVerdict decided one round at a time from a common chunk boundary
   * `p`: the end of `B`, the end of `A`, chunks that differ in length or
   * bytes, and a last equal chunk each settle it; a whole equal chunk
   * moves the common boundary on.
   */
  lemma VerdictRound(A: seq<byte>, B: seq<byte>, p: nat)
    requires p <= |A| && p <= |B| && p % ChunkSize == 0 && A[..p] == B[..p]
    ensures |B| == p ==> CleanVerdict(A, B) == 0
    ensures |A| == p < |B| ==> CleanVerdict(A, B) == -1
    ensures p < |A| && p < |B| ==>
      var n, m := Min(ChunkSize, |A| - p), Min(ChunkSize, |B| - p);
      && (n != m || A[p .. p + n] != B[p .. p + m] ==> CleanVerdict(A, B) == 1)
      && (n == m && A[p .. p + n] == B[p .. p + m] && n < ChunkSize ==> |A| == |B| == p + n && CleanVerdict(A, B) == 0)
      && (n == m && A[p .. p + n] == B[p .. p + m] && n == ChunkSize <==> SameNextChunk(A, B, p))
    ensures SameNextChunk(A, B, p) ==> A[..p + ChunkSize] == B[..p + ChunkSize] && (p + ChunkSize) % ChunkSize == 0
  {
    if |B| == p {
      assert B == B[..p] == A[..p];
    } else if |A| == p {
      assert A == A[..p] == B[..p];
    } else {
      var n, m := Min(ChunkSize, |A| - p), Min(ChunkSize, |B| - p);
      if n != m {
        if B <= A {
          PartChunk(p, |B| - p);
        }
        if A < B {
          PartChunk(p, |A| - p);
        }
      } else if A[p .. p + n] == B[p .. p + m] {
        assert A[..p + n] == A[..p] + A[p .. p + n] && B[..p + n] == B[..p] + B[p .. p + n];
        if n < ChunkSize {
          assert A == A[..p + n] && B == B[..p + n];
        }
      }
    }
  }

  /**
   * compare_files from a common position `p` when no call fails, on the
   * contents `A` and `B` alone: every read returns a whole chunk or the
   * rest of its file.
   */
  function CleanCompare(A: seq<byte>, B: seq<byte>, p: nat, size: nat): (r: int)
    requires p <= |A| && p <= |B|
    ensures r == 0 || r == -1 || r == 1
    decreases |A| - p
  {
    if size == 0 then 0
    else
      var n, m := Min(ChunkSize, |A| - p), Min(ChunkSize, |B| - p);
      if n == 0 then -1
      else if n != m || A[p .. p + n] != B[p .. p + m] then 1
      else CleanCompare(A, B, p + n, Sub32(size, n))
  }

  /** With no failing call, compare_files depends on the two contents only. */
  lemma {:induction false} CompareCleanContents(flash: Flash, a: string, fat: Fat, b: string, p: nat, size: nat)
    requires Clean(flash) && Clean(fat) && a in flash.files && b in fat.files
    requires p <= |flash.files[a]| && p <= |fat.files[b]|
    ensures var t := Compare(flash, a, p, fat, b, p, size);
      t.res == CleanCompare(flash.files[a], fat.files[b], p, size) && Clean(t.flash) && Clean(t.fat)
    decreases |flash.files[a]| - p
  {
    if size != 0 {
      CleanNext(flash);
      CleanNext(fat);
      var n := Min(ChunkSize, |flash.files[a]| - p);
      if n != 0 && n == Min(ChunkSize, |fat.files[b]| - p) {
        CompareCleanContents(Consume(flash), a, Consume(fat), b, p + n, Sub32(size, n));
      }
    }
  }

  /**
   * Over the FAT file's size, the chunk-by-chunk comparison from a common
   * chunk boundary `p`, up to which the contents agree, is CleanVerdict.
   */
  lemma {:induction false} CleanCompareVerdict(A: seq<byte>, B: seq<byte>, p: nat)
    requires p <= |A| && p <= |B| < U32 && p % ChunkSize == 0 && A[..p] == B[..p]
    ensures CleanCompare(A, B, p, |B| - p) == CleanVerdict(A, B)
    decreases |A| - p
  {
    VerdictRound(A, B, p);
    if |B| != p && |A| != p {
      var n, m := Min(ChunkSize, |A| - p), Min(ChunkSize, |B| - p);
      if n == m && A[p .. p + n] == B[p .. p + m] {
        assert Sub32(|B| - p, n) == |B| - (p + n);
        if n == ChunkSize {
          CleanCompareVerdict(A, B, p + n);
        }
      }
    }
  }

  /**
   * With no failing call, compare_files over the FAT file's size gives
   * CleanVerdict of the two contents.
   */
  lemma CompareClean(flash: Flash, a: string, fat: Fat, b: string)
    requires Clean(flash) && Clean(fat) && a in flash.files && b in fat.files && |fat.files[b]| < U32
    ensures var t := Compare(flash, a, 0, fat, b, 0, |fat.files[b]|);
      t.res == CleanVerdict(flash.files[a], fat.files[b]) && Clean(t.flash) && Clean(t.fat)
  {
    var A, B := flash.files[a], fat.files[b];
    assert A[..0] == B[..0];
    CompareCleanContents(flash, a, fat, b, 0, |B|);
    CleanCompareVerdict(A, B, 0);
  }

  /**
   * compare_files as written reports a FAT file cut back to a whole number
   * of chunks of the flash file (emptied, say) as the same, so the change
   * is not synced back.
   */
  lemma CompareMissesTruncation(flash: Flash, a: string, fat: Fat, b: string)
    requires Clean(flash) && Clean(fat) && a in flash.files && b in fat.files
    requires fat.files[b] < flash.files[a] && |fat.files[b]| % ChunkSize == 0 && |flash.files[a]| < U32
    ensures flash.files[a] != fat.files[b]
    ensures Compare(flash, a, 0, fat, b, 0, |fat.files[b]|).res == 0
  {
    CompareClean(flash, a, fat, b);
  }

  /**
   * compare_files as written fails with -1 when the flash file is a whole
   * number of chunks (empty, say) and the FAT file extends it: the flash
   * read comes back empty before the FAT size is used up.
   */
  lemma CompareFailsOnGrowth(flash: Flash, a: string, fat: Fat, b: string)
    requires Clean(flash) && Clean(fat) && a in flash.files && b in fat.files
    requires flash.files[a] < fat.files[b] && |fat.files[b]| < U32
    requires |flash.files[a]| % ChunkSize == 0
    ensures Compare(flash, a, 0, fat, b, 0, |fat.files[b]|).res == -1
  {
    CompareClean(flash, a, fat, b);
  }

  /**
   * compare_files as intended: files of different sizes differ, and files
   * of the same size are compared chunk by chunk.  The flash file's size
   * is known without a call that can fail.
   */
  function CompareSized(flash: Flash, a: string, fat: Fat, b: string): (t: Transfer)
    requires a in flash.files && b in fat.files
    ensures t.flash.listing == flash.listing && t.flash.files == flash.files
    ensures t.fat.listing == fat.listing && t.fat.files == fat.files
    ensures |flash.files[a]| != |fat.files[b]| ==> t.res == 1
  {
    if |flash.files[a]| != |fat.files[b]| then Transfer(1, flash, fat)
    else Compare(flash, a, 0, fat, b, 0, Size32(|fat.files[b]|))
  }

  /** With no failing call, the corrected comparison says "the same" exactly when the contents are equal. */
  lemma CompareSizedClean(flash: Flash, a: string, fat: Fat, b: string)
    requires Clean(flash) && Clean(fat) && a in flash.files && b in fat.files && |fat.files[b]| < U32
    ensures var t := CompareSized(flash, a, fat, b);
      && (t.res == 0 || t.res == 1) && (t.res == 0 <==> flash.files[a] == fat.files[b])
      && Clean(t.flash) && Clean(t.fat)
  {
    if |flash.files[a]| == |fat.files[b]| {
      CompareClean(flash, a, fat, b);
      if fat.files[b] <= flash.files[a] {
        assert fat.files[b] == flash.files[a];
      }
    }
  }

  /**
   * A file copied to the FAT volume by copy_file_flash_to_fat and left
   * unchanged there compares equal to its flash original, so the return
   * sync does not rewrite it.
   */
  lemma UneditedCopyComparesSame(flash: Flash, name: string, fat: Fat)
    requires Clean(flash) && Clean(fat) && name in flash.files && name in fat.files
    requires fat.files[name] == [] && |flash.files[name]| < U32
    ensures var t := FlashToFat(flash, name, 0, fat, name, |flash.files[name]|);
      && name in t.fat.files && t.fat.files[name] == flash.files[name]
      && Compare(t.flash, name, 0, t.fat, name, 0, |t.fat.files[name]|).res == 0
  {
    var t := FlashToFat(flash, name, 0, fat, name, |flash.files[name]|);
    FlashToFatCopiesRest(flash, name, 0, fat, name, |flash.files[name]|);
    assert flash.files[name][0..] == flash.files[name];
    CompareClean(t.flash, name, t.fat, name);
  }
}
