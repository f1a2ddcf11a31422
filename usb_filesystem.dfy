/**
 * The sync engine of the USB mass-storage mode.  When USB connects,
 * prepare_usb_filesystem formats the FAT RAM disk and copy_flash_to_fat
 * fills it with every regular file of the flash's root directory.  When
 * USB disconnects, do_flash_update mounts the FAT disk again and
 * copy_fat_to_flash writes back every FAT file that differs from its
 * flash namesake.  Both directions walk the root directory only, and
 * neither ever deletes a file.
 *
 * Each operation is a function over the two volumes (the specification)
 * and a method with the source's loop, proved to compute that function.
 */
module UsbFilesystem {
  import opened Common
  import opened Filesystems
  import opened ChunkCopy

  /** The RAM disk the host sees: 128 sectors of 512 bytes. */
  const FatSectorSize := 512
  const FatNumSectors := 128

  /** One file's turn in a directory loop; `ok` when the loop goes on to the next entry. */
  datatype Round = Round(ok: bool, flash: Flash, fat: Fat)

  // ---------------------------------------------------------------------
  // copy_flash_to_fat
  // ---------------------------------------------------------------------

  /**
   * One regular file of the flash copied to the FAT disk: lfs_file_open,
   * f_open with FA_CREATE_ALWAYS, copy_file_flash_to_fat over the file's
   * size, then lfs_file_close and f_close.  Every path after a successful
   * f_open closes both files; the loop goes on only when the copy and both
   * closes succeed.
   */
  function SyncOneToFat(flash: Flash, fat: Fat, name: string): (r: Round)
    ensures r.flash.listing == flash.listing && r.flash.files == flash.files
    ensures r.fat.files == fat.files || (name in r.fat.files && r.fat.files == fat.files[name := r.fat.files[name]])
  {
    var flash1 := Consume(flash);
    if OpenRead(flash, name, LfsErrNoEnt).Some? then Round(false, flash1, fat)
    else
      var (fo, fat1) := Create(fat, name);
      if fo.Some? then Round(false, Consume(flash1), fat1)
      else
        var t := FlashToFat(flash1, name, 0, fat1, name, Size32(|flash.files[name]|));
        // lfs_file_close and f_close are made on every path; after a failed
        // copy their results are not looked at.
        Round(t.res == 0 && Status(t.flash).None? && Status(t.fat).None?, Consume(t.flash), Consume(t.fat))
  }

  /**
   * The directory loop of copy_flash_to_fat from entry `i`, ending with
   * lfs_dir_close.  Directories are skipped.  A directory read error, and
   * any break out of the loop (when lfs_dir_read's last result is
   * positive), give -1; the end of the directory gives 0, because `res`
   * then holds the 0 of lfs_dir_open or of the last f_close.
   */
  function SyncEntriesToFat(flash: Flash, fat: Fat, i: nat): (t: Transfer)
    ensures t.flash.listing == flash.listing && t.flash.files == flash.files
    decreases |flash.listing| - i
  {
    var flash1 := Consume(flash);
    match ReadDir(flash, i)
    case DirErr(_) => Transfer(-1, Consume(flash1), fat)
    case DirEnd => Transfer(0, Consume(flash1), fat)
    case DirItem(e) =>
      if e.isDir then SyncEntriesToFat(flash1, fat, i + 1)
      else
        var r := SyncOneToFat(flash1, fat, e.name);
        if r.ok then SyncEntriesToFat(r.flash, r.fat, i + 1)
        else Transfer(-1, Consume(r.flash), r.fat)
  }

  /** copy_flash_to_fat: a failed lfs_dir_open is returned as is. */
  function SyncToFat(flash: Flash, fat: Fat): (t: Transfer)
    ensures t.flash.listing == flash.listing && t.flash.files == flash.files
  {
    match Status(flash)
    case Some(e) => Transfer(e, Consume(flash), fat)
    case None => SyncEntriesToFat(Consume(flash), fat, 0)
  }

  /** One regular file's turn in copy_flash_to_fat. */
  method CopyOneToFat(flash: Flash, fat: Fat, name: string) returns (ok: bool, flashOut: Flash, fatOut: Fat)
    ensures Round(ok, flashOut, fatOut) == SyncOneToFat(flash, fat, name)
  {
    flashOut, fatOut := Consume(flash), fat;
    if OpenRead(flash, name, LfsErrNoEnt).Some? {
      return false, flashOut, fatOut;
    }
    var created := Create(fat, name);
    fatOut := created.1;
    if created.0.Some? {
      return false, Consume(flashOut), fatOut;
    }
    var res;
    res, flashOut, fatOut := CopyFileFlashToFat(flashOut, name, fatOut, name, Size32(|flash.files[name]|));
    var lfsClose, fClose := Status(flashOut), Status(fatOut);
    flashOut, fatOut := Consume(flashOut), Consume(fatOut);
    ok := res == 0 && lfsClose.None? && fClose.None?;
  }

  /** copy_flash_to_fat, with its directory loop. */
  method CopyFlashToFat(flash: Flash, fat: Fat) returns (res: int, flashOut: Flash, fatOut: Fat)
    ensures Transfer(res, flashOut, fatOut) == SyncToFat(flash, fat)
  {
    match Status(flash) {
      case Some(e) =>
        return e, Consume(flash), fat;
      case None =>
    }
    flashOut, fatOut := Consume(flash), fat;
    var i: nat := 0;
    var dirRes: int;
    while true
      invariant flashOut.listing == flash.listing
      invariant SyncToFat(flash, fat) == SyncEntriesToFat(flashOut, fatOut, i)
      decreases |flash.listing| - i
    {
      var d := ReadDir(flashOut, i);
      flashOut := Consume(flashOut);
      if d.DirErr? {
        dirRes := -1;
        break;
      }
      if d.DirEnd? {
        dirRes := 0;
        break;
      }
      i := i + 1;
      if d.entry.isDir {
        continue;
      }
      var ok;
      ok, flashOut, fatOut := CopyOneToFat(flashOut, fatOut, d.entry.name);
      if !ok {
        // lfs_dir_read's last result, still positive.
        dirRes := 1;
        break;
      }
    }
    flashOut := Consume(flashOut);
    res := if dirRes != 0 then -1 else 0;
  }

  // ---------------------------------------------------------------------
  // copy_fat_to_flash
  // ---------------------------------------------------------------------

  /**
   * The write-back half of copy_fat_to_flash's turn for `name`, with the
   * FAT file open and at its start: lfs_file_open with LFS_O_CREAT and
   * LFS_O_TRUNC, copy_file_fat_to_flash over the FAT file's size, then
   * lfs_file_close and f_close.
   */
  function WriteBackToFlash(flash: Flash, fat: Fat, name: string): (r: Round)
    requires name in fat.files
    ensures r.fat.listing == fat.listing && r.fat.files == fat.files
    ensures r.flash.files == flash.files || (name in r.flash.files && r.flash.files == flash.files[name := r.flash.files[name]])
  {
    var (fo, flash1) := Create(flash, name);
    if fo.Some? then Round(false, flash1, Consume(fat))
    else
      var t := FatToFlash(fat, name, 0, flash1, name, Size32(|fat.files[name]|));
      Round(t.res == 0 && Status(t.flash).None? && Status(t.fat).None?, Consume(t.flash), Consume(t.fat))
  }

  /**
   * The comparison in copy_fat_to_flash's turn for `name`, on the two open
   * files.  With `sized` false it is compare_files over the FAT file's
   * size, as written; with `sized` true it is the corrected comparison
   * CompareSized, which first compares the sizes.
   */
  function CompareForSync(flash: Flash, fat: Fat, name: string, sized: bool): (c: Transfer)
    requires name in flash.files && name in fat.files
    ensures c.flash.listing == flash.listing && c.flash.files == flash.files
    ensures c.fat.listing == fat.listing && c.fat.files == fat.files
  {
    if sized then CompareSized(flash, name, fat, name)
    else Compare(flash, name, 0, fat, name, 0, Size32(|fat.files[name]|))
  }

  /**
   * One regular FAT file's turn in copy_fat_to_flash: f_open for reading;
   * when the flash has the file, compare the two, always closing the flash
   * file: an error breaks the loop, "the same" moves on to the next entry,
   * "different" rewinds the FAT file and writes it back.  When the flash
   * file cannot be opened it is written back outright.
   */
  function SyncOneToFlash(flash: Flash, fat: Fat, name: string, sized: bool): (r: Round)
    ensures r.fat.listing == fat.listing && r.fat.files == fat.files
    ensures r.flash.files == flash.files || (name in r.flash.files && r.flash.files == flash.files[name := r.flash.files[name]])
  {
    if OpenRead(fat, name, FrNoFile).Some? then Round(false, flash, Consume(fat))
    else
      var fat1, flash1 := Consume(fat), Consume(flash);
      if OpenRead(flash, name, LfsErrNoEnt).Some? then WriteBackToFlash(flash1, fat1, name)
      else
        var c := CompareForSync(flash1, fat1, name, sized);
        var flash2 := Consume(c.flash);
        if c.res < 0 then Round(false, flash2, Consume(c.fat))
        else if c.res == 0 then Round(true, flash2, Consume(c.fat))
        else if Status(c.fat).Some? then Round(false, flash2, Consume(Consume(c.fat)))
        else WriteBackToFlash(flash2, Consume(c.fat), name)
  }

  /**
   * The directory loop of copy_fat_to_flash from entry `i`, ending with
   * f_closedir.  Every break out of the loop leaves a nonzero `res` and
   * gives -1; the end of the directory gives 0.
   */
  function SyncEntriesToFlash(flash: Flash, fat: Fat, i: nat, sized: bool): (t: Transfer)
    ensures t.fat.listing == fat.listing && t.fat.files == fat.files
    decreases |fat.listing| - i
  {
    var fat1 := Consume(fat);
    match ReadDir(fat, i)
    case DirErr(_) => Transfer(-1, flash, Consume(fat1))
    case DirEnd => Transfer(0, flash, Consume(fat1))
    case DirItem(e) =>
      if e.isDir then SyncEntriesToFlash(flash, fat1, i + 1, sized)
      else
        var r := SyncOneToFlash(flash, fat1, e.name, sized);
        if r.ok then SyncEntriesToFlash(r.flash, r.fat, i + 1, sized)
        else Transfer(-1, r.flash, Consume(r.fat))
  }

  /** copy_fat_to_flash: a failed f_opendir returns its FRESULT. */
  function SyncToFlash(flash: Flash, fat: Fat, sized: bool): (t: Transfer)
    ensures t.fat.listing == fat.listing && t.fat.files == fat.files
  {
    match Status(fat)
    case Some(e) => Transfer(e, flash, Consume(fat))
    case None => SyncEntriesToFlash(flash, Consume(fat), 0, sized)
  }

  /** The write-back half of one FAT file's turn in copy_fat_to_flash. */
  method WriteBackFile(flash: Flash, fat: Fat, name: string) returns (ok: bool, flashOut: Flash, fatOut: Fat)
    requires name in fat.files
    ensures Round(ok, flashOut, fatOut) == WriteBackToFlash(flash, fat, name)
  {
    var created := Create(flash, name);
    flashOut, fatOut := created.1, fat;
    if created.0.Some? {
      return false, flashOut, Consume(fatOut);
    }
    var res;
    res, flashOut, fatOut := CopyFileFatToFlash(fatOut, name, flashOut, name, Size32(|fat.files[name]|));
    var lfsClose, fClose := Status(flashOut), Status(fatOut);
    flashOut, fatOut := Consume(flashOut), Consume(fatOut);
    ok := res == 0 && lfsClose.None? && fClose.None?;
  }

  /**
   * One regular FAT file's turn in copy_fat_to_flash; `sized` selects the
   * corrected comparison, as in SyncOneToFlash.
   */
  method SyncFileToFlash(flash: Flash, fat: Fat, name: string, sized: bool) returns (ok: bool, flashOut: Flash, fatOut: Fat)
    ensures Round(ok, flashOut, fatOut) == SyncOneToFlash(flash, fat, name, sized)
  {
    if OpenRead(fat, name, FrNoFile).Some? {
      return false, flash, Consume(fat);
    }
    flashOut, fatOut := Consume(flash), Consume(fat);
    if OpenRead(flash, name, LfsErrNoEnt).Some? {
      ok, flashOut, fatOut := WriteBackFile(flashOut, fatOut, name);
      return;
    }
    var res: int;
    if sized && |flashOut.files[name]| != |fatOut.files[name]| {
      res := 1;
    } else {
      res, flashOut, fatOut := CompareFiles(flashOut, name, fatOut, name, Size32(|fat.files[name]|));
    }
    flashOut := Consume(flashOut);
    if res < 0 {
      return false, flashOut, Consume(fatOut);
    }
    if res == 0 {
      return true, flashOut, Consume(fatOut);
    }
    if Status(fatOut).Some? {
      return false, flashOut, Consume(Consume(fatOut));
    }
    ok, flashOut, fatOut := WriteBackFile(flashOut, Consume(fatOut), name);
  }

  /** copy_fat_to_flash, with its directory loop. */
  method CopyFatToFlash(flash: Flash, fat: Fat, sized: bool) returns (res: int, flashOut: Flash, fatOut: Fat)
    ensures Transfer(res, flashOut, fatOut) == SyncToFlash(flash, fat, sized)
  {
    match Status(fat) {
      case Some(e) =>
        return e, flash, Consume(fat);
      case None =>
    }
    flashOut, fatOut := flash, Consume(fat);
    var i: nat := 0;
    while true
      invariant fatOut.listing == fat.listing
      invariant SyncToFlash(flash, fat, sized) == SyncEntriesToFlash(flashOut, fatOut, i, sized)
      decreases |fat.listing| - i
    {
      var d := ReadDir(fatOut, i);
      fatOut := Consume(fatOut);
      if d.DirErr? {
        res := d.err;
        break;
      }
      if d.DirEnd? {
        res := 0;
        break;
      }
      i := i + 1;
      if d.entry.isDir {
        continue;
      }
      var ok;
      ok, flashOut, fatOut := SyncFileToFlash(flashOut, fatOut, d.entry.name, sized);
      if !ok {
        res := 1;
        break;
      }
    }
    fatOut := Consume(fatOut);
    res := if res != 0 then -1 else 0;
  }

  // ---------------------------------------------------------------------
  // do_flash_update and prepare_usb_filesystem
  // ---------------------------------------------------------------------

  /**
   * do_flash_update: f_mount, copy_fat_to_flash, f_unmount.  A failed
   * mount or unmount returns its FRESULT; a failed copy returns the
   * copy's result, after an unmount whose result is not looked at.
   */
  function FlashUpdate(flash: Flash, fat: Fat, sized: bool): (t: Transfer)
    ensures t.fat.files == fat.files
    ensures Status(fat).Some? ==> t.res == Status(fat).value && t.flash == flash
  {
    match Status(fat)
    case Some(e) => Transfer(e, flash, Consume(fat))
    case None =>
      var c := SyncToFlash(flash, Consume(fat), sized);
      if c.res != 0 then Transfer(c.res, c.flash, Consume(c.fat))
      else
        match Status(c.fat)
        case Some(e) => Transfer(e, c.flash, Consume(c.fat))
        case None => Transfer(0, c.flash, Consume(c.fat))
  }

  method DoFlashUpdate(flash: Flash, fat: Fat, sized: bool) returns (res: int, flashOut: Flash, fatOut: Fat)
    ensures Transfer(res, flashOut, fatOut) == FlashUpdate(flash, fat, sized)
  {
    match Status(fat) {
      case Some(e) =>
        return e, flash, Consume(fat);
      case None =>
    }
    res, flashOut, fatOut := CopyFatToFlash(flash, Consume(fat), sized);
    if res != 0 {
      fatOut := Consume(fatOut);
      return;
    }
    var unmount := Status(fatOut);
    fatOut := Consume(fatOut);
    res := if unmount.Some? then unmount.value else 0;
  }

  /** The disk handed to the USB mass-storage driver. */
  datatype MscDisk = MscDisk(blockSize: nat, numBlocks: nat, readOnly: bool)

  /**
   * What prepare_usb_filesystem leaves: the disk, the message of the error
   * filesystem that replaces the FAT image when something failed, and the
   * two volumes.
   */
  datatype Prepared = Prepared(disk: MscDisk, errorText: Option<string>, flash: Flash, fat: Fat)

  /**
   * prepare_usb_filesystem, given the result of fat_ramdisk_init and the
   * freshly formatted FAT volume it leaves mounted: copy_flash_to_fat, then
   * f_unmount, whose result is not looked at.  A failed init skips both.
   * The disk is read-only exactly when an error filesystem was put in place.
   */
  function PrepareUsb(initRes: int, flash: Flash, fat: Fat): (p: Prepared)
    ensures p.disk.blockSize == FatSectorSize && p.disk.numBlocks == FatNumSectors
    ensures p.disk.readOnly <==> p.errorText.Some?
    ensures initRes != 0 ==> p.disk.readOnly && p.flash == flash && p.fat == fat
    ensures p.flash.files == flash.files
  {
    if initRes != 0 then
      Prepared(MscDisk(FatSectorSize, FatNumSectors, true), Some("FatFS initialisation failed: " + IntToString(initRes)), flash, fat)
    else
      var t := SyncToFat(flash, fat);
      var err := if t.res != 0 then Some("copy flash to MSC failed: " + IntToString(t.res)) else None;
      Prepared(MscDisk(FatSectorSize, FatNumSectors, t.res != 0), err, t.flash, Consume(t.fat))
  }

  method PrepareUsbFilesystem(initRes: int, flash: Flash, fat: Fat) returns (p: Prepared)
    ensures p == PrepareUsb(initRes, flash, fat)
  {
    var res := initRes;
    var errorText := None;
    var flashOut, fatOut := flash, fat;
    if res != 0 {
      errorText := Some("FatFS initialisation failed: " + IntToString(res));
    } else {
      res, flashOut, fatOut := CopyFlashToFat(flash, fat);
      if res != 0 {
        errorText := Some("copy flash to MSC failed: " + IntToString(res));
      }
      fatOut := Consume(fatOut);
    }
    p := Prepared(MscDisk(FatSectorSize, FatNumSectors, res != 0), errorText, flashOut, fatOut);
  }

  // ---------------------------------------------------------------------
  // Properties
  // ---------------------------------------------------------------------

  /**
   * The reference for a sync without failures: `dst` with, entry by entry
   * of `es`, each regular file that `src` has set to its contents there.
   */
  function Overlay(dst: map<string, seq<byte>>, src: map<string, seq<byte>>, es: seq<Entry>): (m: map<string, seq<byte>>)
    ensures dst.Keys <= m.Keys
    decreases |es|
  {
    if es == [] then dst
    else
      var e := es[0];
      Overlay(if !e.isDir && e.name in src then dst[e.name := src[e.name]] else dst, src, es[1..])
  }

  /** Every entry of an overlay comes either from `src` or, untouched, from `dst`. */
  lemma {:induction false} OverlayFrom(dst: map<string, seq<byte>>, src: map<string, seq<byte>>, es: seq<Entry>)
    ensures var m := Overlay(dst, src, es);
      forall n :: n in m ==> (n in src && m[n] == src[n]) || (n in dst && m[n] == dst[n])
    decreases |es|
  {
    if es != [] {
      var e := es[0];
      OverlayFrom(if !e.isDir && e.name in src then dst[e.name := src[e.name]] else dst, src, es[1..]);
    }
  }

  /** Every regular root entry names a file, and every file's size fits a `uint32_t`. */
  predicate Consistent<E>(v: Volume<E>)
  {
    && (forall j :: 0 <= j < |v.listing| && !v.listing[j].isDir ==> v.listing[j].name in v.files)
    && (forall n :: n in v.files ==> |v.files[n]| < U32)
  }

  lemma SyncOneToFatClean(flash: Flash, fat: Fat, name: string)
    requires Clean(flash) && Clean(fat) && Consistent(flash) && Consistent(fat) && name in flash.files
    ensures var r := SyncOneToFat(flash, fat, name);
      && r.ok && Clean(r.flash) && Clean(r.fat) && Consistent(r.fat)
      && r.fat.files == fat.files[name := flash.files[name]]
  {
    CleanNext(flash);
    CleanNext(fat);
    var flash1 := Consume(flash);
    var (fo, fat1) := Create(fat, name);
    FlashToFatCopiesRest(flash1, name, 0, fat1, name, |flash.files[name]|);
    var t := FlashToFat(flash1, name, 0, fat1, name, |flash.files[name]|);
    assert [] + flash.files[name][0..] == flash.files[name];
    CleanNext(t.flash);
    CleanNext(t.fat);
  }

  /**
   * With no failing call, the directory loop of copy_flash_to_fat from
   * entry `i` succeeds and overlays the flash's regular files from there
   * on onto the FAT volume.
   */
  lemma {:induction false} SyncEntriesToFatClean(flash: Flash, fat: Fat, i: nat)
    requires Clean(flash) && Clean(fat) && Consistent(flash) && Consistent(fat) && i <= |flash.listing|
    ensures var t := SyncEntriesToFat(flash, fat, i);
      && t.res == 0 && Consistent(t.fat)
      && t.fat.files == Overlay(fat.files, flash.files, flash.listing[i..])
    decreases |flash.listing| - i
  {
    CleanNext(flash);
    var flash1 := Consume(flash);
    if i < |flash.listing| {
      var e := flash.listing[i];
      assert flash.listing[i..][1..] == flash.listing[i + 1..];
      if e.isDir {
        SyncEntriesToFatClean(flash1, fat, i + 1);
      } else {
        SyncOneToFatClean(flash1, fat, e.name);
        var r := SyncOneToFat(flash1, fat, e.name);
        SyncEntriesToFatClean(r.flash, r.fat, i + 1);
      }
    }
  }

  /**
   * copy_flash_to_fat onto the freshly formatted, empty FAT disk with no
   * failing call: it succeeds, and the FAT disk then holds exactly the
   * flash's regular root files, each with the same contents.
   */
  lemma SyncToFatMirrors(flash: Flash, fat: Fat)
    requires Clean(flash) && Clean(fat) && Consistent(flash) && fat.files == map[] && fat.listing == []
    ensures var t := SyncToFat(flash, fat);
      && t.res == 0 && Consistent(t.fat)
      && t.fat.files == Overlay(map[], flash.files, flash.listing)
      && forall n :: n in t.fat.files ==> n in flash.files && t.fat.files[n] == flash.files[n]
  {
    CleanNext(flash);
    SyncEntriesToFatClean(Consume(flash), fat, 0);
    assert flash.listing[0..] == flash.listing;
    OverlayFrom(map[], flash.files, flash.listing);
  }

  /** Names that do not appear in a directory listing. */
  predicate Unlisted(es: seq<Entry>, n: string)
  {
    forall j :: 0 <= j < |es| ==> es[j].name != n
  }

  /**
   * copy_fat_to_flash, whatever the replies, deletes no flash file and
   * leaves every flash file that the FAT root directory does not name as
   * it was.
   */
  lemma {:induction false} SyncEntriesToFlashFrame(flash: Flash, fat: Fat, i: nat, sized: bool)
    ensures var t := SyncEntriesToFlash(flash, fat, i, sized);
      && (forall n :: n in flash.files ==> n in t.flash.files)
      && (forall n :: n in t.flash.files && Unlisted(fat.listing, n) ==> n in flash.files && t.flash.files[n] == flash.files[n])
    decreases |fat.listing| - i
  {
    var fat1 := Consume(fat);
    match ReadDir(fat, i)
    case DirErr(_) =>
    case DirEnd =>
    case DirItem(e) =>
      if e.isDir {
        SyncEntriesToFlashFrame(flash, fat1, i + 1, sized);
      } else {
        var r := SyncOneToFlash(flash, fat1, e.name, sized);
        if r.ok {
          SyncEntriesToFlashFrame(r.flash, r.fat, i + 1, sized);
        }
      }
  }

  lemma SyncToFlashFrame(flash: Flash, fat: Fat, sized: bool)
    ensures var t := SyncToFlash(flash, fat, sized);
      && (forall n :: n in flash.files ==> n in t.flash.files)
      && (forall n :: n in t.flash.files && Unlisted(fat.listing, n) ==> n in flash.files && t.flash.files[n] == flash.files[n])
  {
    if Status(fat).None? {
      SyncEntriesToFlashFrame(flash, Consume(fat), 0, sized);
    }
  }

  /**
   * A file that compares as the same is left alone: the flash loses only
   * the reply of its lfs_file_close, so it is never reopened for writing.
   * A comparison error stops the turn with the flash file unchanged.
   */
  lemma SameFileNotRewritten(flash: Flash, fat: Fat, name: string, sized: bool)
    requires OpenRead(fat, name, FrNoFile).None? && OpenRead(flash, name, LfsErrNoEnt).None?
    ensures name in fat.files && name in flash.files
    ensures var c := CompareForSync(Consume(flash), Consume(fat), name, sized);
      var r := SyncOneToFlash(flash, fat, name, sized);
      && (c.res == 0 ==> r.ok && r.flash == Consume(c.flash) && r.flash.files == flash.files)
      && (c.res < 0 ==> !r.ok && r.flash.files == flash.files)
  {
  }

  /**
   * A comparison error aborts the whole pass of copy_fat_to_flash: it
   * returns -1 and no flash file has changed since the pass reached that
   * entry.
   */
  lemma CompareErrorAborts(flash: Flash, fat: Fat, i: nat, sized: bool)
    requires i < |fat.listing| && !Next(fat).Failed? && !fat.listing[i].isDir
    requires OpenRead(Consume(fat), fat.listing[i].name, FrNoFile).None?
    requires OpenRead(flash, fat.listing[i].name, LfsErrNoEnt).None?
    requires fat.listing[i].name in flash.files && fat.listing[i].name in fat.files
    requires CompareForSync(Consume(flash), Consume(Consume(fat)), fat.listing[i].name, sized).res < 0
    ensures var t := SyncEntriesToFlash(flash, fat, i, sized); t.res == -1 && t.flash.files == flash.files
  {
    SameFileNotRewritten(flash, Consume(fat), fat.listing[i].name, sized);
  }

  /**
   * copy_flash_to_fat stops at the first file whose turn fails: the pass
   * returns -1 and the FAT volume is left as that turn left it, so no later
   * file is written.
   */
  lemma FatPassStopsAtFailure(flash: Flash, fat: Fat, i: nat)
    requires i < |flash.listing| && !Next(flash).Failed? && !flash.listing[i].isDir
    requires !SyncOneToFat(Consume(flash), fat, flash.listing[i].name).ok
    ensures var r := SyncOneToFat(Consume(flash), fat, flash.listing[i].name);
      var t := SyncEntriesToFat(flash, fat, i);
      t.res == -1 && t.fat == r.fat
  {
  }

  /**
   * A turn of copy_flash_to_fat fails, leaving the FAT files as they were,
   * when the flash file cannot be opened or the FAT file cannot be created.
   */
  lemma SyncOneToFatFailures(flash: Flash, fat: Fat, name: string)
    ensures OpenRead(flash, name, LfsErrNoEnt).Some? ==> !SyncOneToFat(flash, fat, name).ok && SyncOneToFat(flash, fat, name).fat == fat
    ensures OpenRead(flash, name, LfsErrNoEnt).None? && Status(fat).Some?
            ==> !SyncOneToFat(flash, fat, name).ok && SyncOneToFat(flash, fat, name).fat.files == fat.files
  {
  }

  /**
   * What the comparison of a sync turn concludes when no call fails:
   * compare_files' verdict as written, or, with `sized`, "the same"
   * exactly when the contents are equal.
   */
  function Verdict(sized: bool, a: seq<byte>, b: seq<byte>): (v: int)
    ensures v == 0 || v == -1 || v == 1
    ensures a == b ==> v == 0
    ensures sized ==> v != -1 && (v == 0 <==> a == b)
  {
    if sized then (if a == b then 0 else 1) else CleanVerdict(a, b)
  }

  lemma CompareForSyncClean(flash: Flash, fat: Fat, name: string, sized: bool)
    requires Clean(flash) && Clean(fat) && name in flash.files && name in fat.files && |fat.files[name]| < U32
    ensures var c := CompareForSync(flash, fat, name, sized);
      c.res == Verdict(sized, flash.files[name], fat.files[name]) && Clean(c.flash) && Clean(c.fat)
  {
    if sized {
      CompareSizedClean(flash, name, fat, name);
    } else {
      CompareClean(flash, name, fat, name);
    }
  }

  /**
   * The reference for copy_fat_to_flash when no call fails, on contents
   * alone: entry by entry of `es`, a regular file of `src` that `dst`
   * lacks is copied, and one that `dst` has is kept on the verdict "the
   * same", copied on "different", and stops the pass on an error.  The
   * flag says whether the pass got to the end.
   */
  function Reconcile(dst: map<string, seq<byte>>, src: map<string, seq<byte>>, es: seq<Entry>, sized: bool)
    : (r: (bool, map<string, seq<byte>>))
    ensures dst.Keys <= r.1.Keys
    decreases |es|
  {
    if es == [] then (true, dst)
    else
      var e := es[0];
      if e.isDir || e.name !in src then Reconcile(dst, src, es[1..], sized)
      else if e.name !in dst then Reconcile(dst[e.name := src[e.name]], src, es[1..], sized)
      else
        var v := Verdict(sized, dst[e.name], src[e.name]);
        if v == -1 then (false, dst)
        else if v == 0 then Reconcile(dst, src, es[1..], sized)
        else Reconcile(dst[e.name := src[e.name]], src, es[1..], sized)
  }

  /** With the corrected comparison, the failure-free sync is the overlay of the FAT files. */
  lemma {:induction false} ReconcileSized(dst: map<string, seq<byte>>, src: map<string, seq<byte>>, es: seq<Entry>)
    ensures Reconcile(dst, src, es, true) == (true, Overlay(dst, src, es))
    decreases |es|
  {
    if es != [] {
      var e := es[0];
      if !e.isDir && e.name in src && e.name in dst && dst[e.name] == src[e.name] {
        assert dst[e.name := src[e.name]] == dst;
      }
      ReconcileSized(if !e.isDir && e.name in src then dst[e.name := src[e.name]] else dst, src, es[1..]);
    }
  }

  /**
   * No flash file is a chunk-aligned proper prefix of its FAT namesake,
   * and every one that compare_files would call "the same" really is.
   */
  predicate Unambiguous(dst: map<string, seq<byte>>, src: map<string, seq<byte>>)
  {
    forall n :: n in src && n in dst ==> CleanVerdict(dst[n], src[n]) != -1 && (CleanVerdict(dst[n], src[n]) == 0 ==> dst[n] == src[n])
  }

  /** When no pair of files is ambiguous, the sync as written is the overlay of the FAT files too. */
  lemma {:induction false} ReconcileUnambiguous(dst: map<string, seq<byte>>, src: map<string, seq<byte>>, es: seq<Entry>)
    requires Unambiguous(dst, src)
    ensures Reconcile(dst, src, es, false) == (true, Overlay(dst, src, es))
    decreases |es|
  {
    if es != [] {
      var e := es[0];
      if !e.isDir && e.name in src {
        var n := e.name;
        var d := dst[n := src[n]];
        if n in dst && CleanVerdict(dst[n], src[n]) == 0 {
          assert d == dst;
        }
        forall m | m in src && m in d
          ensures CleanVerdict(d[m], src[m]) != -1 && (CleanVerdict(d[m], src[m]) == 0 ==> d[m] == src[m])
        {
          if m == n {
            assert CleanVerdict(src[n], src[n]) == 0;
          }
        }
        ReconcileUnambiguous(d, src, es[1..]);
      } else {
        ReconcileUnambiguous(dst, src, es[1..]);
      }
    }
  }

  /** Syncing files that `dst` already holds changes nothing and completes. */
  lemma {:induction false} ReconcileAlreadyThere(dst: map<string, seq<byte>>, src: map<string, seq<byte>>, es: seq<Entry>, sized: bool)
    requires forall n :: n in src ==> n in dst && dst[n] == src[n]
    ensures Reconcile(dst, src, es, sized) == (true, dst)
    decreases |es|
  {
    if es != [] {
      ReconcileAlreadyThere(dst, src, es[1..], sized);
    }
  }

  /**
   * One FAT file's turn with no failing call: a file missing from the
   * flash is written; otherwise the verdict decides, "different" writing
   * the FAT contents, "the same" keeping the flash file, an error failing
   * the turn with the flash file kept.
   */
  lemma SyncOneToFlashClean(flash: Flash, fat: Fat, name: string, sized: bool)
    requires Clean(flash) && Clean(fat) && Consistent(fat) && name in fat.files
    ensures var r := SyncOneToFlash(flash, fat, name, sized);
      && Clean(r.flash) && Clean(r.fat)
      && (name !in flash.files ==> r.ok && r.flash.files == flash.files[name := fat.files[name]])
      && (name in flash.files ==>
            var v := Verdict(sized, flash.files[name], fat.files[name]);
            && r.ok == (v != -1)
            && r.flash.files == if v == 1 then flash.files[name := fat.files[name]] else flash.files)
  {
    CleanNext(flash);
    CleanNext(fat);
    var fat1, flash1 := Consume(fat), Consume(flash);
    if name !in flash.files {
      WriteBackClean(flash1, fat1, name);
    } else {
      CompareForSyncClean(flash1, fat1, name, sized);
      var c := CompareForSync(flash1, fat1, name, sized);
      CleanNext(c.flash);
      CleanNext(c.fat);
      if c.res == 1 {
        WriteBackClean(Consume(c.flash), Consume(c.fat), name);
      }
    }
  }

  lemma WriteBackClean(flash: Flash, fat: Fat, name: string)
    requires Clean(flash) && Clean(fat) && name in fat.files && |fat.files[name]| < U32
    ensures var r := WriteBackToFlash(flash, fat, name);
      && r.ok && Clean(r.flash) && Clean(r.fat)
      && r.flash.files == flash.files[name := fat.files[name]]
  {
    CleanNext(flash);
    var (fo, flash1) := Create(flash, name);
    FatToFlashCopiesRest(fat, name, 0, flash1, name, |fat.files[name]|);
    var t := FatToFlash(fat, name, 0, flash1, name, |fat.files[name]|);
    assert [] + fat.files[name][0..] == fat.files[name];
    CleanNext(t.flash);
    CleanNext(t.fat);
  }

  /**
   * With no failing call, the directory loop of copy_fat_to_flash from
   * entry `i` does what Reconcile says of the entries from there on.
   */
  lemma {:induction false} SyncEntriesToFlashClean(flash: Flash, fat: Fat, i: nat, sized: bool)
    requires Clean(flash) && Clean(fat) && Consistent(fat) && i <= |fat.listing|
    ensures var t := SyncEntriesToFlash(flash, fat, i, sized);
      var g := Reconcile(flash.files, fat.files, fat.listing[i..], sized);
      t.res == (if g.0 then 0 else -1) && t.flash.files == g.1 && Clean(t.flash) && Clean(t.fat)
    decreases |fat.listing| - i
  {
    CleanNext(fat);
    var fat1 := Consume(fat);
    CleanNext(fat1);
    if i < |fat.listing| {
      var e := fat.listing[i];
      assert fat.listing[i..][1..] == fat.listing[i + 1..];
      if e.isDir {
        SyncEntriesToFlashClean(flash, fat1, i + 1, sized);
      } else {
        SyncOneToFlashClean(flash, fat1, e.name, sized);
        var r := SyncOneToFlash(flash, fat1, e.name, sized);
        if r.ok {
          SyncEntriesToFlashClean(r.flash, r.fat, i + 1, sized);
        }
      }
    }
  }

  /**
   * do_flash_update with no failing call does what Reconcile says of the
   * FAT root directory: 0 and the reconciled flash when the pass gets to
   * the end, -1 when a comparison error stops it.
   */
  lemma FlashUpdateClean(flash: Flash, fat: Fat, sized: bool)
    requires Clean(flash) && Clean(fat) && Consistent(fat)
    ensures var t := FlashUpdate(flash, fat, sized);
      var g := Reconcile(flash.files, fat.files, fat.listing, sized);
      t.res == (if g.0 then 0 else -1) && t.flash.files == g.1
  {
    CleanNext(fat);
    var fat1 := Consume(fat);
    CleanNext(fat1);
    SyncEntriesToFlashClean(flash, Consume(fat1), 0, sized);
    assert fat.listing[0..] == fat.listing;
    var c := SyncToFlash(flash, fat1, sized);
    CleanNext(c.fat);
  }

  /**
   * The corrected do_flash_update with no failing call succeeds, and every
   * regular FAT root file is then on the flash with the FAT's contents,
   * the rest of the flash as it was.
   */
  lemma FlashUpdateMirrors(flash: Flash, fat: Fat)
    requires Clean(flash) && Clean(fat) && Consistent(fat)
    ensures var t := FlashUpdate(flash, fat, true);
      t.res == 0 && t.flash.files == Overlay(flash.files, fat.files, fat.listing)
  {
    FlashUpdateClean(flash, fat, true);
    ReconcileSized(flash.files, fat.files, fat.listing);
  }

  /**
   * do_flash_update as written gives the same overlay when no file pair is
   * ambiguous for compare_files.
   */
  lemma FlashUpdateUnambiguous(flash: Flash, fat: Fat)
    requires Clean(flash) && Clean(fat) && Consistent(fat) && Unambiguous(flash.files, fat.files)
    ensures var t := FlashUpdate(flash, fat, false);
      t.res == 0 && t.flash.files == Overlay(flash.files, fat.files, fat.listing)
  {
    FlashUpdateClean(flash, fat, false);
    ReconcileUnambiguous(flash.files, fat.files, fat.listing);
  }

  /**
   * As written, a FAT file cut back to a whole number of chunks is not
   * written back: its turn succeeds and the flash keeps the longer file,
   * where the corrected turn writes the FAT contents.
   */
  lemma SyncKeepsTruncatedFile(flash: Flash, fat: Fat, name: string)
    requires Clean(flash) && Clean(fat) && Consistent(fat) && name in flash.files && name in fat.files
    requires fat.files[name] < flash.files[name] && |fat.files[name]| % ChunkSize == 0
    ensures var r := SyncOneToFlash(flash, fat, name, false); r.ok && r.flash.files == flash.files
    ensures var r := SyncOneToFlash(flash, fat, name, true); r.ok && r.flash.files[name] == fat.files[name] != flash.files[name]
  {
    SyncOneToFlashClean(flash, fat, name, false);
    SyncOneToFlashClean(flash, fat, name, true);
  }

  /**
   * As written, appending to a FAT copy of a flash file that is a whole
   * number of chunks long fails the turn, and with it the whole pass; the
   * corrected turn succeeds.
   */
  lemma SyncAbortsOnGrowth(flash: Flash, fat: Fat, name: string)
    requires Clean(flash) && Clean(fat) && Consistent(fat) && name in flash.files && name in fat.files
    requires flash.files[name] < fat.files[name] && |flash.files[name]| % ChunkSize == 0
    ensures !SyncOneToFlash(flash, fat, name, false).ok
    ensures SyncOneToFlash(flash, fat, name, true).ok
  {
    SyncOneToFlashClean(flash, fat, name, false);
    SyncOneToFlashClean(flash, fat, name, true);
  }

  /**
   * A USB session in which the host changes nothing leaves the flash as it
   * was: prepare_usb_filesystem mirrors the flash onto the fresh FAT disk
   * and exposes it writable, and the do_flash_update that follows, on that
   * same FAT content, succeeds and changes no flash file, as written and
   * corrected alike.
   */
  lemma UneditedSessionKeepsFlash(flash: Flash, fat: Fat, flashLater: Flash, fatLater: Fat, sized: bool)
    requires Clean(flash) && Clean(fat) && Consistent(flash) && fat.files == map[] && fat.listing == []
    requires var p := PrepareUsb(0, flash, fat);
      fatLater.files == p.fat.files && fatLater.listing == p.fat.listing && flashLater.files == flash.files
    requires Clean(flashLater) && Clean(fatLater)
    ensures !PrepareUsb(0, flash, fat).disk.readOnly
    ensures var t := FlashUpdate(flashLater, fatLater, sized); t.res == 0 && t.flash.files == flash.files
  {
    SyncToFatMirrors(flash, fat);
    FlashUpdateClean(flashLater, fatLater, sized);
    ReconcileAlreadyThere(flashLater.files, fatLater.files, fatLater.listing, sized);
  }
}
