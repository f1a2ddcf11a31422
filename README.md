# Badge firmware core, modelled in Dafny

This project models the firmware of an e-paper name badge built on an RP2040. The badge keeps its pages in a littlefs
filesystem in the last 64 KiB of the on-chip flash. When USB power is present it copies that filesystem
into a FAT RAM disk, which the host sees as a mass-storage device. When the host ejects the disk, it writes the
edited files back to flash. The model covers five parts:

- **FlashDevice** (`lfs_pico_flash.c`). The littlefs block device on the flash region, as a class over an
  `array<byte>`:
  - reads copy bytes out;
  - programming can only clear bits, so the new contents are the bitwise AND of the old contents and the data;
  - erasing sets a 4096-byte block to `0xFF`;
  - a ghost trace records every program and erase. Each one sits inside a multicore lockout exactly when the
    device's multicore flag is set, and always inside a critical section.
- **RamDisk** (`fat_ramdisk.c`). The FatFs disk driver over a byte array:
  - the drive-number and registration checks;
  - sector reads and writes;
  - `disk_ioctl` geometry;
  - `fat_ramdisk_init` (clear the disk, `f_mkfs`, `f_mount`, `f_setlabel`) with its results as parameters.
- **MountLifecycle** (`main.c`, `lfs_ctx_*`). The littlefs mount state machine NONE → MOUNTED/UNMOUNTED/ERROR:
  - it formats at most once, and only on the first mount, through `lfs_format_init`;
  - it remounts when the single/multicore mode changes;
  - it tracks exactly whether littlefs is mounted.
  The littlefs call results come from an outcome stream.
- **ChunkCopy and UsbFilesystem** (`usb_filesystem.c`). The 128-byte chunked file copies in both directions,
  `compare_files`, the two directory syncs, `do_flash_update` and `prepare_usb_filesystem`.
  - Each filesystem is a `Volume`: a root listing, the files' contents, and a stream of replies that decides
    whether each call succeeds, comes back short or fails.
  - `Clean` volumes never fail. On them the flash-to-FAT sync mirrors the files exactly, as `Overlay`.
    The FAT-to-flash sync as written follows `compare_files`' verdict (`Reconcile`). It keeps a flash file whose
    FAT copy was cut back to a whole number of chunks. It aborts when a FAT copy grew past a flash file that is a
    whole number of chunks long. With the `sized` flag set, the corrected sync mirrors the FAT files as `Overlay`.
- **BadgeMain** (`main.c`). The rest of the main loop:
  - the power reference count and its power-off alarm;
  - button edge detection, page turning and eject;
  - the USB state machine driven by the message queue;
  - the idle-time redraw;
  - `read_file`.
  The loop is both a class `Badge` with the loop's variables as fields and a pure state `Loop` with a `Step`
  function. Its invariant ties `power_ref` to the USB state and to the messages and alarm that still owe a
  `power_ref_put`.

## Model

| member | source | states |
|---|---|---|
| FlashDevice.BracketIsWellBracketed | lfs_pico_flash.c:24-67 | a program or erase is always inside a critical section, and inside a multicore lockout exactly when the multicore flag is set; the whole sequence leaves no lock held |
| FlashDevice.AppendWellBracketed | lfs_pico_flash.c:24-67 | a sequence of bracketed flash operations releases every lock it takes |
| FlashDevice.OffsetInRegion | lfs_pico_flash.c:11-67 | a block/offset pair within the configured geometry addresses bytes inside the littlefs region and nowhere past its end |
| FlashDevice.Programmed | lfs_pico_flash.c:24-45 | programming ANDs the data into the target bytes and leaves every other byte as it was |
| FlashDevice.ErasedRange | lfs_pico_flash.c:47-67 | erasing sets the range to 0xFF and leaves every other byte as it was |
| FlashDevice.ProgramAfterErase | lfs_pico_flash.c:24-67 | data programmed into an erased range reads back exactly |
| FlashDevice.FlashBlockDevice.constructor | main.c:498-520 | the region is the last block_count × block_size (16 × 4096) bytes of flash; the flash holds its boot contents and no operation is traced yet |
| FlashDevice.FlashBlockDevice.Read | lfs_pico_flash.c:11-22 | returns 0 and the `size` bytes at base + block × block_size + off |
| FlashDevice.FlashBlockDevice.Prog | lfs_pico_flash.c:24-45 | returns 0; flash becomes the old contents ANDed with the data at the block offset; the trace grows by the bracketed program |
| FlashDevice.FlashBlockDevice.Erase | lfs_pico_flash.c:47-67 | returns 0; the whole block reads 0xFF and the rest is unchanged; the trace grows by the bracketed erase |
| FlashDevice.FlashBlockDevice.Sync | lfs_pico_flash.c:69-72 | always succeeds |
| MountLifecycle.FormatInitLeavesMountedIffOk | main.c:147-180 | lfs_format_init formats first and leaves littlefs mounted exactly when it returns 0; on success the README contents were written and the file closed |
| MountLifecycle.FormatInitFormatsOnce | main.c:147-180 | lfs_format_init formats exactly once |
| MountLifecycle.FormatInitEffect | main.c:147-180 | lfs_format_init as a function of the littlefs results: no contract of its own; FormatInitLeavesMountedIffOk and FormatInitFormatsOnce state what it does |
| MountLifecycle.CtxMount | main.c:182-226 | lfs_ctx_mount as a function of the context and the littlefs results: no contract of its own; ErroredIsInert, ModeSwitchUnmountsFirst, MountOutcome and MountTracksLittlefs state what it does |
| MountLifecycle.MountFreshEffect | main.c:207-225 | the mount-or-format tail of lfs_ctx_mount: no contract of its own; MountOutcome and FirstMountEffect state what it does |
| MountLifecycle.CtxUnmount | main.c:228-252 | lfs_ctx_unmount as a function of the context and the littlefs results: no contract of its own; UnmountOutcome and UnmountTracksLittlefs state what it does |
| MountLifecycle.ErroredIsInert | main.c:182-252 | in the error state, mount and unmount return -1 and make no call |
| MountLifecycle.ModeSwitchUnmountsFirst | main.c:182-226 | mounting while mounted in the same mode is a no-op; in the other mode it unmounts first, and a failing unmount is the error state |
| MountLifecycle.MountOutcome | main.c:182-226 | lfs_ctx_mount ends mounted or errored; it returns 0 exactly when mounted, in the requested mode; it formats only from NONE after a failed first mount |
| MountLifecycle.UnmountOutcome | main.c:228-252 | lfs_ctx_unmount returns 0 exactly when it ends unmounted, never leaves it mounted, keeps the mode, does nothing unless mounted, and fails from NONE |
| MountLifecycle.MountTracksLittlefs | main.c:182-226 | after lfs_ctx_mount, the context says mounted exactly when the littlefs calls it made leave littlefs mounted |
| MountLifecycle.UnmountTracksLittlefs | main.c:228-252 | the same correspondence after lfs_ctx_unmount |
| MountLifecycle.ErroredIsAbsorbing | main.c:182-252 | once errored, any sequence of mounts and unmounts changes nothing and calls nothing |
| MountLifecycle.FormatOnlyFromInitial | main.c:182-252 | one mount or unmount formats at most once, only from NONE, and nothing returns to NONE |
| MountLifecycle.FormatAtMostOnce | main.c:182-252 | over any sequence of mounts and unmounts the flash is formatted at most once, and never unless starting from NONE |
| MountLifecycle.RunTracksLittlefs | main.c:182-252 | over any sequence, the context's mounted state matches what the littlefs calls made |
| MountLifecycle.FirstMountEffect | main.c:190-225 | from NONE, lfs_ctx_mount is the critical-section initialisation followed by the mount-or-format branch |
| MountLifecycle.LfsContext.constructor | main.c:498-520 | the context starts in NONE, single-core, with no littlefs call made |
| MountLifecycle.LfsContext.FormatInit | main.c:147-180 | the method's result, the littlefs calls it logs and the outcomes it uses are those of the lfs_format_init effect |
| MountLifecycle.LfsContext.Mount | main.c:182-226 | the method's result, new state and the littlefs calls it logs are those of the lfs_ctx_mount effect |
| MountLifecycle.LfsContext.MountFirst | main.c:190-225 | from NONE, the critical section is initialised and the mount-or-format branch runs, as the lfs_ctx_mount effect says, calls included |
| MountLifecycle.LfsContext.Remount | main.c:192-205 | the mode-switch branch's result, new state and logged calls agree with the lfs_ctx_mount effect |
| MountLifecycle.LfsContext.MountFresh | main.c:207-225 | the mount-or-format branch's result, new state and logged calls agree with its effect |
| MountLifecycle.LfsContext.FormatAfterMount | main.c:211-221 | after a failed first mount, lfs_format_init's result, calls and outcomes decide the result, and the state is MOUNTED exactly when it returns 0 |
| MountLifecycle.LfsContext.Unmount | main.c:228-252 | the method's result, new state and the littlefs calls it logs are those of the lfs_ctx_unmount effect |
| RamDisk.DiskInitialize | fat_ramdisk.c:46-53 | 0 exactly for drive 0, otherwise STA_NOINIT |
| RamDisk.DiskStatus | fat_ramdisk.c:55-62 | 0 exactly for drive 0, otherwise STA_NODISK |
| RamDisk.AccessCheck | fat_ramdisk.c:64-100 | corrected access check: OK exactly for drive 0, a registered disk and a sector range inside the disk; NOTRDY exactly when unregistered; PARERR otherwise |
| RamDisk.AccessCheckAsWritten | fat_ramdisk.c:66-76 | the parameter checks of disk_read and disk_write as written: no contract of its own; AsWrittenAcceptsOverrun and AccessCheckAgreesInRange state how it differs from the corrected check |
| RamDisk.AccessCheckAgreesInRange | fat_ramdisk.c:64-100 | for ranges inside the disk, the corrected check gives the same verdict as the code as written |
| RamDisk.AsWrittenAcceptsOverrun | fat_ramdisk.c:74-78 | the check as written accepts a two-sector access at the last sector, past the end of the buffer; the corrected check refuses it |
| RamDisk.ReadSectors | fat_ramdisk.c:78 | a read returns count × sector_size bytes starting at the sector's offset |
| RamDisk.WriteSectors | fat_ramdisk.c:97 | a write puts the buffer at the sector's offset and keeps every other byte |
| RamDisk.ReadAfterWrite | fat_ramdisk.c:64-100 | reading back the written sectors gives the written buffer |
| RamDisk.WriteKeepsOtherSectors | fat_ramdisk.c:83-100 | a write leaves every disjoint sector range as it was |
| RamDisk.InitMountedIffOk | fat_ramdisk.c:13-44 | fat_ramdisk_init leaves the volume mounted exactly when it returns 0; its result is the first failing step's |
| RamDisk.InitEffect | fat_ramdisk.c:13-44 | fat_ramdisk_init's FatFS calls as a function of their results: no contract of its own; InitMountedIffOk states what it does |
| RamDisk.RamDiskDevice.constructor | fat_ramdisk.c:11 | the disk holds its contents and geometry and is not yet registered |
| RamDisk.RamDiskDevice.Register | fat_ramdisk.c:24-25 | the disk becomes the registered one and is cleared to zero |
| RamDisk.RamDiskDevice.Init | fat_ramdisk.c:13-44 | registers and clears the disk; the result and mounted state follow the f_mkfs/f_mount/f_setlabel results |
| RamDisk.RamDiskDevice.DiskRead | fat_ramdisk.c:64-81 | returns the corrected access check; on OK the buffer's first count × sector_size bytes are those sectors and the rest is untouched; on error nothing changes |
| RamDisk.RamDiskDevice.DiskWrite | fat_ramdisk.c:83-100 | returns the corrected access check; on OK the disk is the old disk with the sectors written; on error it is unchanged |
| RamDisk.RamDiskDevice.Ioctl | fat_ramdisk.c:102-146 | PARERR for another drive and NOTRDY before registration; CTRL_SYNC succeeds with no value; GET_SECTOR_COUNT gives the sector count, GET_SECTOR_SIZE the sector size, GET_BLOCK_SIZE 1; any other command fails |
| RamDisk.RamDiskDevice.IoctlGeometryCoversBuffer | fat_ramdisk.c:102-121 | the reported sector count × sector size is exactly the buffer's length, and the erase block size is 1 |
| ChunkCopy.FlashToFat | usb_filesystem.c:22-53 | copy_file_flash_to_fat leaves the flash volume and every FAT file but the destination as they were |
| ChunkCopy.FatToFlash | usb_filesystem.c:55-83 | copy_file_fat_to_flash leaves the FAT volume and every flash file but the destination as they were |
| ChunkCopy.Compare | usb_filesystem.c:85-123 | compare_files changes no file contents on either side |
| ChunkCopy.CopyFileFlashToFat | usb_filesystem.c:22-53 | the chunked loop's result and both volumes afterwards are those of the recursive copy |
| ChunkCopy.CopyFileFatToFlash | usb_filesystem.c:55-83 | the same for the FAT-to-flash copy |
| ChunkCopy.CompareFiles | usb_filesystem.c:85-123 | the chunked loop's verdict is that of the recursive comparison |
| ChunkCopy.FlashToFatCopiesRest | usb_filesystem.c:22-53 | with no failing call, the copy returns 0 and appends the rest of the source to the destination, also when the file is shorter than `size` |
| ChunkCopy.FatToFlashCopiesRest | usb_filesystem.c:55-83 | the same for the FAT-to-flash copy |
| ChunkCopy.FlashToFatFailures | usb_filesystem.c:22-53 | a flash read error is returned as is; a failed or short FAT write gives -1 |
| ChunkCopy.FatToFlashFailures | usb_filesystem.c:55-83 | an f_read error and an lfs_file_write error are returned as is; a short write gives -1 |
| ChunkCopy.CleanVerdict | usb_filesystem.c:85-123 | the reference verdict on contents alone: identical contents are "the same"; "the same" only ever means the FAT file is a prefix of the flash file |
| ChunkCopy.CompareCleanContents | usb_filesystem.c:85-123 | with no failing call, the verdict depends on the two contents only |
| ChunkCopy.CleanCompareVerdict | usb_filesystem.c:85-123 | the chunk-by-chunk comparison from a common chunk boundary equals the reference verdict |
| ChunkCopy.CompareClean | usb_filesystem.c:85-123 | with no failing call, compare_files over the FAT file's size gives the reference verdict |
| ChunkCopy.CompareMissesTruncation | usb_filesystem.c:91-120 | as written, a FAT file cut back to a whole number of 128-byte chunks compares as "the same" as its longer flash original |
| ChunkCopy.CompareFailsOnGrowth | usb_filesystem.c:99-102 | as written, a FAT file that grew past a flash file a whole number of chunks long makes the comparison fail with -1 |
| ChunkCopy.CompareSized | usb_filesystem.c:85-123 | corrected comparison: files of different sizes differ; files of equal size are compared chunk by chunk |
| ChunkCopy.CompareSizedClean | usb_filesystem.c:85-123 | with no failing call, the corrected comparison says "the same" exactly when the contents are equal |
| ChunkCopy.UneditedCopyComparesSame | usb_filesystem.c:22-123 | a file copied to the FAT disk holds the flash contents and compares as the same on the way back |
| UsbFilesystem.SyncOneToFat | usb_filesystem.c:143-181 | one root file's copy to FAT touches only that FAT file and no flash file |
| UsbFilesystem.SyncOneToFatFailures | usb_filesystem.c:143-160 | a turn fails with the FAT files unchanged when the flash file cannot be opened or the FAT file cannot be created |
| UsbFilesystem.SyncEntriesToFat | usb_filesystem.c:139-194 | the directory loop of copy_flash_to_fat changes no flash file nor the flash listing; FatPassStopsAtFailure and SyncEntriesToFatClean state its outcome |
| UsbFilesystem.SyncToFat | usb_filesystem.c:125-195 | copy_flash_to_fat changes no flash file nor the flash listing; SyncToFatMirrors states its failure-free outcome |
| UsbFilesystem.FatPassStopsAtFailure | usb_filesystem.c:170-181 | copy_flash_to_fat returns -1 at the first failing turn, with the FAT volume as that turn left it |
| UsbFilesystem.CopyOneToFat | usb_filesystem.c:143-181 | the per-file step's outcome and volumes are those of its specification |
| UsbFilesystem.CopyFlashToFat | usb_filesystem.c:125-195 | the directory loop's result and volumes are those of copy_flash_to_fat's specification |
| UsbFilesystem.SyncOneToFatClean | usb_filesystem.c:143-181 | with no failing call, the FAT file becomes an exact copy of the flash file |
| UsbFilesystem.SyncEntriesToFatClean | usb_filesystem.c:125-195 | with no failing call, the loop succeeds and the FAT files are the flash's regular files overlaid in listing order |
| UsbFilesystem.SyncToFatMirrors | usb_filesystem.c:125-195 | onto the fresh empty FAT disk, copy_flash_to_fat succeeds, and every FAT file is a flash file with the same contents |
| UsbFilesystem.WriteBackToFlash | usb_filesystem.c:257-283 | writing one file back changes only that flash file and no FAT file |
| UsbFilesystem.CompareForSync | usb_filesystem.c:231 | the comparison of a sync turn (compare_files over the FAT size as written, or the corrected one) changes no file contents |
| UsbFilesystem.SyncOneToFlash | usb_filesystem.c:219-283 | one FAT file's turn changes at most that flash file |
| UsbFilesystem.SameFileNotRewritten | usb_filesystem.c:231-255 | a file that compares as the same is not reopened: the turn succeeds with the flash files unchanged; a comparison error fails the turn with them unchanged |
| UsbFilesystem.CompareErrorAborts | usb_filesystem.c:236-241 | a comparison error makes copy_fat_to_flash return -1 with no flash file changed |
| UsbFilesystem.SyncEntriesToFlash | usb_filesystem.c:209-292 | the directory loop of copy_fat_to_flash changes no FAT file nor the FAT listing; SyncEntriesToFlashFrame, CompareErrorAborts and SyncEntriesToFlashClean state its outcome |
| UsbFilesystem.SyncToFlash | usb_filesystem.c:197-294 | copy_fat_to_flash changes no FAT file nor the FAT listing; SyncToFlashFrame and FlashUpdateClean state its outcome |
| UsbFilesystem.WriteBackFile | usb_filesystem.c:257-283 | the method's outcome and volumes are those of the write-back specification |
| UsbFilesystem.SyncFileToFlash | usb_filesystem.c:219-283 | the method's outcome and volumes are those of the per-file specification, as written or corrected |
| UsbFilesystem.CopyFatToFlash | usb_filesystem.c:197-294 | the directory loop's result and volumes are those of copy_fat_to_flash's specification |
| UsbFilesystem.SyncEntriesToFlashFrame | usb_filesystem.c:197-294 | whatever the replies, the FAT-to-flash loop deletes no flash file and leaves every file the FAT root does not name unchanged |
| UsbFilesystem.SyncToFlashFrame | usb_filesystem.c:197-294 | the same for copy_fat_to_flash as a whole |
| UsbFilesystem.Verdict | usb_filesystem.c:85-123 | the failure-free verdict: identical contents are the same; the corrected verdict says the same exactly for equal contents and never fails |
| UsbFilesystem.CompareForSyncClean | usb_filesystem.c:231 | with no failing call, a sync turn's comparison gives the verdict on the two contents |
| UsbFilesystem.SyncOneToFlashClean | usb_filesystem.c:219-283 | with no failing call, a file missing from the flash is written; otherwise "different" writes the FAT contents, "the same" keeps the flash file, an error fails the turn |
| UsbFilesystem.WriteBackClean | usb_filesystem.c:257-283 | with no failing call, the write-back succeeds and the flash file equals the FAT file |
| UsbFilesystem.SyncEntriesToFlashClean | usb_filesystem.c:197-294 | with no failing call, the loop's result and flash files are those of the reference sync `Reconcile` |
| UsbFilesystem.FlashUpdate | usb_filesystem.c:296-323 | do_flash_update never changes FAT files; an error from mounting the FAT volume is returned with the flash untouched |
| UsbFilesystem.DoFlashUpdate | usb_filesystem.c:296-323 | the method's result and volumes are those of do_flash_update's specification |
| UsbFilesystem.FlashUpdateClean | usb_filesystem.c:296-323 | with no failing call, do_flash_update returns 0 with the reconciled flash, or -1 when a comparison error stops it |
| UsbFilesystem.FlashUpdateMirrors | usb_filesystem.c:296-323 | the corrected update with no failing call succeeds and every regular FAT root file replaces its flash namesake |
| UsbFilesystem.FlashUpdateUnambiguous | usb_filesystem.c:296-323 | the update as written gives the same overlay when no file pair is ambiguous for compare_files |
| UsbFilesystem.SyncKeepsTruncatedFile | usb_filesystem.c:231-255 | as written, a FAT file cut back to whole chunks is not written back; the corrected turn writes it |
| UsbFilesystem.SyncAbortsOnGrowth | usb_filesystem.c:231-241 | as written, growing a FAT copy of a whole-chunk flash file fails the turn; the corrected turn succeeds |
| UsbFilesystem.PrepareUsb | usb_filesystem.c:325-353 | the disk has the configured geometry; it is read-only exactly when the error message is shown; a failed init leaves both volumes alone; flash files never change |
| UsbFilesystem.PrepareUsbFilesystem | usb_filesystem.c:325-353 | the method's outcome is that of prepare_usb_filesystem's specification |
| UsbFilesystem.Overlay | usb_filesystem.c:197-294 | the reference for a failure-free sync keeps every file of the destination |
| UsbFilesystem.OverlayFrom | usb_filesystem.c:125-294 | every file after a failure-free sync comes from the source or is an untouched destination file |
| UsbFilesystem.Reconcile | usb_filesystem.c:197-294 | the reference for a failure-free FAT-to-flash sync keeps every flash file |
| UsbFilesystem.ReconcileSized | usb_filesystem.c:197-294 | with the corrected comparison the reference sync completes with the overlay |
| UsbFilesystem.ReconcileUnambiguous | usb_filesystem.c:197-294 | as written, the reference sync completes with the overlay when no pair is ambiguous |
| UsbFilesystem.ReconcileAlreadyThere | usb_filesystem.c:197-294 | syncing files the flash already holds completes and changes nothing |
| UsbFilesystem.UneditedSessionKeepsFlash | usb_filesystem.c:125-353 | a USB session in which the host edits nothing writes back exactly the flash contents it started from, as written and corrected |
| BadgeMain.PowerGet | main.c:116-122 | power_ref_get: no contract of its own; GetPutBalanced and Badge.PowerRefGet state what it does |
| BadgeMain.PowerPut | main.c:124-131 | power_ref_put: no contract of its own; GetPutBalanced and Badge.PowerRefPut state what it does |
| BadgeMain.GetPutBalanced | main.c:116-131 | a get followed by a put restores power_ref, and arms the power-off alarm exactly when the count returns to 0 |
| BadgeMain.Pressed | main.c:726-729 | pressed bits were up before and are down now |
| BadgeMain.Released | main.c:726-729 | released bits were down before and are up now |
| BadgeMain.EdgesPartition | main.c:726-729 | no button is both pressed and released, and together they are exactly the changed bits |
| BadgeMain.ShowPage | main.c:731-751 | showing a page keeps power_ref, the USB state and the queue; a page missing from a mounted filesystem falls back to main.txt and index 0 |
| BadgeMain.ButtonsChanged | main.c:722-802 | the button handler posts no message; UsbTransitions gives its USB state (UNMOUNTED after releasing A while MOUNTED, otherwise kept), ButtonsBalanced its count and DownTurnsPage its page |
| BadgeMain.NextPage | main.c:731-751 | releasing DOWN: no contract of its own; DownTurnsPage states what it does |
| BadgeMain.EjectUsb | main.c:753-797 | releasing A while mounted: no contract of its own; UsbTransitions states the move from MOUNTED to UNMOUNTED and ButtonsBalanced the dropped reference |
| BadgeMain.Dispatch | main.c:600-804 | handling a message neither posts nor removes one; UsbTransitions gives the corrected handler's USB state per message and the messages without a handler changing nothing |
| BadgeMain.OnUsbTimeout | main.c:608-616 | the USB_TIMEOUT handler: no contract of its own; TimeoutReleasesOne states what it does |
| BadgeMain.OnUsbConnected | main.c:617-629 | the USB_CONNECTED handler, as written or guarded: no contract of its own; UsbTransitions states that the guarded one enters MOUNTED, taking a reference unless already mounted |
| BadgeMain.OnUsbDisconnected | main.c:630-668 | the USB_DISCONNECTED handler, as written or guarded: no contract of its own; UsbTransitions states that the guarded one enters UNMOUNTED with a redraw requested, dropping a reference only from MOUNTED; HandleAsWritten states the as-written one |
| BadgeMain.OnPowerOff | main.c:669-704 | the POWER_OFF handler: no contract of its own; PowerOffWaitsForRef and MountedKeepsRail state what it does |
| BadgeMain.HandleAsWritten | main.c:630-668 | as written, each USB_DISCONNECTED decrements power_ref and sets UNMOUNTED whatever the state |
| BadgeMain.Handle | main.c:600-804 | the corrected handler posts no message; UsbTransitions and HandleBalanced state what it does to the USB state and the count |
| BadgeMain.TimeoutReleasesOne | main.c:608-616 | the USB timeout moves WAITING to UNMOUNTED and gives back exactly one reference |
| BadgeMain.PowerOffWaitsForRef | main.c:669-704 | power-off does nothing while a reference is held; with none it cuts the 3V3 rail |
| BadgeMain.ButtonsBalanced | main.c:722-802 | the button handler gives back every reference it takes |
| BadgeMain.UsbTransitions | main.c:617-797 | USB_CONNECTED enters MOUNTED, taking a reference only when not yet mounted; USB_DISCONNECTED enters UNMOUNTED with a redraw requested, dropping a reference only from MOUNTED; releasing A while MOUNTED ejects, and the buttons otherwise keep the USB state; USB_CONNECTING, MSC_UNMOUNTED and CDC_CONNECTED change nothing the loop keeps |
| BadgeMain.DownTurnsPage | main.c:731-751 | releasing DOWN moves to the next page, or to main.txt at index 0 exactly when that page is missing from a mounted filesystem |
| BadgeMain.Deliver | main.c:598-599 | the loop takes the oldest message off the queue |
| BadgeMain.Idle | main.c:806-836 | the idle redraw keeps the queue and the USB state, and clears the refresh request when unmounted |
| BadgeMain.Post | main.c:555 | a message is queued only while the 8-entry queue has room |
| BadgeMain.Boot | main.c:540-595 | after boot, power_ref holds one reference exactly when VBUS is present; USB is WAITING then, and UNMOUNTED otherwise; main.txt is to be drawn |
| BadgeMain.BootBalanced | main.c:540-595 | boot establishes the power-reference invariant |
| BadgeMain.HandleBalanced | main.c:600-804 | the corrected handler keeps the invariant once the message's owed reference is counted |
| BadgeMain.TakeBalanced | main.c:598-804 | taking a message and handling it keeps the invariant |
| BadgeMain.PostBalanced | usb.c:67-101 | a message from the USB callbacks or the buttons keeps the invariant |
| BadgeMain.UsbTimerBalanced | main.c:98-104 | the USB-timeout alarm firing keeps the invariant |
| BadgeMain.PowerAlarmBalanced | main.c:109-114 | the power-off alarm firing keeps the invariant |
| BadgeMain.FireUsbTimer | main.c:99-104 | usb_connect_timeout posting USB_TIMEOUT: no contract of its own; UsbTimerBalanced states what it keeps |
| BadgeMain.FirePowerAlarm | main.c:109-114 | power_timeout posting POWER_OFF: no contract of its own; PowerAlarmBalanced states what it keeps |
| BadgeMain.Step | main.c:597-836 | one event of the loop or of the outside world: no contract of its own; StepBalanced states what it keeps |
| BadgeMain.Run | main.c:597-836 | a run of events: no contract of its own; RunBalanced and PowerRefNeverNegative state what it keeps |
| BadgeMain.StepBalanced | main.c:597-836 | every step of the loop or of the outside world keeps the invariant |
| BadgeMain.RunBalanced | main.c:597-836 | any run of external events keeps the invariant |
| BadgeMain.PowerRefNeverNegative | main.c:106-131 | from boot, under any external events, power_ref never goes negative, and is at least 1 while USB is mounted |
| BadgeMain.MountedKeepsRail | main.c:669-704 | a power-off message while USB is mounted does not cut the rail |
| BadgeMain.SuspendThenUnmountGoesNegative | usb.c:86-92 | as written, connect, timeout, then a bus suspend followed by unmount drives power_ref to -1; the corrected handler stays at 0 |
| BadgeMain.RunSuspendTrace | main.c:617-668 | the suspend trace ends at -1 as written and at 0 when guarded |
| BadgeMain.Drain | main.c:598-599 | one pass of the loop empties the queue |
| BadgeMain.DrainBalanced | main.c:598-804 | draining the queue keeps the invariant |
| BadgeMain.Badge.constructor | main.c:540-595 | the badge's fields are the boot state |
| BadgeMain.Badge.PowerRefGet | main.c:116-122 | the fields change as power_ref_get specifies |
| BadgeMain.Badge.PowerRefPut | main.c:124-131 | the fields change as power_ref_put specifies |
| BadgeMain.Badge.ShowCurrentPage | main.c:731-751 | the fields change as showing a page specifies |
| BadgeMain.Badge.ButtonsChangedHandler | main.c:722-802 | the fields change as the button handler specifies |
| BadgeMain.Badge.TurnPage | main.c:731-751 | the fields change as turning the page specifies |
| BadgeMain.Badge.Eject | main.c:753-797 | the fields change as the eject path specifies |
| BadgeMain.Badge.HandleMessage | main.c:600-804 | the fields change as the corrected handler specifies |
| BadgeMain.Badge.UsbTimeoutHandler | main.c:608-616 | the fields change as the timeout handler specifies |
| BadgeMain.Badge.UsbConnectedHandler | main.c:617-629 | the fields change as the guarded connect handler specifies |
| BadgeMain.Badge.UsbDisconnectedHandler | main.c:630-668 | the fields change as the guarded disconnect handler specifies |
| BadgeMain.Badge.PowerOffHandler | main.c:669-704 | the fields change as the power-off handler specifies |
| BadgeMain.Badge.LoopPass | main.c:597-836 | one pass handles every queued message in order, leaves the queue empty, then runs the idle redraw; it keeps the power-reference invariant |
| BadgeMain.ReadWholeFile | main.c:254-284 | read_file changes no file; a result is the whole file; with no failing call it gives the file exactly when the file exists |
| BadgeMain.ShortReadRefused | main.c:275-281 | a read that comes back short makes read_file return nothing |

## Left out

- The littlefs and FatFs libraries are not part of this model. Each filesystem is a volume whose calls succeed, come back short or fail as a reply stream says. `lfs_file_size` and `f_size` are read without consuming a reply.
- `f_write`'s byte count on an error is taken as 0.
- Every `printf` and the debug output over USB (`usb_stdio.c`) are left out.
- The display is left out: `badger.cpp`, `badger.h`, `screen_page.c`, the text drawn in each handler and the page parsing. Showing a page is modelled by whether the page file exists on a mounted filesystem.
- `init_error_filesystem` and the contents of `error_disk.h` are not part of this model. The error disk is the read-only flag and the error text.
- `usb.c` and TinyUSB are left out, apart from which message each callback posts. `tud_disconnect`/`tud_connect` and the mass-storage callbacks in `usb_msc.h` are left out. `launch_usb` and core 1 are the `Core1Launched` message and a multicore flag.
- `main.cpp` is left out. It is the C++ build of the same entry point.
- Alarms, clocks and interrupts become events of the outside world (`UsbTimerFires`, `PowerAlarmFires`, `Take` of new button levels). Their timing is not modelled.
- `queue_add_blocking` on a full queue would wait. The model drops such a post: the event simply does not happen yet.
- In the message loop, a `USB_DISCONNECTED` (main.c:630-668) and the A-button eject (main.c:753-797) also remount and run `do_flash_update`. Those are modelled on their own (`UsbFilesystem.FlashUpdate`, `MountLifecycle`). Their outcome does not change the loop state the model keeps.
- BadgeMain.Idle: models the redraw's power reference and refresh flag. It does not model the mount and parse of `main.txt` inside it.
- BadgeMain.NextPage: `current_idx` is an unbounded integer. The `int` overflow after 2^31 pages is not modelled.
- BadgeMain.ReadWholeFile: the `malloc` result is not checked in the source. The model treats the allocation as always succeeding.
- `buttons_pressed` is never set in the source, so the loop tail's button branches are dead code and left out.
- FlashDevice.FlashBlockDevice: the device's multicore flag is the `priv.multicore` field that `lfs_ctx_mount` sets. The model keeps it as a field of its own, and nothing ties it to `MountLifecycle.LfsContext.multicore`.
- UsbFilesystem.PrepareUsb: `msc_disk->data = fat_ramdisk.data` (usb_filesystem.c:350) is not a field of `MscDisk`. The disk's data is `Prepared.fat`, the FAT volume on the RAM disk.
- FlashDevice.FlashBlockDevice.Sync: only its result is modelled. The flash has no write cache to flush.
- FlashDevice.FlashBlockDevice.Prog: flash programming and erase are SDK calls, modelled by their effect on the region (AND with the data, set to `0xFF`). Execute-in-place cache effects are not modelled.
- Messages `MSC_UNMOUNTED` and `USB_CONNECTING` have no handler in the source, and are handled as no-ops. The CDC message (main.c:705-721) sleeps, mounts littlefs, parses `barcode.txt`, unmounts and draws it. Its mount and unmount are those of `MountLifecycle` (a failure there leaves the littlefs context in ERROR); none of the loop state the model keeps changes, so it is a no-op in `BadgeMain`.

## Findings

| source | as written | input that shows it | evidently intended | confidence | as-written member | corrected member |
|---|---|---|---|---|---|---|
| usb_filesystem.c:85-123 | `compare_files` loops over the FAT file's size only. When the FAT file is shorter by a whole number of 128-byte chunks, or was emptied, it reports "the same". When the flash file is a whole number of chunks long and the FAT file grew past it, the flash read comes back empty and the comparison returns -1, which aborts the whole write-back | flash file of 256 bytes; the host truncates the FAT copy to 128 bytes (or to 0): the edit is never written back. Flash file of 128 bytes; the host appends to it: `copy_fat_to_flash` stops with an error | files of different sizes are different, and the edited file is written back | high, not executed | ChunkCopy.CompareMissesTruncation, ChunkCopy.CompareFailsOnGrowth, UsbFilesystem.SyncKeepsTruncatedFile, UsbFilesystem.SyncAbortsOnGrowth | ChunkCopy.CompareSized, ChunkCopy.CompareSizedClean, UsbFilesystem.FlashUpdateMirrors |
| fat_ramdisk.c:74-78, fat_ramdisk.c:93-97 | `disk_read`/`disk_write` check only that the first sector is on the disk, then copy `count` sectors | sector = num_sectors - 1, count = 2: the copy runs one sector past the end of the RAM disk | refuse any range with sector + count > num_sectors | medium, not executed | RamDisk.AccessCheckAsWritten, RamDisk.AsWrittenAcceptsOverrun | RamDisk.AccessCheck, RamDisk.AccessCheckAgreesInRange |
| main.c:630-668, usb.c:86-92 | a bus suspend posts `USB_DISCONNECTED` like an unmount does, and every `USB_DISCONNECTED` calls `power_ref_put` whatever the USB state | boot with VBUS, connect, USB timeout, suspend, then unmount: power_ref reaches -1. A later connect brings it to 0 while mounted, so the power-off alarm can cut power while the host is connected | give back the connect's reference only when leaving MOUNTED, and take it only when entering MOUNTED | medium, not executed | BadgeMain.HandleAsWritten, BadgeMain.SuspendThenUnmountGoesNegative | BadgeMain.Handle, BadgeMain.PowerRefNeverNegative |
