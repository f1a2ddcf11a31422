/**
 * The two filesystems the sync engine moves files between, as abstract
 * volumes: littlefs on the flash and FatFS on the RAM disk.  A volume is
 * the root directory's listing, the contents of its files, and the replies
 * the filesystem will give to the calls made on it, one reply per call; an
 * exhausted reply stream answers every further call in full.
 */
module Filesystems {
  import opened Common

  /**
   * One reply: the call does all that was asked, moves at most `count`
   * bytes (a read or write that comes up short), or fails with `err`.
   */
  datatype Reply<E> = Full | Short(count: nat) | Failed(err: E)

  /** littlefs reports errors as negative numbers. */
  type LfsErr = e: int | e < 0 witness -1

  /** FatFS reports errors as a positive FRESULT; FR_OK is 0. */
  type FatErr = r: int | r > 0 witness 1

  /** LFS_ERR_NOENT and FR_NO_FILE: opening a file that does not exist. */
  const LfsErrNoEnt: LfsErr := -2
  const FrNoFile: FatErr := 4

  /** A root-directory entry as the directory reads report it. */
  datatype Entry = Entry(name: string, isDir: bool)

  datatype Volume<E> = Volume(listing: seq<Entry>, files: map<string, seq<byte>>, replies: seq<Reply<E>>)

  /** The reply to the next call. */
  function Next<E>(v: Volume<E>): Reply<E>
  {
    if |v.replies| == 0 then Full else v.replies[0]
  }

  /** The volume once the next call has been answered. */
  function Consume<E>(v: Volume<E>): (w: Volume<E>)
    ensures w.listing == v.listing && w.files == v.files
  {
    v.(replies := if |v.replies| == 0 then [] else v.replies[1..])
  }

  /** Every call on the volume will succeed in full. */
  predicate Clean<E>(v: Volume<E>)
  {
    forall i :: 0 <= i < |v.replies| ==> v.replies[i].Full?
  }

  lemma CleanNext<E>(v: Volume<E>)
    requires Clean(v)
    ensures Next(v) == Full && Clean(Consume(v))
  {
  }

  function Min(a: nat, b: nat): nat
  {
    if a <= b then a else b
  }

  /** How many of `want` bytes a transfer that does not fail moves. */
  function Moved<E>(r: Reply<E>, want: nat): (n: nat)
    ensures n <= want
    ensures r.Full? ==> n == want
  {
    match r
    case Short(c) => Min(c, want)
    case _ => want
  }

  /** The outcome of a call that only succeeds or fails. */
  function Status<E>(v: Volume<E>): (r: Option<E>)
    ensures r.Some? <==> Next(v).Failed?
  {
    match Next(v)
    case Failed(e) => Some(e)
    case _ => None
  }

  datatype ReadOut<E> = ReadErr(err: E) | ReadOk(bytes: seq<byte>)

  /**
   * Reads up to `len` bytes of `name` from `pos`: never more than the file
   * has left, fewer on a short reply.
   */
  function ReadFile<E>(v: Volume<E>, name: string, pos: nat, len: nat): (r: ReadOut<E>)
    requires name in v.files && pos <= |v.files[name]|
    ensures r.ReadErr? <==> Next(v).Failed?
    ensures r.ReadOk? ==> |r.bytes| <= len && pos + |r.bytes| <= |v.files[name]|
                          && r.bytes == v.files[name][pos .. pos + |r.bytes|]
    ensures r.ReadOk? && Next(v).Full? ==> |r.bytes| == Min(len, |v.files[name]| - pos)
  {
    var data := v.files[name];
    match Next(v)
    case Failed(e) => ReadErr(e)
    case _ =>
      var n := Moved(Next(v), Min(len, |data| - pos));
      ReadOk(data[pos .. pos + n])
  }

  datatype WriteOut<E> = WriteErr(err: E) | Wrote(count: nat)

  /** Appends `buf` to `name`: all of it, a prefix on a short reply, nothing on failure. */
  function WriteFile<E>(v: Volume<E>, name: string, buf: seq<byte>): (r: (WriteOut<E>, Volume<E>))
    requires name in v.files
    ensures r.0.WriteErr? <==> Next(v).Failed?
    ensures r.0.Wrote? ==> r.0.count <= |buf|
    ensures r.0.Wrote? && Next(v).Full? ==> r.0.count == |buf|
    ensures r.1.listing == v.listing && r.1.replies == Consume(v).replies
    ensures r.1.files == if r.0.Wrote? then v.files[name := v.files[name] + buf[..r.0.count]] else v.files
  {
    match Next(v)
    case Failed(e) => (WriteErr(e), Consume(v))
    case _ =>
      var n := Moved(Next(v), |buf|);
      (Wrote(n), Consume(v).(files := v.files[name := v.files[name] + buf[..n]]))
  }

  /** Opens `name` for reading: fails with `notFound` when there is no such file. */
  function OpenRead<E>(v: Volume<E>, name: string, notFound: E): (r: Option<E>)
    ensures r.None? <==> !Next(v).Failed? && name in v.files
  {
    match Next(v)
    case Failed(e) => Some(e)
    case _ => if name in v.files then None else Some(notFound)
  }

  /**
   * Opens `name` for writing, truncating it to empty; a file that does not
   * exist yet is created and gets a root-directory entry.
   */
  function Create<E>(v: Volume<E>, name: string): (r: (Option<E>, Volume<E>))
    ensures r.0 == Status(v)
    ensures r.1.replies == Consume(v).replies
    ensures r.1.files == if r.0.None? then v.files[name := []] else v.files
    ensures r.1.listing == if r.0.None? && name !in v.files then v.listing + [Entry(name, false)] else v.listing
  {
    match Next(v)
    case Failed(e) => (Some(e), Consume(v))
    case _ =>
      var listing := if name in v.files then v.listing else v.listing + [Entry(name, false)];
      (None, Consume(v).(files := v.files[name := []], listing := listing))
  }

  datatype DirOut<E> = DirErr(err: E) | DirEnd | DirItem(entry: Entry)

  /** Reads the `i`-th root-directory entry, or the end of the listing. */
  function ReadDir<E>(v: Volume<E>, i: nat): (r: DirOut<E>)
    ensures r.DirErr? <==> Next(v).Failed?
    ensures r.DirItem? ==> i < |v.listing| && r.entry == v.listing[i]
    ensures r.DirEnd? <==> !Next(v).Failed? && i >= |v.listing|
  {
    match Next(v)
    case Failed(e) => DirErr(e)
    case _ => if i < |v.listing| then DirItem(v.listing[i]) else DirEnd
  }
}
