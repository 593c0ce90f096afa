/**
 The operating system as the storage proxy sees it: a page cache over a disk,
 open descriptors, and system calls that may fail at any time. Each failure and
 each short transfer is a nondeterministic choice, so what is proved of a caller
 holds for every pattern of failures.
 */
module KernelModel {
  import opened Octets
  import opened Wrappers

  datatype Root = DataRoot | PersistRoot | ProinfoRoot

  /** A file, together with the storage root it lives under. */
  datatype Inode = Inode(root: Root, id: nat)

  type Name = Bytes

  datatype Errno = EPERM | ENOENT | EBADF | EACCES | EEXIST | ENOTDIR | EISDIR | EINVAL | ENAMETOOLONG | EOTHER

  datatype Result<+T> = Ok(value: T) | Err(errno: Errno)

  function Failure<T>(r: Result<T>): Option<Errno> {
    if r.Ok? then None else Some(r.errno)
  }

  datatype Volume = Volume(data: map<Inode, Bytes>, entries: map<Root, map<Name, Inode>>) {
    function Contents(i: Inode): Bytes {
      if i in data then data[i] else []
    }

    function Dir(r: Root): map<Name, Inode> {
      if r in entries then entries[r] else map[]
    }

    function WithData(i: Inode, b: Bytes): (v: Volume)
      ensures forall j :: v.Contents(j) == if j == i then b else Contents(j)
      ensures forall r :: v.Dir(r) == Dir(r)
    {
      Volume(data[i := b], entries)
    }

    function WithDir(r: Root, d: map<Name, Inode>): (v: Volume)
      ensures forall j :: v.Contents(j) == Contents(j)
      ensures forall q :: v.Dir(q) == if q == r then d else Dir(q)
    {
      Volume(data, entries[r := d])
    }

    /** This volume with everything under root `r` taken from `src`. */
    function WithRoot(r: Root, src: Volume): (v: Volume)
      ensures forall j :: v.Contents(j) == if j.root == r then src.Contents(j) else Contents(j)
      ensures forall q :: v.Dir(q) == if q == r then src.Dir(q) else Dir(q)
    {
      Volume(map j | j in data.Keys + src.data.Keys :: if j.root == r then src.Contents(j) else Contents(j),
             entries[r := src.Dir(r)])
    }
  }

  /** Each file and each directory on disk stayed as it was or caught up with `cache`. */
  ghost predicate Follows(cache: Volume, was: Volume, now: Volume) {
    && (forall i :: now.Contents(i) == was.Contents(i) || now.Contents(i) == cache.Contents(i))
    && (forall r :: now.Dir(r) == was.Dir(r) || now.Dir(r) == cache.Dir(r))
  }

  /** A volume with `d` written into file `i` at `off`. */
  ghost function Patched(v: Volume, i: Inode, off: nat, d: Bytes): Volume {
    v.WithData(i, Spliced(v.Contents(i), off, d))
  }

  /** The page cache after the first `n` bytes of `data` have been written to file `i`. */
  ghost predicate Cached(i: Inode, off: nat, data: Bytes, n: nat, was: Volume, now: Volume) {
    && n <= |data| && (n == 0 ==> now == was)
    && (n > 0 ==> now == Patched(was, i, off, data[..n]))
  }

  /**
   The disk after the first `n` bytes of `data`, written to file `i`, have gone through to it: nothing else has
   changed there, and the file is what it was on disk, or what it was in the page cache, with those bytes written.
   */
  ghost predicate WroteThrough(i: Inode, off: nat, data: Bytes, n: nat, cache: Volume, was: Volume, now: Volume) {
    && n <= |data| && (n == 0 ==> now == was)
    && (n > 0 ==>
          || now == was.WithData(i, Spliced(was.Contents(i), off, data[..n]))
          || now == was.WithData(i, Spliced(cache.Contents(i), off, data[..n])))
  }

  /** The calls that push cached changes to disk, and whether they succeeded. */
  datatype SyncCall = Fsync(fd: nat, ok: bool) | FsyncRoot(root: Root, ok: bool) | SyncFs(root: Root, ok: bool)

  /** The arguments of an open(2). */
  datatype OpenCall = OpenCall(root: Root, name: Name, creat: bool, excl: bool, trunc: bool)

  const MAX_OFFSET: nat := 0x8000_0000_0000_0000
  const MAX_FD: nat := 0x8000_0000

  class Kernel {
    var cache: Volume
    var disk: Volume
    var open: map<nat, Inode>
    ghost var calls: seq<SyncCall>
    /** What the last system call reported, if it failed. */
    ghost var failure: Option<Errno>
    ghost var lastOpen: OpenCall

    constructor (v: Volume)
      ensures cache == disk == v && open == map[] && calls == [] && failure == None
    {
      cache, disk, open, calls, failure := v, v, map[], [], None;
      lastOpen := OpenCall(DataRoot, [], false, false, false);
    }

    /** A request is handled from here on, and no system call has been made for it. */
    ghost method Begin()
      modifies this`failure
      ensures failure == None
    {
      failure := None;
    }

    /** File `i` would lose changes if the machine stopped now. */
    ghost predicate Unsynced(i: Inode)
      reads this`cache, this`disk
    {
      cache.Contents(i) != disk.Contents(i)
    }

    /** A file was created or deleted under `r`, and a crash would undo it. */
    ghost predicate UnsyncedDir(r: Root)
      reads this`cache, this`disk
    {
      cache.Dir(r) != disk.Dir(r)
    }

    /** open(2). The descriptor returned is one that was not in use. */
    method Open(root: Root, name: Name, creat: bool, excl: bool, trunc: bool) returns (r: Result<nat>)
      modifies this`cache, this`open, this`failure, this`lastOpen
      ensures failure == Failure(r) && lastOpen == OpenCall(root, name, creat, excl, trunc)
      ensures r.Err? ==> cache == old(cache) && open == old(open)
      ensures name !in old(cache).Dir(root) && !creat ==> r == Err(ENOENT)
      ensures name in old(cache).Dir(root) && creat && excl ==> r == Err(EEXIST)
      ensures r.Ok? ==>
                && r.value < MAX_FD && r.value !in old(open)
                && open.Keys == old(open).Keys + {r.value}
                && (forall h :: h in old(open) ==> open[h] == old(open)[h])
                && open[r.value].root == root
      ensures r.Ok? && name in old(cache).Dir(root) ==>
                && open[r.value] == old(cache).Dir(root)[name]
                && cache == if trunc then old(cache).WithData(open[r.value], []) else old(cache)
      ensures r.Ok? && name !in old(cache).Dir(root) ==>
                && cache == old(cache).WithDir(root, old(cache).Dir(root)[name := open[r.value]])
                && !Unsynced(open[r.value]) && cache.Contents(open[r.value]) == []
    {
      var dir := cache.Dir(root);
      lastOpen := OpenCall(root, name, creat, excl, trunc);
      if name !in dir && !creat {
        failure := Some(ENOENT);
        return Err(ENOENT);
      }
      if name in dir && creat && excl {
        failure := Some(EEXIST);
        return Err(EEXIST);
      }
      var ok: bool, fd: nat, id: nat, errno: Errno := *, *, *, *;
      var i := if name in dir then dir[name] else Inode(root, id);
      if !ok || fd in open || fd >= MAX_FD || i.root != root || (name !in dir && (i in cache.data || i in disk.data)) {
        failure := Some(errno);
        return Err(errno);
      }
      if name !in dir {
        cache := cache.WithDir(root, dir[name := i]);
      } else if trunc {
        cache := cache.WithData(i, []);
      }
      open := open[fd := i];
      failure := None;
      return Ok(fd);
    }

    /** unlink(2). */
    method Unlink(root: Root, name: Name) returns (r: Result<()>)
      modifies this`cache, this`failure
      ensures failure == Failure(r)
      ensures name !in old(cache).Dir(root) ==> r == Err(ENOENT)
      ensures r.Err? ==> cache == old(cache)
      ensures r.Ok? ==> name in old(cache).Dir(root) && cache == old(cache).WithDir(root, old(cache).Dir(root) - {name})
    {
      var ok: bool, errno: Errno := *, *;
      if name !in cache.Dir(root) {
        failure := Some(ENOENT);
        return Err(ENOENT);
      }
      if !ok {
        failure := Some(errno);
        return Err(errno);
      }
      cache := cache.WithDir(root, cache.Dir(root) - {name});
      failure := None;
      return Ok(());
    }

    /**
     pwrite(2) on a descriptor that was opened with O_SYNC: may transfer fewer bytes than asked, but at
     least one. `n` bytes reach the page cache and the first `k` of them the disk, all of them on success;
     a call that fails may still have moved some. What else of the file was unsynced may go along.
     */
    method Pwrite(fd: nat, d: Bytes, off: nat) returns (r: Result<nat>, ghost n: nat, ghost k: nat)
      requires d != []
      modifies this`cache, this`disk, this`failure
      ensures failure == Failure(r)
      ensures fd !in open ==> r == Err(EBADF)
      ensures k <= n <= |d| && (r.Ok? ==> 1 <= r.value == n == k)
      ensures fd !in open ==> n == 0 && cache == old(cache) && disk == old(disk)
      ensures fd in open ==>
                && Cached(open[fd], off, d, n, old(cache), cache)
                && WroteThrough(open[fd], off, d, k, old(cache), old(disk), disk)
    {
      var ok: bool, whole: bool, cached: nat, synced: nat, errno: Errno := *, *, *, *, *;
      n, k := 0, 0;
      if fd !in open {
        failure := Some(EBADF);
        return Err(EBADF), n, k;
      }
      if off >= MAX_OFFSET {
        failure := Some(EINVAL);
        return Err(EINVAL), n, k;
      }
      if cached < 1 || cached > |d| {
        failure := Some(errno);
        return Err(errno), n, k;
      }
      if ok || synced > cached {
        synced := cached;
      }
      var i := open[fd];
      var base := if whole then cache.Contents(i) else disk.Contents(i);
      cache := cache.WithData(i, Spliced(cache.Contents(i), off, d[..cached]));
      if synced > 0 {
        disk := disk.WithData(i, Spliced(base, off, d[..synced]));
      }
      failure := if ok then None else Some(errno);
      return if ok then Ok(cached) else Err(errno), cached, synced;
    }

    /** pread(2) of at most `size` bytes into `buf[at..]`: zero only at end of file. */
    method Pread(fd: nat, buf: array<Byte>, at: nat, size: nat, off: nat) returns (r: Result<nat>)
      requires 0 < size && at + size <= buf.Length
      modifies buf, this`failure
      ensures failure == Failure(r)
      ensures fd !in open ==> r == Err(EBADF)
      ensures r.Err? ==> buf[..] == old(buf[..])
      ensures r.Ok? ==>
                && fd in open && r.value <= size
                && (r.value == 0 <==> off >= |cache.Contents(open[fd])|)
                && (r.value > 0 ==> off + r.value <= |cache.Contents(open[fd])|)
                && buf[..] == old(buf[..at]) + Clip(cache.Contents(open[fd]), off, r.value) + old(buf[at + r.value..])
    {
      var ok: bool, n: nat, errno: Errno := *, *, *;
      if fd !in open {
        failure := Some(EBADF);
        return Err(EBADF);
      }
      if off >= MAX_OFFSET {
        failure := Some(EINVAL);
        return Err(EINVAL);
      }
      var file := cache.Contents(open[fd]);
      if off >= |file| {
        failure := None;
        return Ok(0);
      }
      if !ok || n < 1 || n > size || off + n > |file| {
        failure := Some(errno);
        return Err(errno);
      }
      forall j | 0 <= j < n {
        buf[at + j] := file[off + j];
      }
      failure := None;
      return Ok(n);
    }

    /** ftruncate(2). */
    method Ftruncate(fd: nat, size: nat) returns (r: Result<()>)
      modifies this`cache, this`failure
      ensures failure == Failure(r)
      ensures fd !in open ==> r == Err(EBADF)
      ensures r.Err? ==> cache == old(cache)
      ensures r.Ok? ==>
                fd in open && cache == old(cache).WithData(open[fd], Resized(old(cache).Contents(open[fd]), size))
    {
      var ok: bool, errno: Errno := *, *;
      if fd !in open {
        failure := Some(EBADF);
        return Err(EBADF);
      }
      if size >= MAX_OFFSET {
        failure := Some(EINVAL);
        return Err(EINVAL);
      }
      if !ok {
        failure := Some(errno);
        return Err(errno);
      }
      cache := cache.WithData(open[fd], Resized(cache.Contents(open[fd]), size));
      failure := None;
      return Ok(());
    }

    /** fstat(2), reduced to the file size. */
    method Fstat(fd: nat) returns (r: Result<nat>)
      modifies this`failure
      ensures failure == Failure(r)
      ensures fd !in open ==> r == Err(EBADF)
      ensures r.Ok? ==> fd in open && r.value == |cache.Contents(open[fd])|
    {
      var ok: bool, errno: Errno := *, *;
      if fd !in open {
        failure := Some(EBADF);
        return Err(EBADF);
      }
      failure := if ok then None else Some(errno);
      return if ok then Ok(|cache.Contents(open[fd])|) else Err(errno);
    }

    /** fsync(2) on a file descriptor of the handle table; one that fails may have flushed something or other. */
    method Fsync(fd: nat) returns (r: Result<()>)
      modifies this`disk, this`calls, this`failure
      ensures failure == Failure(r)
      ensures fd !in open ==> r == Err(EBADF)
      ensures calls == old(calls) + [SyncCall.Fsync(fd, r.Ok?)]
      ensures r.Err? ==> Follows(cache, old(disk), disk)
      ensures r.Ok? ==> fd in open && disk == old(disk).WithData(open[fd], cache.Contents(open[fd]))
    {
      var ok: bool, errno: Errno := *, *;
      if !ok || fd !in open {
        calls := calls + [SyncCall.Fsync(fd, false)];
        Writeback();
        r := Err(if fd in open then errno else EBADF);
        failure := Failure(r);
        return;
      }
      calls := calls + [SyncCall.Fsync(fd, true)];
      disk := disk.WithData(open[fd], cache.Contents(open[fd]));
      failure := None;
      return Ok(());
    }

    /** fsync(2) on the descriptor of a root. */
    method FsyncRoot(root: Root) returns (r: Result<()>)
      modifies this`disk, this`calls, this`failure
      ensures failure == Failure(r)
      ensures calls == old(calls) + [SyncCall.FsyncRoot(root, r.Ok?)]
      ensures r.Err? ==> Follows(cache, old(disk), disk)
      ensures r.Ok? ==> disk == old(disk).WithDir(root, cache.Dir(root))
    {
      var ok: bool, errno: Errno := *, *;
      calls := calls + [SyncCall.FsyncRoot(root, ok)];
      if !ok {
        Writeback();
        failure := Some(errno);
        return Err(errno);
      }
      disk := disk.WithDir(root, cache.Dir(root));
      failure := None;
      return Ok(());
    }

    /** syncfs(2) on the descriptor of a root. */
    method SyncFs(root: Root) returns (r: Result<()>)
      modifies this`disk, this`calls, this`failure
      ensures failure == Failure(r)
      ensures calls == old(calls) + [SyncCall.SyncFs(root, r.Ok?)]
      ensures r.Err? ==> Follows(cache, old(disk), disk)
      ensures r.Ok? ==> disk == old(disk).WithRoot(root, cache)
    {
      var ok: bool, errno: Errno := *, *;
      calls := calls + [SyncCall.SyncFs(root, ok)];
      if !ok {
        Writeback();
        failure := Some(errno);
        return Err(errno);
      }
      disk := disk.WithRoot(root, cache);
      failure := None;
      return Ok(());
    }

    /** close(2). A close that reports an error may or may not have freed the descriptor. */
    method Close(fd: nat) returns (r: Result<()>)
      modifies this`open, this`failure
      ensures failure == Failure(r)
      ensures fd !in old(open) ==> r == Err(EBADF)
      ensures open == old(open) || open == old(open) - {fd}
      ensures r.Ok? ==> fd in old(open) && open == old(open) - {fd}
    {
      var ok: bool, freed: bool, errno: Errno := *, *, *;
      if fd !in open {
        failure := Some(EBADF);
        return Err(EBADF);
      }
      if ok || freed {
        open := open - {fd};
      }
      failure := if ok then None else Some(errno);
      return if ok then Ok(()) else Err(errno);
    }

    /** Writeback at the kernel's own pace: it may flush any file and any directory, and changes nothing else. */
    method Writeback()
      modifies this`disk
      ensures Follows(cache, old(disk), disk)
    {
      var i: Inode, r: Root, flushData: bool, flushDir: bool := *, *, *, *;
      if flushData {
        disk := disk.WithData(i, cache.Contents(i));
      }
      if flushDir {
        disk := disk.WithDir(r, cache.Dir(r));
      }
    }
  }
}
