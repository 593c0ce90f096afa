/**
 The storage proxy's file handlers and its record of what still has to be
 synced: one state per descriptor of a 64-entry table, one for the root
 directories, and one for whole file systems.
 */
module Storage {
  import opened Octets
  import opened Wrappers
  import opened KernelModel
  import opened Ipc
  import opened FileService

  datatype SyncState = Unused | Clean | Dirty

  const FD_TBL_SIZE: nat := 64

  /** What a crash would leave, the files no flag accounts for, and whether whole file systems are due. */
  datatype Persisted = Persisted(disk: Volume, adrift: set<Inode>, due: bool)

  /** A write of `n` bytes and one of the next `m` are a write of `n + m`. */
  lemma PatchOn(v: Volume, i: Inode, off: nat, data: Bytes, n: nat, m: nat)
    requires n + m <= |data| && m > 0
    ensures n == 0 ==> Patched(v, i, off + n, data[n..][..m]) == Patched(v, i, off, data[..n + m])
    ensures Patched(Patched(v, i, off, data[..n]), i, off + n, data[n..][..m]) == Patched(v, i, off, data[..n + m])
  {
    assert data[..n] + data[n..][..m] == data[..n + m];
    SpliceTwice(v.Contents(i), off, data[..n], data[n..][..m]);
    var once := Patched(v, i, off, data[..n]);
    assert Patched(once, i, off + n, data[n..][..m]).data == Patched(v, i, off, data[..n + m]).data;
  }

  lemma CachedMore(i: Inode, off: nat, data: Bytes, n: nat, m: nat, cache: Volume, cache': Volume, cache'': Volume)
    requires n + m <= |data| && Cached(i, off, data, n, cache, cache')
    requires Cached(i, off + n, data[n..], m, cache', cache'')
    ensures Cached(i, off, data, n + m, cache, cache'')
  {
    if m > 0 {
      PatchOn(cache, i, off, data, n, m);
    }
  }

  lemma SetTwice(v: Volume, i: Inode, a: Bytes, b: Bytes)
    ensures v.WithData(i, a).WithData(i, b) == v.WithData(i, b)
  {
  }

  /** The same of what has gone through to the disk. */
  lemma ThroughMore(i: Inode, off: nat, data: Bytes, n: nat, k: nat, cache: Volume, disk: Volume,
                    cache': Volume, disk': Volume, disk'': Volume)
    requires n + k <= |data| && WroteThrough(i, off, data, n, cache, disk, disk')
    requires Cached(i, off, data, n, cache, cache')
    requires WroteThrough(i, off + n, data[n..], k, cache', disk', disk'')
    ensures WroteThrough(i, off, data, n + k, cache, disk, disk'')
  {
    if n == 0 {
      assert data[0..] == data;
    } else if k > 0 {
      var d, c := disk.Contents(i), cache.Contents(i);
      SpliceOn(d, off, data, n, k);
      SpliceOn(c, off, data, n, k);
      var next := data[n..][..k];
      assert cache'.Contents(i) == Spliced(c, off, data[..n]);
      var was := disk'.Contents(i);
      assert was == Spliced(d, off, data[..n]) || was == Spliced(c, off, data[..n]);
      SetTwice(disk, i, was, Spliced(was, off + n, next));
      SetTwice(disk, i, was, Spliced(cache'.Contents(i), off + n, next));
      assert disk' == disk.WithData(i, was);
    }
  }

  /** One more transfer: what it did to the page cache and what has gone through, on top of what came before. */
  lemma WrittenMore(i: Inode, off: nat, data: Bytes, done: nat, n: nat, k: nat, cache: Volume, disk: Volume,
                    cache': Volume, disk': Volume, cache'': Volume, disk'': Volume)
    requires done + n <= |data| && k <= n
    requires Cached(i, off, data, done, cache, cache') && WroteThrough(i, off, data, done, cache, disk, disk')
    requires Cached(i, off + done, data[done..], n, cache', cache'')
    requires WroteThrough(i, off + done, data[done..], k, cache', disk', disk'')
    ensures Cached(i, off, data, done + n, cache, cache'')
    ensures WroteThrough(i, off, data, done + k, cache, disk, disk'')
  {
    CachedMore(i, off, data, done, n, cache, cache', cache'');
    ThroughMore(i, off, data, done, k, cache, disk, cache', disk', disk'');
  }

  /** One turn of the read loop: `n` more bytes of the file, or none at its end. */
  lemma ReadOn(file: Bytes, was: Bytes, now: Bytes, offset: nat, done: nat, n: nat, size: nat)
    requires done + n <= |was| && done <= size
    requires now == was[..done] + Clip(file, offset + done, n) + was[done + n..]
    requires done > 0 ==> offset + done <= |file| && was[..done] == Clip(file, offset, done)
    requires if n == 0 then offset + done >= |file| else offset + done + n <= |file|
    ensures done + n <= |now|
    ensures now[..done + n] == Clip(file, offset, if n == 0 then size else done + n)
  {
    if n > 0 {
      ClipOn(file, offset, done, done + n);
      assert was[..done] == Clip(file, offset, done);
      assert now[..done + n] == was[..done] + Clip(file, offset + done, n);
    }
  }


  class Store {
    var fsState: SyncState
    var dirState: SyncState
    const fdState: array<SyncState>
    const readRsp: array<Byte>

    const persistOn: bool
    const proinfoOn: bool

    const kernel: Kernel
    const channel: Channel

    /** Files that a close left behind: its sync failed, and no other flag named them. */
    ghost var failed: set<Inode>

    /** Files that a checkpoint of whole file systems left behind: their root was never set up. */
    ghost var passedOver: set<Inode>

    /** Checkpoints sync this root. */
    predicate Reaches(r: Root) {
      r == DataRoot || (r == PersistRoot && persistOn) || (r == ProinfoRoot && proinfoOn)
    }

    function Roots(): (s: set<Root>)
      ensures forall r :: r in s <==> Reaches(r)
    {
      {DataRoot} + (if persistOn then {PersistRoot} else {}) + (if proinfoOn then {ProinfoRoot} else {})
    }

    /** Files no flag has to account for. */
    ghost predicate Exempt(i: Inode)
      reads this`failed, this`passedOver
    {
      i in failed || i in passedOver
    }

    /** Some table entry is DIRTY and is an open descriptor of `i`. */
    ghost predicate Marked(i: Inode)
      reads fdState, kernel`open
    {
      exists h :: 0 <= h < fdState.Length && fdState[h] == Dirty && h in kernel.open && kernel.open[h] == i
    }

    ghost predicate Covered(i: Inode)
      reads this`fsState, fdState, kernel`open
    {
      fsState == Dirty || Marked(i)
    }

    /** As `Covered`, with the table entry of descriptor `fd` out of account. */
    ghost predicate CoveredWithout(i: Inode, fd: nat)
      reads this`fsState, fdState, kernel`open
    {
      || fsState == Dirty
      || exists h :: 0 <= h < fdState.Length && h != fd && fdState[h] == Dirty &&
                     h in kernel.open && kernel.open[h] == i
    }

    /** A crash would lose changes to the file, and no flag says so. */
    ghost predicate Adrift(i: Inode)
      reads this`fsState, fdState, kernel`cache, kernel`disk, kernel`open
    {
      kernel.Unsynced(i) && !Covered(i)
    }

    /** The flags lead a checkpoint that succeeds to this file, or this directory. */
    ghost predicate Named(i: Inode)
      reads this`fsState, fdState, kernel`open
    {
      if fsState == Dirty then Reaches(i.root) else Marked(i)
    }

    ghost predicate NamedDir(r: Root)
      reads this`fsState, this`dirState
    {
      (fsState == Dirty || dirState == Dirty) && Reaches(r)
    }

    /** The flags account for everything a crash could lose. */
    ghost predicate Tracked()
      reads this, fdState, kernel`cache, kernel`disk, kernel`open
    {
      && (forall i :: Adrift(i) ==> Exempt(i))
      && (forall i :: i in passedOver ==> !Reaches(i.root))
      && (forall r :: kernel.UnsyncedDir(r) && Reaches(r) ==> dirState == Dirty || fsState == Dirty)
    }

    ghost predicate Valid()
      reads this, fdState, kernel`cache, kernel`disk, kernel`open
    {
      && fdState.Length == FD_TBL_SIZE && readRsp.Length == MAX_READ_SIZE
      && fsState != Unused && dirState != Unused
      && Tracked()
    }

    ghost predicate AllClean()
      reads this, fdState
    {
      fsState != Dirty && dirState != Dirty && forall h :: 0 <= h < fdState.Length ==> fdState[h] != Dirty
    }

    /** Nothing a crash could lose, exempt files and roots that were never set up aside. */
    ghost predicate Durable()
      reads this, kernel`cache, kernel`disk
    {
      && (forall i :: kernel.Unsynced(i) ==> Exempt(i))
      && (forall r :: kernel.UnsyncedDir(r) ==> !Reaches(r))
    }

    /** Nothing reaches the disk but what the page cache held. */
    twostate predicate DiskFollows()
      reads kernel`cache, kernel`disk
    {
      Follows(old(kernel.cache), old(kernel.disk), kernel.disk)
    }

    /** The sync calls issued say whether the checkpoint went well: it stopped at the first that failed. */
    twostate predicate CallsSay(ok: bool)
      reads kernel`calls
    {
      && old(kernel.calls) <= kernel.calls
      && (forall k :: |old(kernel.calls)| <= k < |kernel.calls| - 1 ==> kernel.calls[k].ok)
      && (ok <==> kernel.calls == old(kernel.calls) || kernel.calls[|kernel.calls| - 1].ok)
    }

    /** No file has come adrift. */
    twostate predicate NoMoreAdrift()
      reads this, fdState, kernel`cache, kernel`disk, kernel`open
    {
      forall i :: Adrift(i) ==> old(Adrift(i))
    }

    ghost function AllUnsynced(): (u: set<Inode>)
      reads kernel`cache, kernel`disk
      ensures forall i :: i in u <==> kernel.Unsynced(i)
    {
      set i | i in kernel.cache.data.Keys + kernel.disk.data.Keys && kernel.Unsynced(i)
    }

    ghost function Persistence(): (p: Persisted)
      reads this, fdState, kernel`cache, kernel`disk, kernel`open
      ensures forall i :: i in p.adrift <==> Adrift(i)
    {
      Persisted(kernel.disk, (set i | i in AllUnsynced() && Adrift(i)), fsState == Dirty)
    }

    /** storage_init and its two companions, once they have succeeded. */
    constructor (kernel: Kernel, channel: Channel, persist: bool, proinfo: bool)
      requires forall i :: !kernel.Unsynced(i)
      requires forall r :: !kernel.UnsyncedDir(r)
      ensures Valid() && AllClean() && failed == {} && passedOver == {}
      ensures this.kernel == kernel && this.channel == channel && fresh(fdState) && fresh(readRsp)
      ensures persistOn == persist && proinfoOn == proinfo
    {
      fsState, dirState := Clean, Clean;
      fdState := new SyncState[FD_TBL_SIZE](_ => Unused);
      readRsp := new Byte[MAX_READ_SIZE];
      this.kernel, this.channel, persistOn, proinfoOn := kernel, channel, persist, proinfo;
      failed, passedOver := {}, {};
    }

    // ----- the descriptor table

    method InsertFd(creat: bool, trunc: bool, fd: nat) returns (handle: nat)
      requires fdState.Length == FD_TBL_SIZE
      modifies this`fsState, this`dirState, fdState
      ensures handle == fd
      ensures dirState == if creat then Dirty else old(dirState)
      ensures fsState == if fd >= FD_TBL_SIZE && (trunc || creat) then Dirty else old(fsState)
      ensures forall h :: 0 <= h < FD_TBL_SIZE ==>
                            fdState[h] == if h != fd then old(fdState[h]) else if trunc then Dirty else Clean
    {
      if creat {
        dirState := Dirty;
      }
      if fd < FD_TBL_SIZE {
        fdState[fd] := Clean;
        if trunc {
          fdState[fd] := Dirty;
        }
      } else {
        if trunc || creat {
          fsState := Dirty;
        }
      }
      return fd;
    }

    method LookupFd(handle: nat, dirty: bool) returns (fd: nat)
      requires fdState.Length == FD_TBL_SIZE
      modifies this`fsState, fdState
      ensures fd == handle
      ensures fsState == if dirty && handle >= FD_TBL_SIZE then Dirty else old(fsState)
      ensures forall h :: 0 <= h < FD_TBL_SIZE ==>
                            fdState[h] == if dirty && h == handle then Dirty else old(fdState[h])
    {
      if dirty {
        if handle < FD_TBL_SIZE {
          fdState[handle] := Dirty;
        } else {
          fsState := Dirty;
        }
      }
      return handle;
    }

    method RemoveFd(handle: nat) returns (fd: nat)
      requires fdState.Length == FD_TBL_SIZE
      modifies fdState
      ensures fd == handle
      ensures forall h :: 0 <= h < FD_TBL_SIZE ==> fdState[h] == if h == handle then Unused else old(fdState[h])
    {
      if handle < FD_TBL_SIZE {
        fdState[handle] := Unused;
      }
      return handle;
    }

    // ----- the checkpoint

    /** One turn of the checkpoint's loop over the descriptor table. */
    method SyncEntry(fd: nat) returns (ok: bool)
      requires Valid() && fd < FD_TBL_SIZE
      modifies fdState, kernel`disk, kernel`calls, kernel`failure
      ensures Valid() && NoMoreAdrift() && DiskFollows() && CallsSay(ok)
      ensures ok ==> forall r :: kernel.disk.Dir(r) == old(kernel.disk).Dir(r)
      ensures old(fdState[fd]) != Dirty || fsState == Dirty ==>
                ok && kernel.disk == old(kernel.disk) && kernel.calls == old(kernel.calls)
      ensures forall h :: 0 <= h < FD_TBL_SIZE ==>
                            fdState[h] == if ok && h == fd && old(fdState[h]) == Dirty then Clean else old(fdState[h])
      ensures fsState != Dirty && ok && old(fdState[fd]) == Dirty ==>
                && fd in kernel.open
                && kernel.disk == old(kernel.disk).WithData(kernel.open[fd], kernel.cache.Contents(kernel.open[fd]))
    {
      if fdState[fd] == Dirty {
        if fsState == Clean {
          var r := kernel.Fsync(fd);
          if r.Err? {
            DiskMayFollow();
            return false;
          }
        }
        fdState[fd] := Clean;
      }
      return true;
    }

    /** First part of the checkpoint: the descriptor table. */
    method SyncTable() returns (ok: bool)
      requires Valid()
      modifies fdState, kernel`disk, kernel`calls, kernel`failure
      ensures Valid() && NoMoreAdrift() && DiskFollows() && CallsSay(ok)
      ensures ok ==> forall r :: kernel.disk.Dir(r) == old(kernel.disk).Dir(r)
      ensures fsState == Dirty ==> ok && kernel.disk == old(kernel.disk) && kernel.calls == old(kernel.calls)
      ensures ok ==> forall h :: 0 <= h < FD_TBL_SIZE ==>
                                   fdState[h] == if old(fdState[h]) == Dirty then Clean else old(fdState[h])
      ensures fsState != Dirty && ok ==>
                forall i :: kernel.disk.Contents(i) ==
                            if old(Marked(i)) then kernel.cache.Contents(i) else old(kernel.disk).Contents(i)
      ensures (forall h :: 0 <= h < FD_TBL_SIZE ==> old(fdState[h]) != Dirty) ==>
                ok && kernel.disk == old(kernel.disk) && kernel.calls == old(kernel.calls)
    {
      var fd := 0;
      while fd < FD_TBL_SIZE
        invariant 0 <= fd <= FD_TBL_SIZE && Valid() && CallsSay(true)
        invariant forall h :: 0 <= h < FD_TBL_SIZE ==>
                                fdState[h] == if h < fd && old(fdState[h]) == Dirty then Clean else old(fdState[h])
        invariant forall r :: kernel.disk.Dir(r) == old(kernel.disk).Dir(r)
        invariant NoMoreAdrift()
        invariant fsState == Dirty ==> kernel.disk == old(kernel.disk) && kernel.calls == old(kernel.calls)
        invariant forall i :: kernel.disk.Contents(i) == old(kernel.disk).Contents(i) ||
                              (old(Marked(i)) && kernel.disk.Contents(i) == kernel.cache.Contents(i))
        invariant fsState != Dirty ==>
                    forall h :: 0 <= h < fd && old(fdState[h]) == Dirty ==>
                                  h in kernel.open && !kernel.Unsynced(kernel.open[h])
        invariant (forall h :: 0 <= h < FD_TBL_SIZE ==> old(fdState[h]) != Dirty) ==>
                    kernel.disk == old(kernel.disk) && kernel.calls == old(kernel.calls)
      {
        ok := SyncEntry(fd);
        if !ok {
          return;
        }
        fd := fd + 1;
      }
      return true;
    }

    /** One fsync of the second part, for a root that may not be set up. */
    method SyncOneRoot(root: Root) returns (ok: bool)
      modifies kernel`disk, kernel`calls, kernel`failure
      ensures DiskFollows() && CallsSay(ok)
      ensures ok ==>
                && (forall i :: kernel.disk.Contents(i) == old(kernel.disk).Contents(i))
                && (forall r :: kernel.disk.Dir(r) ==
                                if r == root && Reaches(root) then kernel.cache.Dir(r) else old(kernel.disk).Dir(r))
    {
      if Reaches(root) {
        var r := kernel.FsyncRoot(root);
        return r.Ok?;
      }
      return true;
    }

    /** What keeps the record right: the disk may catch up with the page cache while nothing else changes. */
    twostate lemma DiskMayFollow()
      requires old(Valid()) && DiskFollows() && kernel.cache == old(kernel.cache) && kernel.open == old(kernel.open)
      requires fsState == old(fsState) && dirState == old(dirState) && fdState[..] == old(fdState[..])
      requires failed == old(failed) && passedOver == old(passedOver)
      ensures Valid() && NoMoreAdrift()
    {
      assert forall h :: 0 <= h < fdState.Length ==> fdState[..][h] == old(fdState[..])[h];
      assert forall i :: Adrift(i) ==> old(Adrift(i));
    }

    /** The directories of all roots that were set up. */
    method SyncAllRoots() returns (ok: bool)
      modifies kernel`disk, kernel`calls, kernel`failure
      ensures DiskFollows() && CallsSay(ok)
      ensures ok ==>
                && (forall i :: kernel.disk.Contents(i) == old(kernel.disk).Contents(i))
                && (forall r :: kernel.disk.Dir(r) ==
                                if Reaches(r) then kernel.cache.Dir(r) else old(kernel.disk).Dir(r))
    {
      ok := SyncOneRoot(DataRoot);
      if ok {
        ok := SyncOneRoot(PersistRoot);
      }
      if ok {
        ok := SyncOneRoot(ProinfoRoot);
      }
    }

    /** Second part: the root directories. */
    method SyncRoots() returns (ok: bool)
      requires Valid()
      modifies this`dirState, kernel`disk, kernel`calls, kernel`failure
      ensures Valid() && NoMoreAdrift() && DiskFollows() && CallsSay(ok)
      ensures ok ==> forall i :: kernel.disk.Contents(i) == old(kernel.disk).Contents(i)
      ensures old(dirState) != Dirty || fsState == Dirty ==>
                ok && kernel.disk == old(kernel.disk) && kernel.calls == old(kernel.calls)
      ensures dirState == if ok then Clean else old(dirState)
      ensures ok && fsState != Dirty ==>
                forall r :: kernel.disk.Dir(r) ==
                            if old(dirState) == Dirty && Reaches(r) then kernel.cache.Dir(r)
                            else old(kernel.disk).Dir(r)
    {
      if dirState == Dirty {
        if fsState == Clean {
          ok := SyncAllRoots();
          DiskMayFollow();
          if !ok {
            return;
          }
        }
        dirState := Clean;
      }
      return true;
    }

    /** One syncfs of the last part, for a root that may not be set up. */
    method SyncOneFs(root: Root) returns (ok: bool)
      modifies kernel`disk, kernel`calls, kernel`failure
      ensures DiskFollows() && CallsSay(ok)
      ensures ok ==>
                && (forall i :: kernel.disk.Contents(i) ==
                                if i.root == root && Reaches(root) then kernel.cache.Contents(i)
                                else old(kernel.disk).Contents(i))
                && (forall r :: kernel.disk.Dir(r) ==
                                if r == root && Reaches(root) then kernel.cache.Dir(r) else old(kernel.disk).Dir(r))
    {
      if Reaches(root) {
        var r := kernel.SyncFs(root);
        return r.Ok?;
      }
      return true;
    }

    /** The file systems of all roots that were set up. */
    method SyncAllFs() returns (ok: bool)
      modifies kernel`disk, kernel`calls, kernel`failure
      ensures DiskFollows() && CallsSay(ok)
      ensures ok ==>
                && (forall i :: kernel.disk.Contents(i) ==
                                if Reaches(i.root) then kernel.cache.Contents(i) else old(kernel.disk).Contents(i))
                && (forall r :: kernel.disk.Dir(r) ==
                                if Reaches(r) then kernel.cache.Dir(r) else old(kernel.disk).Dir(r))
    {
      ok := SyncOneFs(DataRoot);
      if ok {
        ok := SyncOneFs(PersistRoot);
      }
      if ok {
        ok := SyncOneFs(ProinfoRoot);
      }
    }

    /** Last part: whole file systems. Files under a root that was never set up are passed over. */
    method SyncFileSystems() returns (ok: bool)
      requires Valid()
      modifies this`fsState, this`passedOver, kernel`disk, kernel`calls, kernel`failure
      ensures Valid() && DiskFollows() && CallsSay(ok)
      ensures forall i :: Adrift(i) ==> old(Adrift(i)) || (ok && old(fsState) == Dirty && !Reaches(i.root))
      ensures fsState == if ok then Clean else old(fsState)
      ensures old(fsState) != Dirty ==>
                && ok && kernel.disk == old(kernel.disk) && kernel.calls == old(kernel.calls)
                && passedOver == old(passedOver)
      ensures !ok ==> passedOver == old(passedOver)
      ensures ok && old(fsState) == Dirty ==>
                && (forall i :: kernel.disk.Contents(i) ==
                                if Reaches(i.root) then kernel.cache.Contents(i) else old(kernel.disk).Contents(i))
                && (forall r :: kernel.disk.Dir(r) ==
                                if Reaches(r) then kernel.cache.Dir(r) else old(kernel.disk).Dir(r))
                && (forall i :: i in passedOver <==> i in old(passedOver) || kernel.Unsynced(i))
    {
      if fsState == Dirty {
        ok := SyncAllFs();
        DiskMayFollow();
        if !ok {
          return;
        }
        passedOver := passedOver + AllUnsynced();
        fsState := Clean;
      }
      return true;
    }

    /** The three parts of the checkpoint, in the order of the code. */
    method SyncAll() returns (ok: bool)
      requires Valid()
      modifies this`fsState, this`dirState, this`passedOver, fdState, kernel`disk, kernel`calls, kernel`failure
      ensures Valid() && DiskFollows() && CallsSay(ok)
      ensures forall i :: Adrift(i) ==> old(Adrift(i)) || (ok && old(fsState) == Dirty && !Reaches(i.root))
      ensures fsState == if ok then Clean else old(fsState)
      ensures ok ==> AllClean()
      ensures old(AllClean()) ==> ok && kernel.disk == old(kernel.disk) && kernel.calls == old(kernel.calls)
      ensures ok ==>
                && (forall i :: kernel.disk.Contents(i) ==
                                if old(Named(i)) then kernel.cache.Contents(i) else old(kernel.disk).Contents(i))
                && (forall r :: kernel.disk.Dir(r) ==
                                if old(NamedDir(r)) then kernel.cache.Dir(r) else old(kernel.disk).Dir(r))
      ensures forall i :: i in passedOver <==>
                          i in old(passedOver) || (ok && old(fsState) == Dirty && kernel.Unsynced(i))
      ensures ok ==> forall h :: 0 <= h < FD_TBL_SIZE ==>
                                   fdState[h] == if old(fdState[h]) == Dirty then Clean else old(fdState[h])
    {
      ok := SyncTable();
      if !ok {
        return;
      }
      ok := SyncRoots();
      if !ok {
        return;
      }
      ok := SyncFileSystems();
    }

    /**
     storage_sync_checkpoint. It syncs only what the flags name, and a success is as good as
     syncing everything: afterwards a file is unsynced exactly when it is exempt, and exempt are
     the failed closes of before that no flag named, and the files under roots never set up that
     were pending when whole file systems were due. What is flushed is exempt no longer.
     */
    method SyncCheckpoint() returns (ok: bool)
      requires Valid()
      modifies this`fsState, this`dirState, this`failed, this`passedOver, fdState,
               kernel`disk, kernel`calls, kernel`failure
      ensures Valid() && DiskFollows() && CallsSay(ok)
      ensures forall i :: Adrift(i) ==> old(Adrift(i)) || (ok && old(fsState) == Dirty && !Reaches(i.root))
      ensures fsState == if ok then Clean else old(fsState)
      ensures ok ==> AllClean() && Durable() && forall i :: kernel.Unsynced(i) <==> Exempt(i)
      ensures old(AllClean()) ==> ok && kernel.disk == old(kernel.disk) && kernel.calls == old(kernel.calls)
      ensures ok ==>
                && (forall i :: kernel.disk.Contents(i) ==
                                if old(Named(i)) then kernel.cache.Contents(i) else old(kernel.disk).Contents(i))
                && (forall r :: kernel.disk.Dir(r) ==
                                if old(NamedDir(r)) then kernel.cache.Dir(r) else old(kernel.disk).Dir(r))
      ensures forall i :: i in failed <==> i in old(failed) && kernel.Unsynced(i)
      ensures forall i :: i in passedOver <==>
                          kernel.Unsynced(i) && (i in old(passedOver) || (ok && old(fsState) == Dirty))
      ensures ok ==> forall h :: 0 <= h < FD_TBL_SIZE ==>
                                   fdState[h] == if old(fdState[h]) == Dirty then Clean else old(fdState[h])
    {
      ok := SyncAll();
      if ok {
        forall i | kernel.Unsynced(i)
          ensures Exempt(i)
        {
          assert !Marked(i) && Adrift(i);
        }
      }
      failed, passedOver := failed * AllUnsynced(), passedOver * AllUnsynced();
    }

    // ----- transfers

    /** The first `n` bytes of `data`, and nothing else, have been written to the file behind `fd` since `was`. */
    ghost predicate WrittenSince(was: Volume, fd: nat, offset: nat, data: Bytes, n: nat)
      reads kernel`cache, kernel`open
    {
      && (fd !in kernel.open ==> n == 0 && kernel.cache == was)
      && (fd in kernel.open ==> Cached(kernel.open[fd], offset, data, n, was, kernel.cache))
    }

    /** The first `k` bytes of `data` have gone through to the disk since `cache` and `disk`. */
    ghost predicate ThroughSince(cache: Volume, disk: Volume, fd: nat, offset: nat, data: Bytes, k: nat)
      reads kernel`disk, kernel`open
    {
      && k <= |data| && (fd !in kernel.open ==> kernel.disk == disk)
      && (fd in kernel.open ==> WroteThrough(kernel.open[fd], offset, data, k, cache, disk, kernel.disk))
    }

    /** One turn of write_with_retry. */
    method WriteMore(fd: nat, data: Bytes, offset: nat, done: nat, ghost cache: Volume, ghost disk: Volume)
      returns (rc: Result<nat>, ghost n: nat, ghost k: nat)
      requires done < |data| && WrittenSince(cache, fd, offset, data, done)
      requires ThroughSince(cache, disk, fd, offset, data, done)
      modifies kernel`cache, kernel`disk, kernel`failure
      ensures kernel.failure == Failure(rc)
      ensures fd !in kernel.open ==> rc == Err(EBADF)
      ensures done <= k <= n <= |data| && WrittenSince(cache, fd, offset, data, n)
      ensures ThroughSince(cache, disk, fd, offset, data, k)
      ensures rc.Ok? ==> 0 < rc.value == n - done == k - done
    {
      ghost var cache', disk' := kernel.cache, kernel.disk;
      rc, n, k := kernel.Pwrite(fd, data[done..], offset + done);
      if fd in kernel.open {
        WrittenMore(kernel.open[fd], offset, data, done, n, k, cache, disk, cache', disk', kernel.cache, kernel.disk);
      } else {
        assert done == 0;
      }
      n, k := done + n, done + k;
    }

    /**
     write_with_retry: `n` counts the bytes that reached the file and `k` those that have gone through to the
     disk, all of them on success.
     */
    method WriteWithRetry(fd: nat, data: Bytes, offset: nat) returns (r: Result<()>, ghost n: nat, ghost k: nat)
      modifies kernel`cache, kernel`disk, kernel`failure
      ensures data == [] ==> r.Ok?
      ensures kernel.failure == if data == [] then old(kernel.failure) else Failure(r)
      ensures fd !in kernel.open && data != [] ==> r == Err(EBADF)
      ensures k <= n <= |data| && (r.Ok? ==> k == n == |data|)
      ensures WrittenSince(old(kernel.cache), fd, offset, data, n)
      ensures ThroughSince(old(kernel.cache), old(kernel.disk), fd, offset, data, k)
    {
      var done := 0;
      while done < |data|
        invariant done <= |data| && WrittenSince(old(kernel.cache), fd, offset, data, done)
        invariant ThroughSince(old(kernel.cache), old(kernel.disk), fd, offset, data, done)
        invariant kernel.failure == if done == 0 then old(kernel.failure) else None
      {
        var rc;
        rc, n, k := WriteMore(fd, data, offset, done, old(kernel.cache), old(kernel.disk));
        if rc.Err? {
          return Err(rc.errno), n, k;
        }
        done := done + rc.value;
      }
      return Ok(()), done, done;
    }

    /** read_with_retry into the response buffer: the bytes of the file from `offset`, up to `size` or its end. */
    method ReadWithRetry(fd: nat, size: nat, offset: nat) returns (r: Result<nat>)
      requires size <= readRsp.Length
      modifies readRsp, kernel`failure
      ensures size == 0 ==> r.Ok?
      ensures kernel.failure == if size == 0 then old(kernel.failure) else Failure(r)
      ensures fd !in kernel.open && size > 0 ==> r == Err(EBADF)
      ensures r.Ok? && size > 0 ==>
                && fd in kernel.open && r.value <= size
                && readRsp[..r.value] == Clip(kernel.cache.Contents(kernel.open[fd]), offset, size)
      ensures r.Ok? && size == 0 ==> r.value == 0
    {
      var left, off, rcnt := size, offset, 0;
      while left > 0
        invariant rcnt + left == size && off == offset + rcnt
        invariant kernel.failure == if rcnt == 0 then old(kernel.failure) else None
        invariant rcnt > 0 ==> fd in kernel.open && off <= |kernel.cache.Contents(kernel.open[fd])|
        invariant rcnt > 0 ==> readRsp[..rcnt] == Clip(kernel.cache.Contents(kernel.open[fd]), offset, rcnt)
      {
        ghost var before := readRsp[..];
        var rc := kernel.Pread(fd, readRsp, rcnt, left, off);
        if rc.Err? {
          return rc;
        }
        ghost var file := kernel.cache.Contents(kernel.open[fd]);
        ReadOn(file, before, readRsp[..], offset, rcnt, rc.value, size);
        if rc.value == 0 {
          return Ok(rcnt);
        }
        left := left - rc.value;
        off := off + rc.value;
        rcnt := rcnt + rc.value;
      }
      return Ok(rcnt);
    }

    /** What is written is what a later read of the same range returns, whatever the short transfers in between. */
    method WriteThenRead(fd: nat, data: Bytes, offset: nat) returns (back: Option<Bytes>)
      requires |data| <= readRsp.Length
      modifies kernel`cache, kernel`disk, kernel`failure, readRsp
      ensures back.Some? ==> back.value == data
    {
      var w, n, k := WriteWithRetry(fd, data, offset);
      var r := ReadWithRetry(fd, |data|, offset);
      if w.Err? || r.Err? {
        return None;
      }
      if data != [] {
        ReadBack(old(kernel.cache).Contents(kernel.open[fd]), offset, data);
        assert data[..n] == data;
      }
      return Some(readRsp[..r.value]);
    }

    // ----- handlers

    /**
     Exactly one response has been handed to the channel, it answers `m`, and `rc` says whether it could be
     written.
     */
    twostate predicate RespondedOnce(m: Msg, rc: int)
      reads channel
    {
      && rc == (if channel.down then -1 else 0)
      && |channel.sent| == |old(channel.sent)| + 1
      && channel.sent[..|old(channel.sent)|] == old(channel.sent)
      && Answers(m, Reply())
    }

    ghost function Reply(): Response
      requires channel.sent != []
      reads channel
    {
      channel.sent[|channel.sent| - 1]
    }

    /** What clients of the proxy can see. */
    ghost function View(): Files
      reads kernel`cache, kernel`open
    {
      Files(kernel.cache, kernel.open)
    }

    /** No flag, file or descriptor has changed. */
    twostate predicate Untouched()
      reads this, fdState, kernel`cache, kernel`disk, kernel`open
    {
      && fsState == old(fsState) && dirState == old(dirState)
      && failed == old(failed) && passedOver == old(passedOver)
      && fdState[..] == old(fdState[..])
      && kernel.cache == old(kernel.cache) && kernel.disk == old(kernel.disk) && kernel.open == old(kernel.open)
    }

    /** strlen: `limit` is where the proxy forced a terminator. */
    method Strlen(buf: array<Byte>, start: nat, ghost limit: nat) returns (n: nat)
      requires start <= limit < buf.Length && buf[limit] == 0
      ensures start + n <= limit && buf[start + n] == 0
      ensures 0 !in buf[start..start + n]
    {
      n := 0;
      while buf[start + n] != 0
        invariant start + n <= limit
        invariant 0 !in buf[start..start + n]
        decreases limit - n
      {
        n := n + 1;
      }
    }

    /** The name check of open and delete: it accepts exactly the names without a NUL byte. */
    method FrameName(buf: array<Byte>, reqLen: nat) returns (name: Option<Name>)
      requires 4 <= reqLen < buf.Length && buf[reqLen] == 0
      ensures name.Some? <==> 0 !in buf[4..reqLen]
      ensures name.Some? ==> name.value == buf[4..reqLen]
    {
      var n := Strlen(buf, 4, reqLen);
      if n != reqLen - 4 {
        assert buf[4..reqLen][n] == 0;
        return None;
      }
      return Some(buf[4..4 + n]);
    }

    /** The checks that open and delete share, up to the path, for which memory may be missing. */
    method ParseName(buf: array<Byte>, reqLen: nat) returns (name: Option<Name>, err: StorageErr, ghost oom: bool)
      requires reqLen < buf.Length && buf[reqLen] == 0
      ensures reqLen < 4 || 0 in buf[..reqLen][4..] ==> name.None? && err == ERR_NOT_VALID
      ensures reqLen >= 4 && 0 !in buf[..reqLen][4..] ==>
                if oom then name.None? && err == ERR_GENERIC else name == Some(buf[..reqLen][4..])
    {
      var noMemory: bool := *;
      oom := noMemory;
      if reqLen < 4 {
        return None, ERR_NOT_VALID, oom;
      }
      name := FrameName(buf, reqLen);
      assert buf[..reqLen][4..] == buf[4..reqLen];
      if name == None {
        return None, ERR_NOT_VALID, oom;
      }
      if noMemory {
        return None, ERR_GENERIC, oom;
      }
      err := NO_ERROR;
    }

    method MarkAndUnlink(name: Name) returns (r: Result<()>)
      requires Valid()
      modifies this`dirState, kernel`cache, kernel`failure
      ensures kernel.failure == Failure(r)
      ensures name !in old(kernel.cache).Dir(DataRoot) ==> r == Err(ENOENT)
      ensures Valid() && NoMoreAdrift() && dirState == Dirty
      ensures r.Err? ==> kernel.cache == old(kernel.cache)
      ensures r.Ok? ==>
                && name in old(kernel.cache).Dir(DataRoot)
                && kernel.cache == old(kernel.cache).WithDir(DataRoot, old(kernel.cache).Dir(DataRoot) - {name})
    {
      dirState := Dirty;
      r := kernel.Unlink(DataRoot, name);
      assert forall i :: kernel.Unsynced(i) == old(kernel.Unsynced(i));
    }

    method FileDelete(msg: Msg, buf: array<Byte>, reqLen: nat) returns (rc: int, ghost why: Cause)
      requires Valid() && reqLen < buf.Length && buf[reqLen] == 0
      modifies this`dirState, kernel`cache, kernel`failure, channel
      ensures Valid() && NoMoreAdrift() && RespondedOnce(msg, rc)
      ensures DeleteStep(buf[..reqLen], old(View()), View(), Reply(), why)
      ensures why.Ran? ==> why.failure == kernel.failure
    {
      kernel.Begin();
      var name, err;
      ghost var oom;
      name, err, oom := ParseName(buf, reqLen);
      why := if oom then OutOfMemory else Ran(None);
      if name == None {
        rc := channel.Respond(msg.(result := err), None);
        return;
      }
      rc := DeleteNamed(msg, buf[..reqLen], name.value);
      why := Ran(kernel.failure);
    }

    /** A delete request whose name was accepted. */
    method DeleteNamed(msg: Msg, ghost req: Bytes, name: Name) returns (rc: int)
      requires Valid() && |req| >= 4 && name == req[4..] && 0 !in name
      modifies this`dirState, kernel`cache, kernel`failure, channel
      ensures Valid() && NoMoreAdrift() && RespondedOnce(msg, rc)
      ensures DeleteStep(req, old(View()), View(), Reply(), Ran(kernel.failure))
    {
      var r := MarkAndUnlink(name);
      rc := channel.Respond(msg.(result := ErrorOf(r)), None);
    }

    /**
     The open calls of storage_file_open, all with O_SYNC: O_CREAT is used at once for an exclusive create,
     else only after ENOENT.
     */
    method OpenPath(root: Root, path: Name, flags: nat) returns (r: Result<nat>, creat: bool)
      modifies kernel`cache, kernel`open, kernel`failure, kernel`lastOpen
      ensures Asked(root, path, flags, old(kernel.cache), kernel.lastOpen)
      ensures kernel.failure == Failure(r)
      ensures path in old(kernel.cache).Dir(root) && Has(flags, OPEN_CREATE) && Has(flags, OPEN_EXCLUSIVE) ==>
                r == Err(EEXIST)
      ensures path !in old(kernel.cache).Dir(root) && !Has(flags, OPEN_CREATE) ==> r == Err(ENOENT)
      ensures r.Err? ==> kernel.cache == old(kernel.cache) && kernel.open == old(kernel.open)
      ensures creat ==> Has(flags, OPEN_CREATE)
      ensures r.Ok? ==>
                && r.value < MAX_FD && r.value !in old(kernel.open)
                && kernel.open.Keys == old(kernel.open).Keys + {r.value}
                && (forall h :: h in old(kernel.open) ==> kernel.open[h] == old(kernel.open)[h])
                && kernel.open[r.value].root == root
      ensures r.Ok? && path in old(kernel.cache).Dir(root) ==>
                && !(Has(flags, OPEN_CREATE) && Has(flags, OPEN_EXCLUSIVE))
                && kernel.open[r.value] == old(kernel.cache).Dir(root)[path]
                && kernel.cache == if Has(flags, OPEN_TRUNCATE)
                                   then old(kernel.cache).WithData(kernel.open[r.value], []) else old(kernel.cache)
      ensures r.Ok? && path !in old(kernel.cache).Dir(root) ==>
                && creat && !kernel.Unsynced(kernel.open[r.value]) && kernel.cache.Contents(kernel.open[r.value]) == []
                && kernel.cache ==
                   old(kernel.cache).WithDir(root, old(kernel.cache).Dir(root)[path := kernel.open[r.value]])
    {
      var trunc := Has(flags, OPEN_TRUNCATE);
      creat := false;
      if Has(flags, OPEN_CREATE) {
        if Has(flags, OPEN_EXCLUSIVE) {
          creat := true;
          r := kernel.Open(root, path, true, true, trunc);
        } else {
          r := kernel.Open(root, path, false, false, trunc);
          if r == Err(ENOENT) {
            creat := true;
            r := kernel.Open(root, path, true, false, trunc);
          }
        }
      } else {
        r := kernel.Open(root, path, false, false, trunc);
      }
    }

    /** The body of open: a descriptor on the file, entered in the table. */
    method OpenAndInsert(root: Root, path: Name, flags: nat) returns (r: Result<nat>)
      requires Valid()
      modifies this`fsState, this`dirState, fdState, kernel`cache, kernel`open, kernel`failure, kernel`lastOpen
      ensures Asked(root, path, flags, old(kernel.cache), kernel.lastOpen)
      ensures kernel.failure == Failure(r)
      ensures path in old(kernel.cache).Dir(root) && Has(flags, OPEN_CREATE) && Has(flags, OPEN_EXCLUSIVE) ==>
                r == Err(EEXIST)
      ensures path !in old(kernel.cache).Dir(root) && !Has(flags, OPEN_CREATE) ==> r == Err(ENOENT)
      ensures Valid() && NoMoreAdrift()
      ensures r.Err? ==> Untouched()
      ensures r.Ok? ==>
                && r.value < MAX_FD && r.value !in old(kernel.open)
                && kernel.open.Keys == old(kernel.open).Keys + {r.value}
                && (forall h :: h in old(kernel.open) ==> kernel.open[h] == old(kernel.open)[h])
                && Opened(old(kernel.cache), kernel.cache, root, path, flags, kernel.open[r.value])
    {
      var creat;
      r, creat := OpenPath(root, path, flags);
      if r.Err? {
        return;
      }
      var fd := InsertFd(creat, Has(flags, OPEN_TRUNCATE), r.value);
      forall i | kernel.Unsynced(i) && !old(Adrift(i))
        ensures Covered(i)
      {
        if i == kernel.open[fd] && Has(flags, OPEN_TRUNCATE) && path in old(kernel.cache).Dir(root) {
          assert fd < FD_TBL_SIZE ==> fdState[fd] == Dirty;
        } else {
          assert old(kernel.Unsynced(i));
          if fsState != Dirty {
            var h :| 0 <= h < FD_TBL_SIZE && old(fdState[h]) == Dirty && h in old(kernel.open) &&
                     old(kernel.open)[h] == i;
            assert h != fd && fdState[h] == Dirty && kernel.open[h] == i;
          }
        }
      }
    }

    method FileOpen(msg: Msg, buf: array<Byte>, reqLen: nat) returns (rc: int, ghost why: Cause)
      requires Valid() && reqLen < buf.Length && buf[reqLen] == 0
      modifies this`fsState, this`dirState, fdState, kernel`cache, kernel`open, kernel`failure, kernel`lastOpen, channel
      ensures Valid() && NoMoreAdrift() && RespondedOnce(msg, rc)
      ensures OpenStep(buf[..reqLen], old(View()), View(), Reply(), why)
      ensures reqLen >= 4 && 0 !in buf[..reqLen][4..] && why.Ran? ==>
                OpensAsAsked(buf[..reqLen], old(View()), kernel.lastOpen)
      ensures why.Ran? ==> why.failure == kernel.failure
    {
      kernel.Begin();
      var name, err;
      ghost var oom;
      name, err, oom := ParseName(buf, reqLen);
      why := if oom then OutOfMemory else Ran(None);
      if name == None {
        rc := channel.Respond(msg.(result := err), None);
        return;
      }
      rc := OpenNamed(msg, buf[..reqLen], name.value);
      why := Ran(kernel.failure);
    }

    /** An open request whose name was accepted. */
    method OpenNamed(msg: Msg, req: Bytes, name: Name) returns (rc: int)
      requires Valid() && |req| >= 4 && name == req[4..] && 0 !in name
      modifies this`fsState, this`dirState, fdState, kernel`cache, kernel`open, kernel`failure, kernel`lastOpen, channel
      ensures Valid() && NoMoreAdrift() && RespondedOnce(msg, rc)
      ensures OpenStep(req, old(View()), View(), Reply(), Ran(kernel.failure))
      ensures OpensAsAsked(req, old(View()), kernel.lastOpen)
    {
      var flags := Word32(req, 0);
      var r := OpenAndInsert(RootOf(flags), PathOf(flags, name), flags);
      rc := channel.Respond(msg.(result := ErrorOf(r)), if r.Ok? then Some(Le32(r.value)) else None);
    }

    /** Only for the file behind `fd` does its entry make a difference. */
    lemma OthersCovered(fd: nat)
      ensures forall j :: fd !in kernel.open || j != kernel.open[fd] ==> (CoveredWithout(j, fd) <==> Covered(j))
    {
    }

    /** The entry of `handle` no longer speaks for a file, which makes a difference only for the file behind it. */
    method ForgetEntry(handle: nat) returns (fd: nat)
      requires fdState.Length == FD_TBL_SIZE
      modifies fdState
      ensures fd == handle
      ensures forall h :: 0 <= h < FD_TBL_SIZE ==> fdState[h] == if h == handle then Unused else old(fdState[h])
      ensures forall j :: Covered(j) <==> if handle in kernel.open && j == kernel.open[handle]
                                          then old(CoveredWithout(j, handle)) else old(Covered(j))
    {
      OthersCovered(handle);
      fd := RemoveFd(handle);
      forall j
        ensures Covered(j) <==> old(CoveredWithout(j, handle))
      {
        if Marked(j) {
          var h :| 0 <= h < FD_TBL_SIZE && fdState[h] == Dirty && h in kernel.open && kernel.open[h] == j;
          assert h != handle && old(fdState[h]) == Dirty;
        }
      }
    }

    /** close(2) on a descriptor without an entry changes nothing about what is covered. */
    method CloseFd(fd: nat) returns (r: Result<()>)
      requires fd < fdState.Length ==> fdState[fd] == Unused
      modifies kernel`open, kernel`failure
      ensures kernel.failure == Failure(r)
      ensures fd !in old(kernel.open) ==> r == Err(EBADF)
      ensures kernel.open == old(kernel.open) || kernel.open == old(kernel.open) - {fd}
      ensures r.Ok? ==> fd in old(kernel.open) && kernel.open == old(kernel.open) - {fd}
      ensures forall j :: Covered(j) <==> old(Covered(j))
    {
      r := kernel.Close(fd);
    }

    /**
     The body of close: the entry is given up before the sync that may fail. A close leaves its file
     adrift if and only if that sync fails, the file still has unsynced changes, whole file systems are
     not due, and no other marked descriptor names it; such a file enters `failed`, and no other does.
     */
    method SyncAndClose(handle: nat) returns (r: Result<()>, ghost synced: bool)
      requires Valid()
      modifies this`failed, this`passedOver, fdState, kernel`disk, kernel`open, kernel`calls, kernel`failure
      ensures kernel.failure == Failure(r)
      ensures Valid() && DiskFollows()
      ensures handle !in old(kernel.open) ==> r == Err(EBADF) && Untracked(handle)
      ensures handle in old(kernel.open) ==> Settled(old(kernel.open)[handle], handle, synced)
      ensures r.Ok? ==> synced && handle in old(kernel.open) && kernel.open == old(kernel.open) - {handle}
      ensures !synced ==> r.Err? && kernel.open == old(kernel.open)
      ensures forall h :: 0 <= h < FD_TBL_SIZE ==> fdState[h] == if h == handle then Unused else old(fdState[h])
      ensures kernel.open == old(kernel.open) || kernel.open == old(kernel.open) - {handle}
    {
      r := ForgetAndSync(handle);
      synced := r.Ok?;
      if r.Ok? {
        r := CloseFd(handle);
      }
    }

    /** Close up to the sync. */
    method ForgetAndSync(handle: nat) returns (r: Result<()>)
      requires Valid()
      modifies this`failed, this`passedOver, fdState, kernel`disk, kernel`calls, kernel`failure
      ensures kernel.failure == Failure(r)
      ensures Valid() && DiskFollows()
      ensures forall h :: 0 <= h < FD_TBL_SIZE ==> fdState[h] == if h == handle then Unused else old(fdState[h])
      ensures handle !in kernel.open ==> r == Err(EBADF) && Untracked(handle)
      ensures handle in kernel.open ==> Settled(kernel.open[handle], handle, r.Ok?)
    {
      var fd := ForgetEntry(handle);
      r := kernel.Fsync(fd);
      if r.Err? {
        if fd in kernel.open && Adrift(kernel.open[fd]) {
          failed := failed + {kernel.open[fd]};
        }
      } else {
        failed, passedOver := failed - {kernel.open[fd]}, passedOver - {kernel.open[fd]};
      }
      forall j | Adrift(j)
        ensures Exempt(j)
      {
        if handle !in kernel.open || j != kernel.open[handle] {
          assert old(Adrift(j)) && old(Exempt(j));
        }
      }
    }

    method FileClose(msg: Msg, req: Bytes) returns (rc: int, ghost synced: bool)
      requires Valid()
      modifies this`failed, this`passedOver, fdState, kernel`disk, kernel`open, kernel`calls, kernel`failure, channel
      ensures Valid() && DiskFollows() && RespondedOnce(msg, rc)
      ensures CloseStep(req, old(View()), View(), Reply(), Ran(kernel.failure))
      ensures |req| != 4 ==> Untouched()
      ensures |req| == 4 && Word32(req, 0) !in old(kernel.open) ==> Untracked(Word32(req, 0))
      ensures |req| == 4 && Word32(req, 0) in old(kernel.open) ==>
                Settled(old(kernel.open)[Word32(req, 0)], Word32(req, 0), synced)
      ensures Reply().msg.result == NO_ERROR ==> synced
    {
      kernel.Begin();
      synced := false;
      if |req| != 4 {
        rc := channel.Respond(msg.(result := ERR_NOT_VALID), None);
        return;
      }
      rc, synced := CloseHandle(msg, Word32(req, 0));
    }

    /** A close request of the right size. */
    method CloseHandle(msg: Msg, handle: nat) returns (rc: int, ghost synced: bool)
      requires Valid()
      modifies this`failed, this`passedOver, fdState, kernel`disk, kernel`open, kernel`calls, kernel`failure, channel
      ensures Valid() && DiskFollows() && RespondedOnce(msg, rc)
      ensures Reply().payload == None && Reply().msg.result == ResultOf(Ran(kernel.failure))
      ensures kernel.open == old(kernel.open) || kernel.open == old(kernel.open) - {handle}
      ensures handle !in old(kernel.open) ==> kernel.failure == Some(EBADF) && Untracked(handle)
      ensures handle in old(kernel.open) ==> Settled(old(kernel.open)[handle], handle, synced)
      ensures kernel.failure == None ==> synced && kernel.open == old(kernel.open) - {handle}
    {
      var r;
      r, synced := SyncAndClose(handle);
      rc := channel.Respond(msg.(result := ErrorOf(r)), None);
    }

    /** What a close does to the record, given whether its sync of file `i` succeeded. */
    twostate predicate Settled(i: Inode, handle: nat, synced: bool)
      reads this, fdState, kernel`cache, kernel`disk, kernel`open
    {
      var lost := !synced && kernel.Unsynced(i) && !old(CoveredWithout(i, handle));
      && (synced ==> kernel.disk == old(kernel.disk).WithData(i, kernel.cache.Contents(i)))
      && (forall j :: Adrift(j) <==> if j == i then lost else old(Adrift(j)) && kernel.Unsynced(j))
      && failed == (if synced then old(failed) - {i} else if lost then old(failed) + {i} else old(failed))
      && passedOver == if synced then old(passedOver) - {i} else old(passedOver)
    }

    /** What a close of a handle that is not open does to it. */
    twostate predicate Untracked(handle: nat)
      reads this, fdState, kernel`cache, kernel`disk, kernel`open
    {
      && failed == old(failed) && passedOver == old(passedOver)
      && (forall j :: Adrift(j) <==> old(Adrift(j)) && kernel.Unsynced(j))
      && (handle < fdState.Length ==> fdState[handle] == Unused)
    }

    /** Changes to the file behind a descriptor that is marked leave nothing adrift. */
    twostate lemma StillAccounted(fd: nat)
      requires old(Valid()) && fdState.Length == FD_TBL_SIZE && kernel.open == old(kernel.open)
      requires fd < FD_TBL_SIZE ==> fdState[fd] == Dirty
      requires fd >= FD_TBL_SIZE || old(fsState) == Dirty ==> fsState == Dirty
      requires forall h :: 0 <= h < FD_TBL_SIZE && old(fdState[h]) == Dirty ==> fdState[h] == Dirty
      requires forall i :: (fd in kernel.open ==> i != kernel.open[fd]) ==>
                             (kernel.Unsynced(i) <==> old(kernel.Unsynced(i)))
      ensures NoMoreAdrift()
    {
      forall i | kernel.Unsynced(i) && !old(Adrift(i))
        ensures Covered(i)
      {
        if fsState != Dirty && (fd in kernel.open ==> i != kernel.open[fd]) {
          var h :| 0 <= h < FD_TBL_SIZE && old(fdState[h]) == Dirty && h in kernel.open && kernel.open[h] == i;
          assert fdState[h] == Dirty && Marked(i);
        }
      }
    }

    /** The body of write: the descriptor is marked first, so a write that stops half way stays covered. */
    method MarkAndWrite(handle: nat, data: Bytes, offset: nat) returns (r: Result<()>, ghost n: nat, ghost k: nat)
      requires Valid()
      modifies this`fsState, fdState, kernel`cache, kernel`disk, kernel`failure
      ensures data == [] ==> r.Ok?
      ensures kernel.failure == if data == [] then old(kernel.failure) else Failure(r)
      ensures handle !in kernel.open && data != [] ==> r == Err(EBADF)
      ensures Valid() && NoMoreAdrift()
      ensures handle in kernel.open ==> Covered(kernel.open[handle])
      ensures fsState == if handle >= FD_TBL_SIZE then Dirty else old(fsState)
      ensures forall h :: 0 <= h < FD_TBL_SIZE ==> fdState[h] == if h == handle then Dirty else old(fdState[h])
      ensures k <= n <= |data| && (r.Ok? ==> k == n == |data|)
      ensures Wrote(old(View()), View(), handle, offset, data[..n])
      ensures ThroughSince(old(kernel.cache), old(kernel.disk), handle, offset, data, k)
    {
      var fd := LookupFd(handle, true);
      r, n, k := WriteWithRetry(fd, data, offset);
      StillAccounted(fd);
    }

    method FileWrite(msg: Msg, req: Bytes) returns (rc: int, ghost k: nat)
      requires Valid()
      modifies this`fsState, fdState, kernel`cache, kernel`disk, kernel`failure, channel
      ensures Valid() && NoMoreAdrift() && RespondedOnce(msg, rc)
      ensures |req| < 16 ==> kernel.disk == old(kernel.disk)
      ensures |req| >= 16 ==>
                && (Reply().msg.result == NO_ERROR ==> k == |req| - 16)
                && ThroughSince(old(kernel.cache), old(kernel.disk), Word32(req, 8), Word64(req, 0), req[16..], k)
      ensures |req| >= 16 && Word32(req, 8) in kernel.open ==> Covered(kernel.open[Word32(req, 8)])
      ensures WriteStep(req, old(View()), View(), Reply(), Ran(kernel.failure))
    {
      kernel.Begin();
      k := 0;
      if |req| < 16 {
        rc := channel.Respond(msg.(result := ERR_NOT_VALID), None);
        return;
      }
      var err;
      ghost var n;
      err, n, k := WriteRequest(req);
      rc := channel.Respond(msg.(result := err), None);
    }

    /** A write request of sufficient length, up to its result. */
    method WriteRequest(req: Bytes) returns (err: StorageErr, ghost n: nat, ghost k: nat)
      requires Valid() && |req| >= 16 && kernel.failure == None
      modifies this`fsState, fdState, kernel`cache, kernel`disk, kernel`failure
      ensures err == ResultOf(Ran(kernel.failure))
      ensures Valid() && NoMoreAdrift()
      ensures k <= n <= |req| - 16 && (err == NO_ERROR ==> k == n == |req| - 16)
      ensures Word32(req, 8) !in kernel.open && |req| > 16 ==> err == ERR_NOT_VALID
      ensures Word32(req, 8) in kernel.open ==> Covered(kernel.open[Word32(req, 8)])
      ensures Wrote(old(View()), View(), Word32(req, 8), Word64(req, 0), req[16..][..n])
      ensures ThroughSince(old(kernel.cache), old(kernel.disk), Word32(req, 8), Word64(req, 0), req[16..], k)
    {
      var r;
      r, n, k := MarkAndWrite(Word32(req, 8), req[16..], Word64(req, 0));
      err := ErrorOf(r);
    }

    method FileRead(msg: Msg, req: Bytes) returns (rc: int)
      requires Valid()
      modifies this`fsState, fdState, readRsp, kernel`failure, channel
      ensures Valid() && RespondedOnce(msg, rc)
      ensures ReadStep(req, old(View()), View(), Reply(), Ran(kernel.failure))
      ensures Untouched()
    {
      kernel.Begin();
      if |req| != 16 {
        rc := channel.Respond(msg.(result := ERR_NOT_VALID), None);
        return;
      }
      if Word32(req, 4) > MAX_READ_SIZE {
        rc := channel.Respond(msg.(result := ERR_NOT_VALID), None);
        return;
      }
      var err, out := ReadRequest(req);
      rc := channel.Respond(msg.(result := err), out);
    }

    /** A read request of acceptable size, up to its result. */
    method ReadRequest(req: Bytes) returns (err: StorageErr, out: Option<Bytes>)
      requires Valid() && |req| == 16 && Word32(req, 4) <= MAX_READ_SIZE && kernel.failure == None
      modifies this`fsState, fdState, readRsp, kernel`failure
      ensures err == ResultOf(Ran(kernel.failure))
      ensures Valid() && Untouched() && (out.Some? <==> err == NO_ERROR)
      ensures Word32(req, 4) > 0 && Word32(req, 0) !in kernel.open ==> err == ERR_NOT_VALID
      ensures out.Some? && Word32(req, 4) == 0 ==> out.value == []
      ensures out.Some? && Word32(req, 4) > 0 ==>
                && Word32(req, 0) in kernel.open
                && out.value == Clip(kernel.cache.Contents(kernel.open[Word32(req, 0)]), Word64(req, 8), Word32(req, 4))
    {
      var fd := LookupFd(Word32(req, 0), false);
      var r := ReadWithRetry(fd, Word32(req, 4), Word64(req, 8));
      return ErrorOf(r), if r.Ok? then Some(readRsp[..r.value]) else None;
    }

    method FileGetSize(msg: Msg, req: Bytes) returns (rc: int)
      requires Valid()
      modifies this`fsState, fdState, kernel`failure, channel
      ensures Valid() && RespondedOnce(msg, rc)
      ensures GetSizeStep(req, old(View()), View(), Reply(), Ran(kernel.failure))
      ensures Untouched()
    {
      kernel.Begin();
      if |req| != 4 {
        rc := channel.Respond(msg.(result := ERR_NOT_VALID), None);
        return;
      }
      var r := SizeOf(Word32(req, 0));
      rc := channel.Respond(msg.(result := ErrorOf(r)), if r.Ok? then Some(Le64(r.value)) else None);
    }

    /** The body of get_size. */
    method SizeOf(handle: nat) returns (r: Result<nat>)
      requires Valid()
      modifies this`fsState, fdState, kernel`failure
      ensures Valid() && Untouched() && kernel.failure == Failure(r)
      ensures handle !in kernel.open ==> r == Err(EBADF)
      ensures r.Ok? ==> handle in kernel.open && r.value == |kernel.cache.Contents(kernel.open[handle])|
    {
      var fd := LookupFd(handle, false);
      r := kernel.Fstat(fd);
      DiskMayFollow();
    }

    /** The body of set_size, marked like a write. */
    method MarkAndResize(handle: nat, size: nat) returns (r: Result<()>)
      requires Valid()
      modifies this`fsState, fdState, kernel`cache, kernel`failure
      ensures kernel.failure == Failure(r)
      ensures Valid() && NoMoreAdrift()
      ensures fsState == if handle >= FD_TBL_SIZE then Dirty else old(fsState)
      ensures forall h :: 0 <= h < FD_TBL_SIZE ==> fdState[h] == if h == handle then Dirty else old(fdState[h])
      ensures handle !in kernel.open ==> r == Err(EBADF)
      ensures r.Err? ==> kernel.cache == old(kernel.cache)
      ensures r.Ok? ==>
                && handle in kernel.open
                && var i := kernel.open[handle];
                kernel.cache == old(kernel.cache).WithData(i, Resized(old(kernel.cache).Contents(i), size))
    {
      var fd := LookupFd(handle, true);
      r := kernel.Ftruncate(fd, size);
      StillAccounted(fd);
    }

    method FileSetSize(msg: Msg, req: Bytes) returns (rc: int)
      requires Valid()
      modifies this`fsState, fdState, kernel`cache, kernel`failure, channel
      ensures Valid() && NoMoreAdrift() && RespondedOnce(msg, rc)
      ensures SetSizeStep(req, old(View()), View(), Reply(), Ran(kernel.failure))
    {
      kernel.Begin();
      if |req| != 16 {
        rc := channel.Respond(msg.(result := ERR_NOT_VALID), None);
        return;
      }
      var r := MarkAndResize(Word32(req, 8), Word64(req, 0));
      rc := channel.Respond(msg.(result := ErrorOf(r)), None);
    }

    /** storage_init_ok and its two companions, which differ only in the property they set. */
    method InitOk(msg: Msg, req: Bytes) returns (rc: int)
      requires Valid()
      modifies channel
      ensures Valid() && RespondedOnce(msg, rc) && Untouched() && Reply().payload == None
      ensures Reply().msg.result == if |req| < 16 then ERR_NOT_VALID else NO_ERROR
    {
      if |req| < 16 {
        rc := channel.Respond(msg.(result := ERR_NOT_VALID), None);
        return;
      }
      rc := channel.Respond(msg.(result := NO_ERROR), None);
    }
  }
}
