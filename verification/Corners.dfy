/**
 Where a promise fails: one concrete case for each. The exact condition of each is
 stated by the member named in its comment, for all inputs.
 */
module Corners {
  import opened KernelModel
  import Ipc
  import Storage
  import TeeClient
  import TeeOperation
  import KeyMintOperation
  import KeyInstall

  /** A proxy with a data root only, and one file that holds a byte, open as `fd`. */
  method WithFile(i: Inode, fd: nat) returns (store: Storage.Store)
    ensures fresh(store) && fresh(store.fdState) && fresh(store.kernel) && store.Valid() && store.AllClean()
    ensures !store.persistOn && !store.proinfoOn && store.kernel.open == map[fd := i]
    ensures store.kernel.cache.Contents(i) == [7] == store.kernel.disk.Contents(i)
  {
    var kernel := new Kernel(Volume(map[i := [7]], map[i.root := map[[] := i]]));
    var channel := new Ipc.Channel();
    store := new Storage.Store(kernel, channel, false, false);
    kernel.open := map[fd := i];
    assert forall j :: !kernel.Unsynced(j);
  }

  /**
   A proinfo file open beyond the table, in a proxy whose proinfo root was never set up: the file is emptied and a
   checkpoint succeeds and clears every mark, yet a crash brings the old contents back. Only a checkpoint that fails
   keeps the mark. See `Storage.Store.SyncCheckpoint`.
   */
  method CommitWithoutRoot() returns (store: Storage.Store, emptied: bool, committed: bool)
    ensures store.kernel.cache.Contents(Inode(ProinfoRoot, 0)) == if emptied then [] else [7]
    ensures committed ==> store.AllClean() && store.kernel.disk.Contents(Inode(ProinfoRoot, 0)) == [7]
    ensures !committed ==> store.fsState == Storage.Dirty
  {
    store := WithFile(Inode(ProinfoRoot, 0), 64);
    var r := store.MarkAndResize(64, 0);
    emptied := r.Ok?;
    committed := store.SyncCheckpoint();
  }

  /**
   A close whose sync fails, without having flushed the file on the way: the next checkpoint cannot but succeed, and
   does not sync the file. See `Storage.Store.SyncAndClose`.
   */
  method CloseWithoutSync() returns (store: Storage.Store, emptied: bool, committed: bool,
                                     ghost synced: bool, ghost flushed: bool)
    ensures store.kernel.cache.Contents(Inode(DataRoot, 0)) == if emptied then [] else [7]
    ensures emptied && !synced && !flushed ==>
              committed && store.AllClean() && store.kernel.disk.Contents(Inode(DataRoot, 0)) == [7]
  {
    store := WithFile(Inode(DataRoot, 0), 3);
    var r := store.MarkAndResize(3, 0);
    emptied := r.Ok?;
    assert !store.CoveredWithout(Inode(DataRoot, 0), 3);
    r, synced := store.SyncAndClose(3);
    flushed := store.kernel.disk.Contents(Inode(DataRoot, 0)) == [];
    assert emptied && !synced && !flushed ==> store.Adrift(Inode(DataRoot, 0));
    assert store.AllClean();
    committed := store.SyncCheckpoint();
  }

  /**
   An unknown type code in front of a temporary parameter: the call is turned down, and descriptor zero is closed
   whatever the driver does. See `TeeOperation.InvokeOperation`.
   */
  method StrayClose(c: TeeClient.Common, ctx: TeeClient.Context) returns (res: TeeClient.Code)
    requires c.driver.Valid() && ctx.fd in c.driver.openFds
    modifies c.driver
    ensures res == TeeClient.ERROR_BAD_PARAMETERS && c.driver.openFds == old(c.driver.openFds) - {0}
  {
    var none := TeeOperation.BLANK_PARAM;
    var kinds := [4, TeeOperation.TEMP_INPUT, TeeOperation.NONE, TeeOperation.NONE];
    var params, called;
    ghost var tx;
    res, params, called, tx := TeeOperation.InvokeOperation(c, ctx, TeeClient.Target(ctx.fd, 0, 0), false, kinds,
                                                            [none, none, none, none]);
    assert TeeOperation.Rejected(kinds[0], none) && |tx.refs| == 0;
    assert TeeOperation.IsTemp(kinds[1]);
  }

  /** The same without the unknown code: descriptor zero stays open, whichever step fails. */
  method NoStrayClose(c: TeeClient.Common, ctx: TeeClient.Context) returns (res: TeeClient.Code)
    requires c.driver.Valid() && ctx.fd in c.driver.openFds
    modifies c.driver
    ensures c.driver.openFds == old(c.driver.openFds) && c.driver.trail == old(c.driver.trail)
  {
    var none := TeeOperation.BLANK_PARAM;
    var kinds := [TeeOperation.TEMP_INPUT, TeeOperation.NONE, TeeOperation.NONE, TeeOperation.NONE];
    var params, called;
    ghost var tx;
    res, params, called, tx := TeeOperation.InvokeOperation(c, ctx, TeeClient.Target(ctx.fd, 0, 0), false, kinds,
                                                            [none, none, none, none]);
    assert forall k :: 1 <= k < 4 ==> !TeeOperation.IsTemp(kinds[k]);
  }

  /**
   A Finish answered with the transport's own code ends the operation twice. See
   `KeyMintOperation.Operation.Live`.
   */
  method TwoEndings() returns (op: KeyMintOperation.Operation)
    ensures KeyMintOperation.Endings(op.log, 7) == 2
  {
    op := new KeyMintOperation.Operation(7);
    op.Live([KeyMintOperation.DoFinish(true, 0, -10000)], 0);
  }

  /** A connection with descriptor zero carries nothing and is never closed. See `KeyInstall.Hal.Install`. */
  method LeakedConnection() returns (hal: KeyInstall.Hal, rc: int)
    ensures rc < 0 && hal.sent == [] && hal.closed == []
  {
    hal := new KeyInstall.Hal();
    rc := hal.InstallOver(0, [], []);
  }
}
