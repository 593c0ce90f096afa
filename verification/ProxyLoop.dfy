/** The storage proxy's request dispatch and its message loop. */
module ProxyLoop {
  import opened Octets
  import opened Wrappers
  import opened KernelModel
  import opened Ipc
  import opened FileService
  import opened Storage
  import Rpmb

  const FLAG_PRE_COMMIT: nat := 2
  const FLAG_POST_COMMIT: nat := 4

  const RPMB_SEND: nat := 16
  const INIT_OK: nat := 40
  const INIT_PROINFO_OK: nat := 42
  const INIT_PERSIST_OK: nat := 44

  predicate IsFileCmd(cmd: nat) {
    cmd in {FILE_DELETE, FILE_OPEN, FILE_CLOSE, FILE_WRITE, FILE_READ, FILE_GET_SIZE, FILE_SET_SIZE}
  }

  /** A commit after the request is not implemented, except that the block device needs none. */
  predicate Unsupported(m: Msg) {
    Has(m.flags, FLAG_POST_COMMIT) && m.cmd != RPMB_SEND
  }

  predicate CommitsFirst(m: Msg) {
    Has(m.flags, FLAG_PRE_COMMIT)
  }

  /** The commit flags are the second and third lowest bits of the flags' first byte. */
  lemma FlagBits(raw: Bytes)
    requires |raw| >= HEADER_SIZE
    ensures CommitsFirst(Header(raw)) <==> raw[8] as int / 2 % 2 == 1
    ensures Header(raw).cmd != RPMB_SEND ==> (Unsupported(Header(raw)) <==> raw[8] as int / 4 % 2 == 1)
  {
    HeaderBytes(raw);
    LowBit(Header(raw).flags, FLAG_PRE_COMMIT);
    LowBit(Header(raw).flags, FLAG_POST_COMMIT);
  }

  /** What a request that reached its handler does to the block device, and the answer if it is not about files. */
  ghost predicate Verdict(cmd: nat, req: Bytes, was: seq<Rpmb.Issue>, now: seq<Rpmb.Issue>, r: Response) {
    if cmd == RPMB_SEND then Rpmb.Carried(req, was, now, r)
    else
      && now == was
      && (cmd in {INIT_OK, INIT_PROINFO_OK, INIT_PERSIST_OK} ==>
            r.payload == None && r.msg.result == if |req| < 16 then ERR_NOT_VALID else NO_ERROR)
      && (!IsFileCmd(cmd) && cmd !in {INIT_OK, INIT_PROINFO_OK, INIT_PERSIST_OK} ==>
            r.payload == None && r.msg.result == ERR_UNIMPLEMENTED)
  }

  /** A request turned away because of its commit flags. */
  ghost predicate Refused(m: Msg, was: Files, now: Files, r: Response) {
    && now == was && r.payload == None
    && if Unsupported(m) then r.msg.result == ERR_UNIMPLEMENTED else CommitsFirst(m) && r.msg.result == ERR_GENERIC
  }

  /** What a file command reports is what the last system call made for it reported, memory permitting. */
  ghost predicate Blames(cmd: nat, req: Bytes, was: Files, why: Cause, failure: Option<Errno>, call: OpenCall) {
    && (IsFileCmd(cmd) && why.Ran? ==> why.failure == failure)
    && (cmd == FILE_OPEN && |req| >= 4 && 0 !in req[4..] && why.Ran? ==> OpensAsAsked(req, was, call))
  }

  /** A request as the secure world sees it: it reached its handler, or it was turned away. */
  ghost predicate Treated(m: Msg, req: Bytes, served: bool, was: Files, now: Files, r: Response, why: Cause,
                          issued: seq<Rpmb.Issue>, issued': seq<Rpmb.Issue>) {
    if served then !Unsupported(m) && Served(m.cmd, req, was, now, r, why) && Verdict(m.cmd, req, issued, issued', r)
    else Refused(m, was, now, r) && issued' == issued
  }

  // ----- what a request does to the disk

  /** The request is a close of file `i` that was answered with an error. */
  ghost predicate ClosedInVain(cmd: nat, req: Bytes, was: Files, r: Response, i: Inode) {
    && cmd == FILE_CLOSE && |req| == 4 && Word32(req, 0) in was.open && was.open[Word32(req, 0)] == i
    && r.msg.result != NO_ERROR
  }

  /** The request is a write to file `i`, complete or not. */
  predicate WritesTo(cmd: nat, req: Bytes, was: Files, i: Inode) {
    cmd == FILE_WRITE && |req| >= 16 && Word32(req, 8) in was.open && was.open[Word32(req, 8)] == i
  }

  /**
   The disk contents of a file a request writes to: part of the payload, all of it on success, has gone
   through, and other changes of the file may have gone along.
   */
  ghost predicate Through(req: Bytes, r: Response, was: Files, before: Persisted, after: Persisted, i: Inode)
    requires |req| >= 16
  {
    exists k :: 0 <= k <= |req| - 16 && (r.msg.result == NO_ERROR ==> k == |req| - 16) &&
                ThroughTo(req, was, before, after, i, k)
  }

  ghost predicate ThroughTo(req: Bytes, was: Files, before: Persisted, after: Persisted, i: Inode, k: nat)
    requires 16 + k <= |req|
  {
    || after.disk.Contents(i) == Spliced(before.disk.Contents(i), Word64(req, 0), req[16..][..k])
    || after.disk.Contents(i) == Spliced(was.cache.Contents(i), Word64(req, 0), req[16..][..k])
  }

  /**
   What a handler does to the disk: it catches up at most, but for the file written to, where the payload
   goes through. No file comes adrift except by a failed close, and a file that is written to is not adrift,
   even if it was.
   */
  ghost predicate Accounted(cmd: nat, req: Bytes, r: Response, was: Files, before: Persisted, after: Persisted) {
    && (forall i :: !WritesTo(cmd, req, was, i) ==>
                      || after.disk.Contents(i) == before.disk.Contents(i)
                      || after.disk.Contents(i) == was.cache.Contents(i))
    && (forall d :: after.disk.Dir(d) == before.disk.Dir(d) || after.disk.Dir(d) == was.cache.Dir(d))
    && (forall i :: WritesTo(cmd, req, was, i) ==> Through(req, r, was, before, after, i))
    && (forall i :: i in after.adrift && i !in before.adrift ==> ClosedInVain(cmd, req, was, r, i))
    && (forall i :: i in after.adrift ==> !WritesTo(cmd, req, was, i))
  }

  /** The one kind of file a checkpoint may miss: whole file systems are due, and its root was never set up. */
  predicate Missed(roots: set<Root>, before: Persisted, i: Inode) {
    before.due && i.root !in roots
  }

  /** All that clients see is on disk, but for the files that were adrift already or had to be missed. */
  ghost predicate Committed(roots: set<Root>, was: Files, before: Persisted, after: Persisted) {
    && (forall i :: i !in before.adrift && !Missed(roots, before, i) ==>
                      after.disk.Contents(i) == was.cache.Contents(i))
    && (forall r :: r in roots ==> after.disk.Dir(r) == was.cache.Dir(r))
  }

  /** What happens in front of the handler: `mid` is what a crash would leave when the handler is entered. */
  ghost predicate Checkpointed(m: Msg, served: bool, roots: set<Root>, was: Files, before: Persisted, mid: Persisted) {
    && Follows(was.cache, before.disk, mid.disk)
    && (forall i :: i in mid.adrift && i !in before.adrift ==> served && CommitsFirst(m) && Missed(roots, before, i))
    && (served && CommitsFirst(m) ==> Committed(roots, was, before, mid))
  }

  /**
   The commit barrier: a request that asks for a commit first and reaches its handler finds everything on
   disk that clients saw before it, and a request that is turned away leaves things as it found them.
   */
  ghost predicate Guarded(m: Msg, req: Bytes, served: bool, r: Response, roots: set<Root>,
                          was: Files, before: Persisted, mid: Persisted, after: Persisted) {
    && Checkpointed(m, served, roots, was, before, mid)
    && if served then Accounted(m.cmd, req, r, was, mid, after) else after == mid
  }

  /** What the barrier means once the request is done, for every file that it does not write to. */
  lemma BarrierHolds(m: Msg, req: Bytes, r: Response, roots: set<Root>, was: Files,
                     before: Persisted, mid: Persisted, after: Persisted)
    requires CommitsFirst(m) && Guarded(m, req, true, r, roots, was, before, mid, after)
    ensures forall i :: i !in before.adrift && !Missed(roots, before, i) && !WritesTo(m.cmd, req, was, i) ==>
                          after.disk.Contents(i) == was.cache.Contents(i)
    ensures forall d :: d in roots ==> after.disk.Dir(d) == was.cache.Dir(d)
    ensures forall i :: i in after.adrift && i !in before.adrift ==>
                          ClosedInVain(m.cmd, req, was, r, i) || Missed(roots, before, i)
  {
    forall i | i in after.adrift && i !in before.adrift
      ensures ClosedInVain(m.cmd, req, was, r, i) || Missed(roots, before, i)
    {
      assert i in mid.adrift || ClosedInVain(m.cmd, req, was, r, i);
    }
  }

  /** Writeback in front of a request changes nothing about any of this. */
  lemma WritebackFirst(m: Msg, served: bool, roots: set<Root>, was: Files,
                       before: Persisted, first: Persisted, mid: Persisted)
    requires Follows(was.cache, before.disk, first.disk) && first.adrift <= before.adrift && first.due == before.due
    requires Checkpointed(m, served, roots, was, first, mid)
    ensures Checkpointed(m, served, roots, was, before, mid)
  {
  }

  // ----- runs

  /** A message of a run, its response, whether it reached its handler, what a crash would have left then, and why. */
  datatype Exchange = Exchange(raw: Bytes, resp: Response, served: bool, entry: Persisted, why: Cause)

  predicate Readable(incoming: Incoming) {
    incoming.Delivered? && WellFormed(incoming.raw)
  }

  /** All that can be seen of the proxy from outside, what a crash would leave included. */
  datatype State = State(files: Files, kept: Persisted, sent: seq<Response>, issued: seq<Rpmb.Issue>,
                         failure: Option<Errno>, lastOpen: OpenCall)

  /** One request and its response `r`, from state `s` to state `t`. */
  ghost predicate Answered(m: Msg, req: Bytes, served: bool, r: Response, why: Cause, roots: set<Root>,
                           s: State, mid: Persisted, t: State) {
    && Answers(m, r) && t.sent == s.sent + [r]
    && Guarded(m, req, served, r, roots, s.files, s.kept, mid, t.kept)
    && Treated(m, req, served, s.files, t.files, r, why, s.issued, t.issued)
    && (served ==> Blames(m.cmd, req, s.files, why, t.failure, t.lastOpen))
  }

  ghost predicate Step(x: Exchange, roots: set<Root>, s: State, t: State) {
    WellFormed(x.raw) && Answered(Header(x.raw), x.raw[HEADER_SIZE..], x.served, x.resp, x.why, roots, s, x.entry, t)
  }

  ghost predicate StepAt(roots: set<Root>, states: seq<State>, xs: seq<Exchange>, j: nat)
    requires j < |xs| && |states| == |xs| + 1
  {
    Step(xs[j], roots, states[j], states[j + 1])
  }

  /** A run: `states[j]` is where exchange `j` starts. */
  ghost predicate Trace(roots: set<Root>, states: seq<State>, xs: seq<Exchange>) {
    && |states| == |xs| + 1
    && forall j :: 0 <= j < |xs| ==> StepAt(roots, states, xs, j)
  }

  /** One more exchange from where the run stands continues it. */
  lemma TraceGrows(roots: set<Root>, states: seq<State>, xs: seq<Exchange>, x: Exchange, t: State)
    requires Trace(roots, states, xs) && Step(x, roots, states[|xs|], t)
    ensures Trace(roots, states + [t], xs + [x])
  {
    forall j | 0 <= j < |xs + [x]|
      ensures StepAt(roots, states + [t], xs + [x], j)
    {
      if j < |xs| {
        assert StepAt(roots, states, xs, j);
      }
    }
  }

  function Responses(xs: seq<Exchange>): seq<Response> {
    seq(|xs|, j requires 0 <= j < |xs| => xs[j].resp)
  }

  /** One response per message, in order, each a proper answer to its message. */
  lemma {:induction false} AnsweredInOrder(roots: set<Root>, states: seq<State>, xs: seq<Exchange>, n: nat)
    requires Trace(roots, states, xs) && n <= |xs|
    ensures states[n].sent == states[0].sent + Responses(xs[..n])
    ensures forall j :: 0 <= j < n ==> |xs[j].raw| >= HEADER_SIZE && Answers(Header(xs[j].raw), xs[j].resp)
  {
    if n > 0 {
      AnsweredInOrder(roots, states, xs, n - 1);
      assert StepAt(roots, states, xs, n - 1);
      assert Responses(xs[..n]) == Responses(xs[..n - 1]) + [xs[n - 1].resp];
    }
  }

  class Proxy {
    const store: Store
    const rpmb: Rpmb.Device
    const reqBuffer: array<Byte>

    ghost predicate Valid()
      reads this, store, store.fdState, store.kernel
    {
      store.Valid() && reqBuffer.Length == REQ_BUFFER_SIZE + 1 && reqBuffer != store.readRsp
    }

    ghost function Now(): State
      reads store, store.fdState, store.kernel, store.channel, rpmb
    {
      State(store.View(), store.Persistence(), store.channel.sent, rpmb.issued, store.kernel.failure,
            store.kernel.lastOpen)
    }

    constructor (kernel: Kernel, persist: bool, proinfo: bool)
      requires forall i :: !kernel.Unsynced(i)
      requires forall r :: !kernel.UnsyncedDir(r)
      ensures Valid() && store.channel.sent == [] && store.kernel == kernel && rpmb.issued == []
      ensures store.Persistence() == Persisted(kernel.disk, {}, false)
      ensures store.persistOn == persist && store.proinfoOn == proinfo
      ensures fresh(store) && fresh(store.channel) && fresh(rpmb)
    {
      var channel := new Channel();
      store := new Store(kernel, channel, persist, proinfo);
      rpmb := new Rpmb.Device();
      reqBuffer := new Byte[REQ_BUFFER_SIZE + 1];
    }

    /** The file cases of the switch in handle_req. */
    method DispatchFile(msg: Msg, reqLen: nat, ghost req: Bytes) returns (rc: int, ghost why: Cause)
      requires store.Valid() && reqLen < reqBuffer.Length && reqBuffer[reqLen] == 0 && IsFileCmd(msg.cmd)
      requires reqBuffer[..reqLen] == req
      modifies store, store.fdState, store.readRsp, store.kernel, store.channel
      ensures store.Valid() && store.RespondedOnce(msg, rc)
      ensures Served(msg.cmd, req, old(store.View()), store.View(), store.Reply(), why)
      ensures Blames(msg.cmd, req, old(store.View()), why, store.kernel.failure, store.kernel.lastOpen)
      ensures Accounted(msg.cmd, req, store.Reply(), old(store.View()),
                        old(store.Persistence()), store.Persistence())
    {
      var body := reqBuffer[..reqLen];
      if msg.cmd == FILE_DELETE {
        rc, why := store.FileDelete(msg, reqBuffer, reqLen);
      } else if msg.cmd == FILE_OPEN {
        rc, why := store.FileOpen(msg, reqBuffer, reqLen);
      } else if msg.cmd == FILE_CLOSE {
        rc := Close(msg, body);
        why := Ran(store.kernel.failure);
      } else if msg.cmd == FILE_WRITE {
        rc := Write(msg, body);
        why := Ran(store.kernel.failure);
      } else if msg.cmd == FILE_SET_SIZE {
        rc := store.FileSetSize(msg, body);
        why := Ran(store.kernel.failure);
      } else {
        rc := Look(msg, body);
        why := Ran(store.kernel.failure);
      }
    }

    /** The two file handlers that change nothing. */
    method Look(msg: Msg, req: Bytes) returns (rc: int)
      requires store.Valid() && (msg.cmd == FILE_READ || msg.cmd == FILE_GET_SIZE)
      modifies store, store.fdState, store.readRsp, store.kernel`failure, store.channel
      ensures store.Valid() && store.RespondedOnce(msg, rc)
      ensures Served(msg.cmd, req, old(store.View()), store.View(), store.Reply(), Ran(store.kernel.failure))
      ensures store.Untouched() && store.NoMoreAdrift()
    {
      if msg.cmd == FILE_READ {
        rc := store.FileRead(msg, req);
      } else {
        rc := store.FileGetSize(msg, req);
      }
      store.DiskMayFollow();
    }

    /** The one file handler that touches the disk. */
    method Close(msg: Msg, req: Bytes) returns (rc: int)
      requires store.Valid() && msg.cmd == FILE_CLOSE
      modifies store, store.fdState, store.kernel, store.channel
      ensures store.Valid() && store.RespondedOnce(msg, rc)
      ensures CloseStep(req, old(store.View()), store.View(), store.Reply(), Ran(store.kernel.failure))
      ensures Accounted(msg.cmd, req, store.Reply(), old(store.View()), old(store.Persistence()), store.Persistence())
    {
      ghost var synced;
      rc, synced := store.FileClose(msg, req);
    }

    /** The handler that marks the file it changes. */
    method Write(msg: Msg, req: Bytes) returns (rc: int)
      requires store.Valid() && msg.cmd == FILE_WRITE
      modifies store, store.fdState, store.kernel, store.channel
      ensures store.Valid() && store.RespondedOnce(msg, rc)
      ensures WriteStep(req, old(store.View()), store.View(), store.Reply(), Ran(store.kernel.failure))
      ensures Accounted(msg.cmd, req, store.Reply(), old(store.View()), old(store.Persistence()), store.Persistence())
    {
      ghost var k;
      rc, k := store.FileWrite(msg, req);
      assert |req| >= 16 && Word32(req, 8) in store.kernel.open ==>
          ThroughTo(req, old(store.View()), old(store.Persistence()), store.Persistence(),
                    store.kernel.open[Word32(req, 8)], k);
    }

    /** The switch of handle_req. */
    method Dispatch(msg: Msg, reqLen: nat, ghost req: Bytes) returns (rc: int, ghost why: Cause)
      requires store.Valid() && reqLen < reqBuffer.Length && reqBuffer[reqLen] == 0 && reqBuffer[..reqLen] == req
      modifies store, store.fdState, store.readRsp, store.kernel, store.channel, rpmb
      ensures store.Valid() && store.RespondedOnce(msg, rc)
      ensures Served(msg.cmd, req, old(store.View()), store.View(), store.Reply(), why)
      ensures Blames(msg.cmd, req, old(store.View()), why, store.kernel.failure, store.kernel.lastOpen)
      ensures Verdict(msg.cmd, req, old(rpmb.issued), rpmb.issued, store.Reply())
      ensures Accounted(msg.cmd, req, store.Reply(), old(store.View()),
                        old(store.Persistence()), store.Persistence())
    {
      var body := reqBuffer[..reqLen];
      why := Ran(None);
      if IsFileCmd(msg.cmd) {
        rc, why := DispatchFile(msg, reqLen, req);
      } else if msg.cmd == RPMB_SEND {
        rc := rpmb.Send(store.channel, msg, body);
      } else if msg.cmd == INIT_OK || msg.cmd == INIT_PROINFO_OK || msg.cmd == INIT_PERSIST_OK {
        rc := store.InitOk(msg, body);
      } else {
        rc := store.channel.Respond(msg.(result := ERR_UNIMPLEMENTED), None);
      }
    }

    /** The checkpoint that a request may ask for; it fails exactly if one of its system calls does. */
    method Commit(ghost m: Msg) returns (ok: bool)
      requires store.Valid() && CommitsFirst(m)
      modifies store, store.fdState, store.kernel
      ensures store.Valid() && store.View() == old(store.View()) && store.CallsSay(ok)
      ensures Checkpointed(m, ok, store.Roots(), old(store.View()), old(store.Persistence()), store.Persistence())
      ensures old(store.AllClean()) ==> ok
    {
      ok := store.SyncCheckpoint();
    }

    /**
     handle_req. Either the request is turned away, and then no file, directory or descriptor has
     changed, or it reaches its handler once, and then behind the commit it asked for. Unless it asks for
     what is not implemented, it is turned away exactly if a sync call of that commit failed. `mid` is what
     a crash would have left in between.
     */
    method HandleReq(msg: Msg, reqLen: nat, ghost req: Bytes)
      returns (rc: int, ghost served: bool, ghost mid: Persisted, ghost why: Cause)
      requires Valid() && reqLen < reqBuffer.Length && reqBuffer[reqLen] == 0 && reqBuffer[..reqLen] == req
      modifies store, store.fdState, store.readRsp, store.kernel, store.channel, rpmb
      ensures Valid() && store.RespondedOnce(msg, rc)
      ensures Treated(msg, req, served, old(store.View()), store.View(), store.Reply(), why,
                      old(rpmb.issued), rpmb.issued)
      ensures served ==> Blames(msg.cmd, req, old(store.View()), why, store.kernel.failure, store.kernel.lastOpen)
      ensures Guarded(msg, req, served, store.Reply(), store.Roots(), old(store.View()),
                      old(store.Persistence()), mid, store.Persistence())
      ensures !Unsupported(msg) && (!CommitsFirst(msg) || old(store.AllClean())) ==> served
      ensures !served ==> Unsupported(msg) || store.CallsSay(false)
    {
      served, mid, why := false, store.Persistence(), Ran(None);
      if Has(msg.flags, FLAG_POST_COMMIT) && msg.cmd != RPMB_SEND {
        rc := store.channel.Respond(msg.(result := ERR_UNIMPLEMENTED), None);
        return;
      }
      if Has(msg.flags, FLAG_PRE_COMMIT) {
        var ok := Commit(msg);
        mid := store.Persistence();
        if !ok {
          rc := store.channel.Respond(msg.(result := ERR_GENERIC), None);
          return;
        }
      }
      served := true;
      rc, why := Dispatch(msg, reqLen, req);
    }

    /** One turn of proxy_loop: the message is received, terminated and handled, or found unreadable. */
    method Turn(incoming: Incoming) returns (rc: int, ghost served: bool, ghost mid: Persisted, ghost why: Cause)
      requires Valid()
      modifies reqBuffer, store, store.fdState, store.readRsp, store.kernel, store.channel, rpmb
      ensures Valid() && rc <= 0
      ensures Readable(incoming) ==>
                && rc == (if store.channel.down then -1 else 0) && store.channel.sent != []
                && Step(Exchange(incoming.raw, store.Reply(), served, mid, why), store.Roots(), old(Now()), Now())
      ensures !Readable(incoming) ==> rc < 0 && Now() == old(Now())
    {
      var msg;
      served, mid, why := false, store.Persistence(), Ran(None);
      rc, msg := store.channel.GetMsg(incoming, reqBuffer);
      if rc < 0 {
        return;
      }
      ghost var len := rc;
      reqBuffer[rc] := 0;
      assert reqBuffer[..len] == incoming.raw[HEADER_SIZE..];
      rc, served, mid, why := Serve(msg, rc, incoming.raw[HEADER_SIZE..]);
    }

    /** handle_req, in front of which the kernel may write back on its own. */
    method Serve(msg: Msg, reqLen: nat, ghost req: Bytes)
      returns (rc: int, ghost served: bool, ghost mid: Persisted, ghost why: Cause)
      requires Valid() && reqLen < reqBuffer.Length && reqBuffer[reqLen] == 0 && reqBuffer[..reqLen] == req
      modifies store, store.fdState, store.readRsp, store.kernel, store.channel, rpmb
      ensures Valid() && store.RespondedOnce(msg, rc)
      ensures Answered(msg, req, served, store.Reply(), why, store.Roots(), old(Now()), mid, Now())
    {
      ghost var was, before := store.View(), store.Persistence();
      Writeback();
      ghost var first := store.Persistence();
      rc, served, mid, why := HandleReq(msg, reqLen, req);
      WritebackFirst(msg, served, store.Roots(), was, before, first, mid);
    }

    method Writeback()
      requires Valid()
      modifies store.kernel`disk
      ensures Valid() && store.DiskFollows() && store.NoMoreAdrift()
    {
      store.kernel.Writeback();
      store.DiskMayFollow();
    }

    /**
     proxy_loop over the messages that arrive before the channel fails. Every message is answered up to
     the first that cannot be read or whose response cannot be written, and every exchange is a step of
     the file service behind the commit it asked for.
     */
    method Run(inbox: seq<Incoming>) returns (rc: int, ghost states: seq<State>, ghost xs: seq<Exchange>)
      requires Valid()
      modifies reqBuffer, store, store.fdState, store.readRsp, store.kernel, store.channel, rpmb
      ensures Valid() && rc < 0
      ensures Trace(store.Roots(), states, xs) && states[0] == old(Now()) && states[|xs|] == Now()
      ensures |xs| <= |inbox| && forall j :: 0 <= j < |xs| ==> inbox[j] == Delivered(xs[j].raw)
      ensures |xs| == |inbox| || !Readable(inbox[|xs|]) || (xs != [] && store.channel.down)
    {
      states, xs := [Now()], [];
      var next := 0;
      while true
        invariant Valid() && 0 <= next == |xs| <= |inbox|
        invariant Trace(store.Roots(), states, xs) && states[0] == old(Now()) && states[|xs|] == Now()
        invariant forall j :: 0 <= j < |xs| ==> inbox[j] == Delivered(xs[j].raw)
        decreases |inbox| - next
      {
        var incoming := if next < |inbox| then inbox[next] else ReadError;
        ghost var served, mid, why;
        rc, served, mid, why := Turn(incoming);
        if Readable(incoming) {
          ghost var x := Exchange(incoming.raw, store.Reply(), served, mid, why);
          TraceGrows(store.Roots(), states, xs, x, Now());
          states, xs := states + [Now()], xs + [x];
        }
        if rc != 0 {
          return;
        }
        next := next + 1;
      }
    }
  }
}
