/**
 The KeyMint service's connection to its trusted application: a context, a
 session and two blocks of shared memory, all of them held or none.
 */
module KeyMintConnection {
  import opened Octets
  import opened Wrappers
  import opened SharedRefs
  import opened TeeClient
  import opened TeeOperation

  const BUF_SIZE: nat := 1024 * 140
  const EINVAL: int := 22
  const KM_INVALID_INPUT_LENGTH: int := -21

  /** The service's own code for a request too large to be sent. */
  const BEANPOD_INVALID_INPUT_LENGTH: int := -10000

  /** TEEC_PARAM_TYPES(VALUE_INOUT, PARTIAL_INPUT, PARTIAL_OUTPUT, NONE). */
  const TYPES: nat := 0x0ED3

  const CALL_KINDS: seq<nat> := [VALUE_INOUT, PARTIAL_INPUT, PARTIAL_OUTPUT, NONE]

  /** `rc` is the 32-bit word `code` read as a signed integer. */
  predicate Reads(rc: int, code: int) {
    -0x8000_0000 <= rc < 0x8000_0000 && (rc - code) % WORD32 == 0
  }

  function Signed(code: nat): (rc: int)
    requires code < WORD32
    ensures Reads(rc, code) && (rc < 0 <==> code >= 0x8000_0000) && (rc == 0 <==> code == 0)
  {
    if code < 0x8000_0000 then code else code - WORD32
  }

  function CallOp(inputSM: SharedMemory, outputSM: SharedMemory): Operation {
    Operation(TYPES, [BLANK_PARAM,
                      BLANK_PARAM.(parent := inputSM, size := inputSM.size),
                      BLANK_PARAM.(parent := outputSM, size := outputSM.size),
                      BLANK_PARAM])
  }

  /** Both blocks are allocated, so nothing is shadowed and there is nothing to get wrong about ranges. */
  lemma CallOpOk(mem: Memory, inputSM: SharedMemory, outputSM: SharedMemory)
    requires inputSM.shadow == NULL && outputSM.shadow == NULL
    ensures Kinds(TYPES) == CALL_KINDS
    ensures OpOk(mem, Kinds(TYPES), CallOp(inputSM, outputSM).params)
  {
  }

  /** The books with one more block, mapped through `fd`. */
  ghost function Added(books: Books, shm: SharedMemory, fd: int): Books {
    Books(books.blocks + {shm.buffer}, books.mapped[shm.buffer := shm.allocedSize], books.live[shm.id := fd])
  }

  lemma AddedThenGone(books: Books, shm: SharedMemory, fd: int)
    requires shm.buffer !in books.blocks && shm.buffer !in books.mapped && shm.id !in books.live
    ensures var a := Added(books, shm, fd);
            && a.blocks - {shm.buffer} == books.blocks && a.mapped - {shm.buffer} == books.mapped
            && a.live - {shm.id} == books.live
  {
  }

  /** The secure side was told of the two blocks, input and output, by their ids and with their sizes. */
  ghost predicate TellsOfBoth(v: Visit, inputSM: SharedMemory, outputSM: SharedMemory) {
    && |v.params| == |v.outs| == PARAMS
    && v.params[0].attr == VALUE_INOUT && v.params[0].a == 0 && v.params[3].attr == NONE
    && v.params[1].attr == ATTR_INPUT && v.params[1].shmId == inputSM.id
    && v.params[1].offs == 0 && v.params[1].size == inputSM.size
    && v.params[2].attr == ATTR_OUTPUT && v.params[2].shmId == outputSM.id
    && v.params[2].offs == 0 && v.params[2].size == outputSM.size
  }

  /** Preparation of a call cannot stop, and leaves all memory as the secure side is to see it. */
  lemma CallShape(to: Target, inputSM: SharedMemory, outputSM: SharedMemory, before: Memory, tx: Transaction, res: Code,
                  was: seq<Visit>, now: seq<Visit>)
    requires inputSM.shadow == NULL && outputSM.shadow == NULL
    requires inputSM.flags == MEM_INPUT && outputSM.flags == MEM_OUTPUT
    requires StopsAt(CALL_KINDS, CallOp(inputSM, outputSM).params, |tx.refs|, res)
    requires Refers(CALL_KINDS, CallOp(inputSM, outputSM).params, before, tx.refs)
    requires |tx.refs| == PARAMS ==>
               Visited(to, CALL_KINDS, CallOp(inputSM, outputSM).params, before, tx, was, now)
    ensures |tx.refs| == PARAMS && |now| == |was| + 1 && now[..|was|] == was
    ensures Last(now).to == to && TellsOfBoth(Last(now), inputSM, outputSM)
    ensures forall k :: 0 <= k < PARAMS ==> !tx.refs[k].Shadowed()
    ensures forall b :: b in before ==> b in Last(now).seen && Last(now).seen[b] == before[b]
  {
    var kinds, params := CALL_KINDS, CallOp(inputSM, outputSM).params;
    var v := Last(now);
    assert TellsOf(kinds[0], params[0], v.params[0], tx.refs[0], v.ids);
    assert TellsOf(kinds[3], params[3], v.params[3], tx.refs[3], v.ids);
    assert TellsOf(kinds[1], params[1], v.params[1], tx.refs[1], v.ids);
    assert TellsOf(kinds[2], params[2], v.params[2], tx.refs[2], v.ids);
    forall k | 0 <= k < PARAMS
      ensures !tx.refs[k].Shadowed()
    {
      assert tx.refs[k] == RefOf(kinds[k], params[k], tx.refs[k].shared);
    }
    forall b | b in before
      ensures b in v.seen && v.seen[b] == before[b]
    {
      StageElsewhere(tx.base, tx.refs, b);
    }
  }

  /** The result a caller of the service gets for a visit: the driver's, else the library's, else the application's. */
  ghost predicate Answer(v: Visit, rc: int) {
    && |v.outs| == PARAMS
    && (v.result.Lost? ==> Reads(rc, if v.result.errno == ENOMEM then ERROR_OUT_OF_MEMORY else ERROR_GENERIC))
    && (v.result.Back? && v.result.code != SUCCESS ==> Reads(rc, v.result.code))
    && (v.result == Back(SUCCESS) ==> Reads(rc, v.outs[0].a))
  }

  /** The visit calls for a reset: it was lost, or the library's or the application's code is negative. */
  ghost predicate Broken(v: Visit)
    requires |v.outs| == PARAMS
  {
    || v.result.Lost? || v.result.code >= 0x8000_0000
    || (v.result.code == SUCCESS && v.outs[0].a % WORD32 >= 0x8000_0000)
  }

  lemma BrokenIsNegative(v: Visit, rc: int)
    requires Answer(v, rc)
    ensures rc < 0 <==> Broken(v)
    ensures rc == 0 <==> v.result == Back(SUCCESS) && v.outs[0].a % WORD32 == 0
  {
    if v.result == Back(SUCCESS) {
      var a := v.outs[0].a;
      assert (rc - a % WORD32) % WORD32 == 0 by {
        assert a == a / WORD32 * WORD32 + a % WORD32;
        assert rc - a % WORD32 == (rc - a) + a / WORD32 * WORD32;
      }
    }
  }

  /** The size the secure side returned for the output, if the block holds that much. */
  function Response(block: Bytes, size: nat): (r: Option<Bytes>)
    ensures r.Some? <==> size <= |block|
    ensures r.Some? ==> |r.value| == size && r.value <= block
  {
    if size <= |block| then Some(block[..size]) else None
  }

  /** The invocation itself: the result code, or failing that the value the application put in the first parameter. */
  method CallTa(c: Common, session: Session, cmd: nat, inputSM: SharedMemory, outputSM: SharedMemory)
    returns (rc: int, size: nat)
    requires c.Valid() && session in c.sessions && inputSM.shadow == NULL && outputSM.shadow == NULL
    requires inputSM.flags == MEM_INPUT && outputSM.flags == MEM_OUTPUT
    modifies c.driver`mem, c.driver`mapped, c.driver`idOf, c.driver`refused, c.driver`live, c.driver`openFds,
             c.driver`trail, c.driver`visits
    ensures c.Valid() && BooksOf(c.driver) == old(BooksOf(c.driver)) && c.driver.trail == old(c.driver.trail)
    ensures c.driver.openFds == old(c.driver.openFds)
    ensures KeepsIds(old(c.driver.mem), old(c.driver.idOf), c.driver.idOf)
    ensures |c.driver.visits| == |old(c.driver.visits)| + 1
    ensures c.driver.visits[..|old(c.driver.visits)|] == old(c.driver.visits)
    ensures var v := Last(c.driver.visits);
            && v.to == Target(session.ctx.fd, session.id, cmd)
            && TellsOfBoth(v, inputSM, outputSM) && v.ids == c.driver.idOf && Answer(v, rc)
            && (forall b :: b in old(c.driver.mem) ==> b in v.seen && v.seen[b] == old(c.driver.mem)[b])
            && (rc == 0 ==> size == v.outs[2].size)
            && (rc == 0 ==> forall b :: b in old(c.driver.mem) ==> b in v.left && c.driver.mem[b] == v.left[b])
  {
    var op := CallOp(inputSM, outputSM);
    CallOpOk(c.driver.mem, inputSM, outputSM);
    var res, o, called;
    ghost var tx;
    res, o, called, tx := InvokeCommand(c, session, cmd, Some(op));
    CallShape(Target(session.ctx.fd, session.id, cmd), inputSM, outputSM, old(c.driver.mem), tx, res,
              old(c.driver.visits), c.driver.visits);
    assert !Overlooked(Kinds(TYPES), FirstUnreached(false, |tx.refs|));
    size := 0;
    if called {
      DeliverNothing(tx.mid, tx.refs, Sizes(tx.outs));
      TakenByCall(inputSM, outputSM, old(c.driver.mem), tx, o.value.params);
    }
    if Signed(res) != 0 {
      return Signed(res), size;
    }
    if o.value.params[0].a != 0 {
      return Signed(o.value.params[0].a), size;
    }
    return 0, o.value.params[2].size;
  }

  /** What the caller finds in the parameters: the application's value and the size of its response. */
  lemma TakenByCall(inputSM: SharedMemory, outputSM: SharedMemory, before: Memory, tx: Transaction, params': seq<Param>)
    requires Refers(CALL_KINDS, CallOp(inputSM, outputSM).params, before, tx.refs) && |tx.refs| == |params'| == PARAMS
    requires AllTaken(CALL_KINDS, CallOp(inputSM, outputSM).params, tx.refs, tx.outs, params')
    ensures params'[0].a == tx.outs[0].a % WORD32 && params'[2].size == tx.outs[2].size
  {
    var kinds, params := CALL_KINDS, CallOp(inputSM, outputSM).params;
    assert TakenOver(kinds[0], params[0], tx.refs[0], tx.outs[0], params'[0]);
    assert TakenOver(kinds[2], params[2], tx.refs[2], tx.outs[2], params'[2]);
    assert tx.refs[2] == RefOf(kinds[2], params[2], tx.refs[2].shared);
  }

  /** What the library and the driver hold while there is no connection. */
  datatype Idle = Idle(books: Books, contexts: set<Context>, sessions: set<Session>, fds: set<int>,
                       open: set<(int, nat)>, faults: nat)

  /**
   The visit carries command `cmd` with request `req`: it was told of a block that held it, by the block's id and
   with its length.
   */
  ghost predicate Carries(v: Visit, cmd: nat, req: Bytes) {
    && v.to.cmd == cmd
    && |v.params| == PARAMS && v.params[1].attr == ATTR_INPUT && v.params[1].offs == 0 && v.params[1].size == |req|
    && exists b :: b in v.ids && v.ids[b] == v.params[1].shmId && b in v.seen && req <= v.seen[b]
  }

  /** `reply` is what the secure side left in the output block it was told of, up to the size it returned. */
  ghost predicate Replies(v: Visit, reply: Option<Bytes>) {
    && |v.params| == |v.outs| == PARAMS && v.params[2].attr == ATTR_OUTPUT && v.params[2].offs == 0
    && exists b :: b in v.ids && v.ids[b] == v.params[2].shmId && b in v.left &&
                   reply == Response(v.left[b], v.outs[2].size)
  }

  /** One visit more over device `fd`, which carries `req` and decides what is reported. */
  ghost predicate OneVisit(was: seq<Visit>, now: seq<Visit>, fd: int, cmd: nat, req: Bytes,
                           rc: int, reply: Option<Bytes>) {
    && |now| == |was| + 1 && now[..|was|] == was
    && var v := Last(now);
    && v.to.fd == fd && Carries(v, cmd, req) && Answer(v, rc)
    && if rc == 0 then Replies(v, reply) else reply == None
  }

  class Connection {
    const c: Common
    const context: Context
    const session: Session
    var inputSM: SharedMemory
    var outputSM: SharedMemory
    var handle: int

    ghost const idle: Idle

    ghost function WithInput(): Books
      reads this`inputSM, context
    {
      Added(idle.books, inputSM, context.fd)
    }

    ghost function WithBoth(): Books
      reads this`inputSM, this`outputSM, context
    {
      Added(WithInput(), outputSM, context.fd)
    }

    /** A block of the connection: new to the books, and mapped through its context. */
    ghost predicate Own(shm: SharedMemory, flags: nat, books: Books)
      reads context, c.driver`idOf
    {
      && shm.shadow == NULL && shm.buffer > 0 && shm.id >= 0 && shm.registeredFd == context.fd
      && shm.allocedSize == BUF_SIZE && shm.flags == flags
      && shm.buffer in c.driver.idOf && c.driver.idOf[shm.buffer] == shm.id
      && shm.buffer !in books.blocks && shm.buffer !in books.mapped && shm.id !in books.live
    }

    /** The first `n` of context and session are in the tables and open, and nothing else is. */
    ghost predicate Rungs(n: nat)
      reads c, c.driver`openFds, c.driver`sessions, c.contexts, c.sessions, context, session, idle.sessions
    {
      && c.Tables() && context !in idle.contexts && session !in idle.sessions
      && (forall s :: s in idle.sessions ==> s.ctx != context)
      && (n >= 1 ==> context.fd > 0 && context.fd !in idle.fds)
      && c.contexts == idle.contexts + (if n >= 1 then {context} else {})
      && c.driver.openFds == idle.fds + (if n >= 1 then {context.fd} else {})
      && (n >= 2 ==> session.ctx == context && (context.fd, session.id) !in idle.open)
      && c.sessions == idle.sessions + (if n >= 2 then {session} else {})
      && c.driver.sessions == idle.open + (if n >= 2 then {(context.fd, session.id)} else {})
    }

    /** Input memory is on the books from `n == 3` on, output memory from `n == 4` on, and nothing else is new there. */
    ghost predicate Memory(n: nat)
      reads this`inputSM, this`outputSM, c.driver, context
    {
      && c.driver.Valid() && c.driver.trail.faults == idle.faults
      && (n >= 3 ==> Own(inputSM, MEM_INPUT, idle.books))
      && (n >= 4 ==> Own(outputSM, MEM_OUTPUT, WithInput()))
      && BooksOf(c.driver) == if n < 3 then idle.books else if n == 3 then WithInput() else WithBoth()
    }

    /** The first `n` of context, session, input memory and output memory are held, and nothing else is. */
    ghost predicate Stage(n: nat)
      reads this`inputSM, this`outputSM, c, c.driver, c.contexts, c.sessions, context, session, idle.sessions
    {
      Rungs(if n < 2 then n else 2) && Memory(n)
    }

    /** The handle tells exactly what is held: everything or nothing. */
    ghost predicate Valid()
      reads this, c, c.driver, c.contexts, c.sessions, context, session, idle.sessions
    {
      || (handle == -1 && Stage(0))
      || (handle > 0 && handle == context.fd && Stage(4))
    }

    constructor (c: Common)
      requires c.Valid()
      ensures Valid() && this.c == c && handle == -1 && fresh(context) && fresh(session)
    {
      this.c := c;
      context := new Context();
      session := new Session();
      inputSM, outputSM, handle := ZEROED, ZEROED, -1;
      idle := Idle(BooksOf(c.driver), c.contexts, c.sessions, c.driver.openFds, c.driver.sessions,
                   c.driver.trail.faults);
    }

    /** What was closed before stays on the trail. */
    twostate predicate Onward()
      reads c.driver
    {
      old(c.driver.trail).closed <= c.driver.trail.closed && old(c.driver.trail).ended <= c.driver.trail.ended
    }

    // ----- up and down the ladder, one rung at a time

    /** The driver has refused something since; it refuses nothing twice over. */
    twostate predicate Refusing(failed: bool)
      reads c.driver
    {
      old(c.driver.refused) <= c.driver.refused && (failed ==> old(c.driver.refused) < c.driver.refused)
    }

    method OpenContext() returns (result: Code)
      requires Stage(0)
      modifies c`contexts, c.driver`openFds, c.driver`refused, context, session
      ensures if result == SUCCESS then Stage(1) else Stage(0)
      ensures session.ctx == null && session.id == 0 && (result != SUCCESS ==> context.fd == 0)
      ensures Refusing(result != SUCCESS) && (result == SUCCESS || result == ERROR_ITEM_NOT_FOUND)
    {
      context.fd := 0;
      session.ctx, session.id := null, 0;
      result := c.InitializeContext(context);
    }

    method OpenSession() returns (result: Code)
      requires Stage(1)
      modifies c`sessions, session, c.driver`sessions, c.driver`opening, c.driver`trail, c.driver`refused
      ensures if result == SUCCESS then Stage(2) else Stage(1)
      ensures context.fd == old(context.fd) && c.driver.trail == old(c.driver.trail) && Refusing(result != SUCCESS)
      ensures result == c.driver.opening.Res()
    {
      result := c.OpenSession(context, session);
    }

    /** One block of the connection's size: on the books and new there, or nothing has changed. */
    method Allocate(was: SharedMemory, flags: nat) returns (ok: bool, shm: SharedMemory)
      requires c.driver.Valid() && context.fd > 0 && context.fd in c.driver.openFds
      requires 0 < flags <= MEM_INPUT + MEM_OUTPUT
      modifies c.driver`mem, c.driver`mapped, c.driver`idOf, c.driver`refused, c.driver`live, c.driver`trail
      ensures c.driver.Valid() && c.driver.trail == old(c.driver.trail) && Refusing(!ok)
      ensures ok ==>
                && Own(shm, flags, old(BooksOf(c.driver)))
                && BooksOf(c.driver) == Added(old(BooksOf(c.driver)), shm, context.fd)
                && c.driver.idOf == old(c.driver.idOf)[shm.buffer := shm.id]
      ensures !ok ==> BooksOf(c.driver) == old(BooksOf(c.driver)) && c.driver.idOf == old(c.driver.idOf)
    {
      var result;
      result, shm := c.AllocateSharedMemory(context, was.(size := BUF_SIZE, flags := flags));
      ok := result == SUCCESS && shm.buffer != NULL;
      if ok {
        assert c.driver.mem.Keys == old(c.driver.mem).Keys + {shm.buffer};
      }
    }

    method MapInput() returns (ok: bool)
      requires Memory(2) && context.fd > 0 && context.fd in c.driver.openFds
      modifies this`inputSM, c.driver`mem, c.driver`mapped, c.driver`idOf, c.driver`refused, c.driver`live,
               c.driver`trail
      ensures if ok then Memory(3) else Memory(2)
      ensures c.driver.trail == old(c.driver.trail) && Refusing(!ok)
    {
      ok, inputSM := Allocate(inputSM, MEM_INPUT);
    }

    method AllocateInput() returns (ok: bool)
      requires Stage(2)
      modifies this`inputSM, c.driver`mem, c.driver`mapped, c.driver`idOf, c.driver`refused, c.driver`live,
               c.driver`trail
      ensures if ok then Stage(3) else Stage(2)
      ensures c.driver.trail == old(c.driver.trail) && Refusing(!ok)
    {
      ok := MapInput();
    }

    method MapOutput() returns (ok: bool)
      requires Memory(3) && context.fd > 0 && context.fd in c.driver.openFds
      modifies this`outputSM, c.driver`mem, c.driver`mapped, c.driver`idOf, c.driver`refused, c.driver`live,
               c.driver`trail
      ensures if ok then Memory(4) else Memory(3)
      ensures c.driver.trail == old(c.driver.trail) && Refusing(!ok)
    {
      assert inputSM.buffer in BooksOf(c.driver).blocks;
      ok, outputSM := Allocate(outputSM, MEM_OUTPUT);
    }

    method AllocateOutput() returns (ok: bool)
      requires Stage(3)
      modifies this`outputSM, c.driver`mem, c.driver`mapped, c.driver`idOf, c.driver`refused, c.driver`live,
               c.driver`trail
      ensures if ok then Stage(4) else Stage(3)
      ensures c.driver.trail == old(c.driver.trail) && Refusing(!ok)
    {
      ok := MapOutput();
    }

    method ReleaseOutput()
      requires Stage(4)
      modifies this`outputSM, c.driver`mem, c.driver`mapped, c.driver`live, c.driver`openFds, c.driver`trail
      ensures Stage(3) && c.driver.trail == old(c.driver.trail)
    {
      AddedThenGone(WithInput(), outputSM, context.fd);
      assert c.Live(outputSM);
      outputSM := c.ReleaseSharedMemory(outputSM);
    }

    method ReleaseInput()
      requires Stage(3)
      modifies this`inputSM, c.driver`mem, c.driver`mapped, c.driver`live, c.driver`openFds, c.driver`trail
      ensures Stage(2) && c.driver.trail == old(c.driver.trail)
    {
      AddedThenGone(idle.books, inputSM, context.fd);
      assert c.Live(inputSM);
      inputSM := c.ReleaseSharedMemory(inputSM);
    }

    method CloseSession()
      requires Stage(2)
      modifies c`sessions, c.driver`sessions, c.driver`trail
      ensures Stage(1) && c.driver.trail == old(c.driver.trail).Ending(context.fd, session.id)
    {
      c.CloseSession(session);
    }

    method FinalizeContext()
      requires Stage(1)
      modifies c`contexts, c.driver`openFds, c.driver`trail
      ensures Stage(0) && c.driver.trail == old(c.driver.trail).Closing(context.fd)
    {
      c.FinalizeContext(context);
    }

    // ----- the interface

    /** The lower half of bp_keymaster_connect. */
    method AcquireTables() returns (result: Code)
      requires Stage(0)
      modifies c`contexts, c`sessions, c.driver`openFds, c.driver`sessions, c.driver`opening, c.driver`trail,
               c.driver`refused, context, session
      ensures if result == SUCCESS then Stage(2) else Stage(0)
      ensures Onward() && Refusing(result != SUCCESS)
      ensures result == SUCCESS || result == ERROR_ITEM_NOT_FOUND || result == c.driver.opening.Res()
    {
      result := OpenContext();
      if result != SUCCESS {
        return;
      }
      result := OpenSession();
      if result != SUCCESS {
        FinalizeContext();
      }
    }

    /** The upper half. */
    method AcquireMemory() returns (ok: bool)
      requires Stage(2)
      modifies this`inputSM, this`outputSM, c.driver`mem, c.driver`mapped, c.driver`idOf, c.driver`refused,
               c.driver`live, c.driver`openFds, c.driver`trail
      ensures if ok then Stage(4) else Stage(2)
      ensures c.driver.trail == old(c.driver.trail) && Refusing(!ok)
    {
      ok := AllocateInput();
      if ok {
        ok := AllocateOutput();
        if !ok {
          ReleaseInput();
        }
      }
    }

    method ReleaseMemory()
      requires Stage(4)
      modifies this`inputSM, this`outputSM, c.driver`mem, c.driver`mapped, c.driver`live, c.driver`openFds,
               c.driver`trail
      ensures Stage(2) && c.driver.trail == old(c.driver.trail)
    {
      ReleaseOutput();
      ReleaseInput();
    }

    method ReleaseTables()
      requires Stage(2)
      modifies c`contexts, c`sessions, c.driver`openFds, c.driver`sessions, c.driver`trail
      ensures Stage(0)
      ensures c.driver.trail == old(c.driver.trail).Ending(context.fd, session.id).Closing(context.fd)
    {
      CloseSession();
      FinalizeContext();
    }

    /** bp_keymaster_connect: everything is acquired, or the driver refused something and the rest is given back. */
    method Connect() returns (rc: int)
      requires Valid()
      modifies this`inputSM, this`outputSM, this`handle, c`contexts, c`sessions, context, session,
               c.driver`mem, c.driver`mapped, c.driver`idOf, c.driver`refused, c.driver`live, c.driver`openFds,
               c.driver`sessions, c.driver`opening, c.driver`trail
      ensures Valid() && Onward() && Refusing(rc != 0)
      ensures rc == 0 <==> handle > 0
      ensures rc in {0, -1} || Reads(rc, ERROR_ITEM_NOT_FOUND) || Reads(rc, c.driver.opening.Res())
      ensures old(handle) > 0 ==> rc == 0 && handle == old(handle) && c.driver.trail == old(c.driver.trail)
    {
      if handle <= 0 {
        var result := AcquireTables();
        if result != SUCCESS {
          return Signed(result);
        }
        var ok := AcquireMemory();
        if !ok {
          ReleaseTables();
          return -1;
        }
        handle := context.fd;
      }
      return 0;
    }

    /** bp_keymaster_disconnect: the session and the device of the connection are closed, each once. */
    method Disconnect()
      requires Valid()
      modifies this`inputSM, this`outputSM, this`handle, c`contexts, c`sessions, context, session,
               c.driver`mem, c.driver`mapped, c.driver`live, c.driver`openFds,
               c.driver`sessions, c.driver`trail
      ensures Valid() && handle == -1 && (old(handle) > 0 ==> Cleared())
      ensures c.driver.trail == if old(handle) > 0
                                then old(c.driver.trail).Ending(old(handle), old(session.id)).Closing(old(handle))
                                else old(c.driver.trail)
    {
      if handle > 0 {
        TearDown();
      }
      handle := -1;
    }

    method TearDown()
      requires Stage(4)
      modifies this`inputSM, this`outputSM, c`contexts, c`sessions, context, session,
               c.driver`mem, c.driver`mapped, c.driver`live, c.driver`openFds,
               c.driver`sessions, c.driver`trail
      ensures Stage(0) && Cleared()
      ensures c.driver.trail ==
              old(c.driver.trail).Ending(old(context.fd), old(session.id)).Closing(old(context.fd))
    {
      ReleaseMemory();
      ReleaseTables();
      ClearStructures();
    }

    ghost predicate Cleared()
      reads context, session
    {
      context.fd == 0 && session.ctx == null && session.id == 0
    }

    method ClearStructures()
      requires Stage(0)
      modifies context, session
      ensures Stage(0) && Cleared()
    {
      context.fd := 0;
      session.ctx, session.id := null, 0;
    }

    /** The structures are set up for a call: the input's size is rewritten, the length it was mapped with is not. */
    method FillInput(in_: Bytes)
      requires Memory(4) && |in_| <= BUF_SIZE
      modifies this`inputSM, this`outputSM, c.driver`mem
      ensures Memory(4)
      ensures inputSM == old(inputSM).(size := |in_|) && outputSM == old(outputSM).(size := BUF_SIZE)
      ensures inputSM.buffer in c.driver.mem && in_ <= c.driver.mem[inputSM.buffer]
      ensures outputSM.buffer in c.driver.mem && c.driver.mem[outputSM.buffer] == seq(BUF_SIZE, _ => 0)
    {
      inputSM := inputSM.(size := |in_|);
      outputSM := outputSM.(size := BUF_SIZE);
      var block := c.driver.mem[inputSM.buffer];
      assert |block| == BUF_SIZE;
      c.driver.mem := c.driver.mem[inputSM.buffer := in_ + block[|in_|..]];
      c.driver.mem := c.driver.mem[outputSM.buffer := seq(BUF_SIZE, _ => 0)];
      assert c.driver.mem.Keys == old(c.driver.mem).Keys;
    }

    /**
     bp_keymaster_call: a request that fits an open connection is one visit that carries it, and on success the reply is
     what the application left in the output block, as far as the block goes.
     */
    method Call(cmd: nat, in_: Bytes, outSize: nat) returns (rc: int, reply: Option<Bytes>)
      requires Valid()
      modifies this`inputSM, this`outputSM, c.driver
      ensures Valid() && handle == old(handle) && c.driver.trail == old(c.driver.trail)
      ensures handle < 0 ==> rc == -EINVAL && reply == None
      ensures handle > 0 && (|in_| > BUF_SIZE || outSize > BUF_SIZE) ==> rc == KM_INVALID_INPUT_LENGTH && reply == None
      ensures if handle > 0 && |in_| <= BUF_SIZE && outSize <= BUF_SIZE
              then OneVisit(old(c.driver.visits), c.driver.visits, handle, cmd, in_, rc, reply)
              else c.driver.visits == old(c.driver.visits)
    {
      reply := None;
      if handle < 0 {
        return -EINVAL, reply;
      }
      if |in_| > BUF_SIZE || outSize > BUF_SIZE {
        return KM_INVALID_INPUT_LENGTH, reply;
      }
      FillInput(in_);
      rc, reply := Invoke(cmd, in_);
    }

    method Invoke(cmd: nat, ghost req: Bytes) returns (rc: int, reply: Option<Bytes>)
      requires Stage(4) && inputSM.size == |req|
      requires inputSM.buffer in c.driver.mem && req <= c.driver.mem[inputSM.buffer]
      modifies c.driver`mem, c.driver`mapped, c.driver`idOf, c.driver`refused, c.driver`live, c.driver`openFds,
               c.driver`trail, c.driver`visits
      ensures Stage(4) && c.driver.trail == old(c.driver.trail)
      ensures OneVisit(old(c.driver.visits), c.driver.visits, context.fd, cmd, req, rc, reply)
    {
      var size;
      rc, size := CallTa(c, session, cmd, inputSM, outputSM);
      reply := None;
      if rc == 0 {
        reply := Response(c.driver.mem[outputSM.buffer], size);
      }
    }

    /**
     bp_keymaster_send up to the response's bytes. A request that fits is carried to the secure world exactly once if
     there is a connection. A visit that was lost or answered with a negative code closes the session and the
     device it went over, each once, and never leaves two sets of resources behind; any other leaves the
     connection alone.
     */
    method Send(cmd: nat, req: Bytes) returns (rc: int, reply: Option<Bytes>)
      requires Valid()
      modifies this`inputSM, this`outputSM, this`handle, c`contexts, c`sessions, c.driver, context, session
      ensures Valid()
      ensures |req| > BUF_SIZE ==> rc == BEANPOD_INVALID_INPUT_LENGTH && reply == None
      ensures |req| <= BUF_SIZE && old(handle) < 0 ==> rc == -EINVAL && reply == None
      ensures if old(handle) > 0 && |req| <= BUF_SIZE
              then OneVisit(old(c.driver.visits), c.driver.visits, old(handle), cmd, req, rc, reply)
              else c.driver.visits == old(c.driver.visits)
      ensures |req| > BUF_SIZE ==> handle == old(handle) && c.driver.trail == old(c.driver.trail)
      ensures |req| <= BUF_SIZE && old(handle) > 0 ==>
                && |c.driver.visits| > 0 && |Last(c.driver.visits).outs| == PARAMS
                && if Broken(Last(c.driver.visits))
                   then && old(c.driver.trail).closed + [old(handle)] <= c.driver.trail.closed
                        && old(c.driver.trail).ended + [(old(handle), old(session.id))] <= c.driver.trail.ended
                   else handle == old(handle) && c.driver.trail == old(c.driver.trail)
    {
      reply := None;
      if |req| > BUF_SIZE {
        return BEANPOD_INVALID_INPUT_LENGTH, reply;
      }
      rc, reply := Call(cmd, req, BUF_SIZE);
      if old(handle) > 0 {
        BrokenIsNegative(Last(c.driver.visits), rc);
      }
      if rc < 0 {
        Reset();
      }
    }

    /** What a transport error entails: session and device are closed once each, and another connection is tried. */
    method Reset()
      requires Valid()
      modifies this`inputSM, this`outputSM, this`handle, c`contexts, c`sessions, context, session,
               c.driver`mem, c.driver`mapped, c.driver`idOf, c.driver`refused, c.driver`live, c.driver`openFds,
               c.driver`sessions, c.driver`opening, c.driver`trail
      ensures Valid()
      ensures old(handle) > 0 ==>
                && old(c.driver.trail).closed + [old(handle)] <= c.driver.trail.closed
                && old(c.driver.trail).ended + [(old(handle), old(session.id))] <= c.driver.trail.ended
      ensures handle <= 0 ==> c.driver.refused > old(c.driver.refused)
    {
      Disconnect();
      var r := Connect();
    }

    /** What a run shows of the connection; `rc` and `reply` are the result of the step that led here. */
    ghost function Now(rc: int, reply: Option<Bytes>): Moment
      reads this`handle, c.driver
    {
      Moment(rc, reply, handle, c.driver.visits, c.driver.trail, c.driver.refused)
    }
  }

  /** What the service may do with its connection. */
  datatype Step = DoConnect | DoSend(cmd: nat, req: Bytes) | DoDisconnect

  datatype Moment = Moment(rc: int, reply: Option<Bytes>, handle: int, visits: seq<Visit>, trail: Trail, refused: nat)

  /** The request fits and finds the connection open. */
  predicate Sendable(m: Moment, req: Bytes) {
    m.handle > 0 && |req| <= BUF_SIZE
  }

  /** One step of a run, from moment `m` to moment `n`. */
  ghost predicate Takes(step: Step, m: Moment, n: Moment) {
    match step
    case DoConnect =>
      && n.visits == m.visits && n.reply == None && (n.rc == 0 <==> n.handle > 0)
      && (m.handle > 0 ==> n.handle == m.handle && n.trail == m.trail)
      && (n.rc != 0 ==> n.refused > m.refused)
    case DoDisconnect =>
      && n.visits == m.visits && n.reply == None && n.handle == -1
      && n.trail.closed == m.trail.closed + if m.handle > 0 then [m.handle] else []
    case DoSend(cmd, req) =>
      && (if Sendable(m, req) then OneVisit(m.visits, n.visits, m.handle, cmd, req, n.rc, n.reply)
          else n.rc < 0 && n.reply == None && n.visits == m.visits)
      && (|req| > BUF_SIZE ==> n.handle == m.handle && n.trail == m.trail)
      && (Sendable(m, req) ==>
            if Broken(Last(n.visits)) then m.trail.closed + [m.handle] <= n.trail.closed
            else n.handle == m.handle && n.trail == m.trail)
  }

  ghost predicate TakesAt(steps: seq<Step>, ms: seq<Moment>, j: nat)
    requires j < |steps| && j + 1 < |ms|
  {
    Takes(steps[j], ms[j], ms[j + 1])
  }

  /** The first `|ms| - 1` steps lead through the moments `ms`. */
  ghost predicate Leads(steps: seq<Step>, ms: seq<Moment>) {
    1 <= |ms| <= |steps| + 1 && forall j :: 0 <= j < |ms| - 1 ==> TakesAt(steps, ms, j)
  }

  lemma LeadsOn(steps: seq<Step>, ms: seq<Moment>, n: Moment)
    requires Leads(steps, ms) && |ms| <= |steps| && Takes(steps[|ms| - 1], ms[|ms| - 1], n)
    ensures Leads(steps, ms + [n])
  {
    forall j | 0 <= j < |ms|
      ensures TakesAt(steps, ms + [n], j)
    {
      if j < |ms| - 1 {
        assert TakesAt(steps, ms, j);
      }
    }
  }

  /** The requests among the first `n` steps that fit and found the connection open. */
  function Sends(steps: seq<Step>, ms: seq<Moment>, n: nat): seq<(nat, Bytes)>
    requires n <= |steps| && n <= |ms|
  {
    if n == 0 then []
    else Sends(steps, ms, n - 1) +
         if steps[n - 1].DoSend? && Sendable(ms[n - 1], steps[n - 1].req) then [(steps[n - 1].cmd, steps[n - 1].req)]
         else []
  }

  /** The visits from `first` on, in order, carry the requests `reqs`. */
  ghost predicate CarriesAll(visits: seq<Visit>, first: nat, reqs: seq<(nat, Bytes)>) {
    |visits| == first + |reqs| && forall k :: 0 <= k < |reqs| ==> Carries(visits[first + k], reqs[k].0, reqs[k].1)
  }

  /** The secure world sees exactly the requests that fit and found the connection open, once each and in order. */
  lemma {:induction false} VisitsAreSends(steps: seq<Step>, ms: seq<Moment>, n: nat)
    requires Leads(steps, ms) && n < |ms|
    ensures ms[0].visits <= ms[n].visits && CarriesAll(ms[n].visits, |ms[0].visits|, Sends(steps, ms, n))
  {
    if n > 0 {
      VisitsAreSends(steps, ms, n - 1);
      assert TakesAt(steps, ms, n - 1);
    }
  }

  method Take(k: Connection, step: Step) returns (rc: int, reply: Option<Bytes>)
    requires k.Valid()
    modifies k`inputSM, k`outputSM, k`handle, k.c`contexts, k.c`sessions, k.c.driver, k.context, k.session
    ensures k.Valid() && Takes(step, old(k.Now(0, None)), k.Now(rc, reply))
  {
    reply := None;
    match step {
      case DoConnect =>
        rc := k.Connect();
      case DoSend(cmd, req) =>
        rc, reply := k.Send(cmd, req);
      case DoDisconnect =>
        k.Disconnect();
        rc := 0;
    }
  }

  /**
   Any run of connects, sends and disconnects, with failures anywhere: every step is taken, the handle is positive
   exactly when all four resources are held, minus one exactly when none is, and no call was ever wrong about a
   descriptor or a length.
   */
  method Run(k: Connection, steps: seq<Step>) returns (ghost ms: seq<Moment>)
    requires k.Valid()
    modifies k`inputSM, k`outputSM, k`handle, k.c`contexts, k.c`sessions, k.c.driver, k.context, k.session
    ensures k.Valid() && k.c.driver.trail.faults == k.idle.faults
    ensures k.handle > 0 <==> k.Stage(4)
    ensures k.handle == -1 <==> k.Stage(0)
    ensures |ms| == |steps| + 1 && Leads(steps, ms)
    ensures ms[0] == old(k.Now(0, None)) && ms[|steps|] == k.Now(ms[|steps|].rc, ms[|steps|].reply)
    ensures old(k.c.driver.visits) <= k.c.driver.visits
    ensures CarriesAll(k.c.driver.visits, |old(k.c.driver.visits)|, Sends(steps, ms, |steps|))
  {
    var i := 0;
    ms := [k.Now(0, None)];
    while i < |steps|
      invariant 0 <= i <= |steps| && k.Valid() && |ms| == i + 1 && Leads(steps, ms)
      invariant ms[0] == old(k.Now(0, None)) && ms[i] == k.Now(ms[i].rc, ms[i].reply)
    {
      var rc, reply := Take(k, steps[i]);
      LeadsOn(steps, ms, k.Now(rc, reply));
      ms := ms + [k.Now(rc, reply)];
      i := i + 1;
    }
    VisitsAreSends(steps, ms, |steps|);
  }
}
