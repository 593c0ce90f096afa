/** The gatekeeper's transfer of one request buffer: acquire, invoke, and release on every path. */
module Gatekeeper {
  import opened Octets
  import opened Wrappers
  import opened SharedRefs
  import opened TeeClient
  import opened TeeOperation

  const BUFF_SIZE: nat := 4096

  /** GK_COMMAND_MAGIC, the letter Q. */
  const COMMAND: nat := 81

  /** TEEC_PARAM_TYPES(WHOLE, NONE, NONE, NONE). */
  const TYPES: nat := 12

  /** Everything the library and the driver keep track of is as it was, and no call was wrong about a descriptor. */
  twostate predicate NothingLeft(c: Common)
    reads c, c.driver
  {
    && c.contexts == old(c.contexts) && c.sessions == old(c.sessions)
    && c.driver.openFds == old(c.driver.openFds) && c.driver.sessions == old(c.driver.sessions)
    && BooksOf(c.driver) == old(BooksOf(c.driver)) && c.driver.trail.faults == old(c.driver.trail.faults)
  }

  /** Client memory is the same, the request buffer aside, which changes within its first `BUFF_SIZE` bytes at most. */
  ghost predicate OnlyBuff(mapped: map<int, nat>, buff: int, before: Memory, after: Memory) {
    && before.Keys <= after.Keys
    && (forall b :: b in before && b !in mapped && b != buff ==> after[b] == before[b])
    && (buff in before ==> |after[buff]| == |before[buff]|)
    && (buff in before ==> forall j :: BUFF_SIZE <= j < |before[buff]| ==> after[buff][j] == before[buff][j])
  }

  /** The transaction has the whole buffer as its one reference. */
  ghost predicate WholeBuff(refs: seq<Ref>, buff: int, shadow: int) {
    && |refs| == PARAMS && refs[0] == Ref(buff, shadow, 0, BUFF_SIZE, true, true)
    && forall k :: 1 <= k < PARAMS ==> refs[k] == Ref(NULL, NULL, 0, 0, false, false)
  }

  lemma CarriedOnlyBuff(tx: Transaction, mapped: map<int, nat>, before: Memory, after: Memory, buff: int, shadow: int)
    requires Carried(tx, Shared(mapped, before, tx.base), before, after)
    requires WholeBuff(tx.refs, buff, shadow)
    requires forall b :: b in before ==> b > 0
    requires shadow in mapped && buff in before && buff !in mapped
    ensures OnlyBuff(mapped, buff, before, after)
  {
    forall b | b in before && b !in mapped
      ensures |after[b]| == |before[b]|
      ensures forall j :: 0 <= j < |before[b]| && (b != buff || j >= BUFF_SIZE) ==> after[b][j] == before[b][j]
    {
      assert b !in Shared(mapped, before, tx.base);
      StageElsewhere(tx.base, tx.refs, b);
      forall j | 0 <= j < |before[b]| && (b != buff || j >= BUFF_SIZE)
        ensures after[b][j] == before[b][j]
      {
        ClientSeesOutputsOnly(tx, Shared(mapped, before, tx.base), before, after, b, j);
      }
    }
  }

  /**
   The secure side was told of block `b`, new to the process, in both directions. It found the request in it, and
   what it left there is the buffer's, up to the size it returned.
   */
  ghost predicate WorkedOn(v: Visit, known: Memory, b: int, before: Bytes, after: Bytes) {
    && |v.params| == |v.outs| == PARAMS && |before| >= BUFF_SIZE
    && b !in known && b in v.ids && b in v.seen && b in v.left
    && v.params[0].attr == ATTR_INOUT && v.params[0].shmId == v.ids[b]
    && v.params[0].offs == 0 && v.params[0].size == BUFF_SIZE
    && v.seen[b] == before[..BUFF_SIZE] && |v.left[b]| == BUFF_SIZE
    && after == if v.outs[0].size > BUFF_SIZE then before else v.left[b][..v.outs[0].size] + before[v.outs[0].size..]
  }

  /**
   No visit, because the driver refused something, and the same buffer; or one visit, which decides the outcome: it
   worked on the buffer if it came back, and left it alone if not.
   */
  ghost predicate Transferred(ok: bool, refused: bool, was: seq<Visit>, now: seq<Visit>,
                              known: Memory, before: Bytes, after: Bytes) {
    || (now == was && after == before && !ok && refused)
    || (&& |now| == |was| + 1 && now[..|was|] == was
        && (ok <==> Last(now).result == Back(SUCCESS)) && Last(now).to.cmd == COMMAND
        && if Last(now).result.Back? then exists b :: WorkedOn(Last(now), known, b, before, after) else after == before)
  }

  /** The operation of the transfer. */
  function TransferOp(shm: SharedMemory): Operation {
    Operation(TYPES, [BLANK_PARAM.(parent := shm, size := shm.size), BLANK_PARAM, BLANK_PARAM, BLANK_PARAM])
  }

  lemma TransferOpOk(mem: Memory, shm: SharedMemory)
    requires shm.buffer > 0 && shm.shadow > 0 && shm.buffer != shm.shadow
    requires shm.buffer in mem && shm.size <= |mem[shm.buffer]| && shm.shadow in mem && shm.size <= |mem[shm.shadow]|
    ensures Kinds(TYPES) == [WHOLE, NONE, NONE, NONE]
    ensures OpOk(mem, Kinds(TYPES), TransferOp(shm).params)
  {
  }

  /** No temporary block is involved, and the one shared block is no client's. */
  lemma TransferSpares(mapped: map<int, nat>, mem: Memory, shm: SharedMemory)
    requires Kinds(TYPES) == [WHOLE, NONE, NONE, NONE] && shm.shadow in mapped && NULL !in mem
    ensures forall n :: !Overlooked(Kinds(TYPES), n)
    ensures forall b :: b in mem && b !in mapped ==> NoShadow(Kinds(TYPES), TransferOp(shm).params, b)
  {
  }

  /** The visit belongs to the transaction, and its first parameter is that buffer. */
  ghost predicate TellsOfBuff(v: Visit, tx: Transaction, shm: SharedMemory) {
    && AllFit(tx.base, tx.refs) && v.seen == StageIn(tx.base, tx.refs) && v.left == tx.mid && v.outs == tx.outs
    && |v.params| == PARAMS && v.params[0].attr == ATTR_INOUT && v.params[0].shmId == shm.id
    && v.params[0].offs == 0 && v.params[0].size == BUFF_SIZE
    && forall k :: 1 <= k < PARAMS ==> v.params[k].attr == NONE
  }

  /** Preparation of the transfer cannot stop: its one parameter is not rejected and needs no memory. */
  lemma TransferShape(to: Target, shm: SharedMemory, before: Memory, tx: Transaction, res: Code,
                      was: seq<Visit>, now: seq<Visit>)
    requires shm.flags == MEM_INPUT + MEM_OUTPUT && shm.size == BUFF_SIZE
    requires StopsAt([WHOLE, NONE, NONE, NONE], TransferOp(shm).params, |tx.refs|, res)
    requires Refers([WHOLE, NONE, NONE, NONE], TransferOp(shm).params, before, tx.refs)
    requires |tx.refs| == PARAMS ==>
               Visited(to, [WHOLE, NONE, NONE, NONE], TransferOp(shm).params, before, tx, was, now)
    ensures WholeBuff(tx.refs, shm.buffer, shm.shadow)
    ensures |now| == |was| + 1 && now[..|was|] == was && Last(now).to == to && TellsOfBuff(Last(now), tx, shm)
  {
    var kinds, params := [WHOLE, NONE, NONE, NONE], TransferOp(shm).params;
    assert forall k :: 0 <= k < PARAMS ==> TellsOf(kinds[k], params[k], Last(now).params[k], tx.refs[k], Last(now).ids);
    assert forall k :: 0 <= k < PARAMS ==> tx.refs[k] == RefOf(kinds[k], params[k], tx.refs[k].shared);
  }

  /** A call that came back has worked on the buffer in place. */
  lemma BuffWorkedOn(v: Visit, tx: Transaction, mapped: map<int, nat>, known: Memory, before: Memory, after: Memory,
                     shm: SharedMemory)
    requires Carried(tx, Shared(mapped, before, tx.base), before, after)
    requires WholeBuff(tx.refs, shm.buffer, shm.shadow) && TellsOfBuff(v, tx, shm)
    requires shm.buffer != NULL && shm.buffer in before && shm.buffer !in mapped && |before[shm.buffer]| >= BUFF_SIZE
    requires shm.shadow != NULL && shm.shadow in before && |before[shm.shadow]| == BUFF_SIZE && shm.shadow !in known
    requires shm.shadow in v.ids && v.ids[shm.shadow] == shm.id
    ensures WorkedOn(v, known, shm.shadow, before[shm.buffer], after[shm.buffer])
  {
    var r, left := tx.refs[0], tx.mid[shm.shadow];
    assert |left| == BUFF_SIZE && left[0..BUFF_SIZE] == left;
    CallIsInPlace(tx, Shared(mapped, before, tx.base), before, after, 0, r, (seen: Bytes) => left);
    assert v.seen[shm.shadow][0..BUFF_SIZE] == v.seen[shm.shadow];
  }

  /** The call in the middle of the transfer: the buffer is shared as a whole, in both directions. */
  method InvokeWith(c: Common, session: Session, buff: int, shm: SharedMemory, ghost known: Memory) returns (res: Code)
    requires c.Valid() && session in c.sessions && c.Live(shm)
    requires shm.buffer == buff && shm.size == BUFF_SIZE && shm.flags == MEM_INPUT + MEM_OUTPUT && shm.shadow > 0
    requires buff > 0 && buff in c.driver.mem && buff != shm.shadow && buff !in c.driver.mapped
    requires |c.driver.mem[buff]| >= BUFF_SIZE && shm.allocedSize == BUFF_SIZE && shm.shadow !in known
    requires shm.shadow in c.driver.idOf && c.driver.idOf[shm.shadow] == shm.id
    modifies c.driver`mem, c.driver`mapped, c.driver`idOf, c.driver`refused, c.driver`live, c.driver`openFds,
             c.driver`trail, c.driver`visits
    ensures c.Valid() && BooksOf(c.driver) == old(BooksOf(c.driver))
    ensures c.driver.openFds == old(c.driver.openFds) && c.driver.trail == old(c.driver.trail)
    ensures OnlyBuff(c.driver.mapped, buff, old(c.driver.mem), c.driver.mem)
    ensures c.driver.visits != old(c.driver.visits) ==>
              c.driver.visits != [] && Last(c.driver.visits).to == Target(session.ctx.fd, session.id, COMMAND)
    ensures Transferred(res == SUCCESS, false, old(c.driver.visits), c.driver.visits, known,
                        old(c.driver.mem)[buff], c.driver.mem[buff])
  {
    ghost var before, mapped := c.driver.mem, c.driver.mapped;
    var called;
    ghost var tx;
    res, called, tx := Call(c, session, shm);
    if called {
      CarriedOnlyBuff(tx, mapped, before, c.driver.mem, buff, shm.shadow);
      BuffWorkedOn(Last(c.driver.visits), tx, mapped, known, before, c.driver.mem, shm);
    }
  }

  /** The call itself always reaches the driver: its one parameter cannot be rejected and needs no memory. */
  method Call(c: Common, session: Session, shm: SharedMemory) returns (res: Code, called: bool, ghost tx: Transaction)
    requires c.Valid() && session in c.sessions && shm.flags == MEM_INPUT + MEM_OUTPUT && shm.size == BUFF_SIZE
    requires shm.buffer > 0 && shm.shadow > 0 && shm.buffer != shm.shadow
    requires shm.buffer in c.driver.mem && shm.size <= |c.driver.mem[shm.buffer]|
    requires shm.shadow in c.driver.mapped && shm.size <= |c.driver.mem[shm.shadow]|
    requires shm.shadow in c.driver.idOf && c.driver.idOf[shm.shadow] == shm.id
    modifies c.driver`mem, c.driver`mapped, c.driver`idOf, c.driver`refused, c.driver`live, c.driver`openFds,
             c.driver`trail, c.driver`visits
    ensures c.Valid() && BooksOf(c.driver) == old(BooksOf(c.driver))
    ensures c.driver.openFds == old(c.driver.openFds) && c.driver.trail == old(c.driver.trail)
    ensures WholeBuff(tx.refs, shm.buffer, shm.shadow)
    ensures |c.driver.visits| == |old(c.driver.visits)| + 1
    ensures c.driver.visits[..|old(c.driver.visits)|] == old(c.driver.visits)
    ensures var v := Last(c.driver.visits);
            && TellsOfBuff(v, tx, shm) && shm.shadow in v.ids && v.ids[shm.shadow] == shm.id
            && v.to == Target(session.ctx.fd, session.id, COMMAND) && Reports(v, called, res)
    ensures called ==>
              Carried(tx, Shared(old(c.driver.mapped), old(c.driver.mem), tx.base), old(c.driver.mem), c.driver.mem)
    ensures !called ==>
              && res != SUCCESS && c.driver.mem.Keys == old(c.driver.mem).Keys
              && forall b :: b in c.driver.mem && b !in c.driver.mapped ==> c.driver.mem[b] == old(c.driver.mem)[b]
  {
    var op := TransferOp(shm);
    TransferOpOk(c.driver.mem, shm);
    TransferSpares(c.driver.mapped, c.driver.mem, shm);
    var o;
    res, o, called, tx := InvokeCommand(c, session, COMMAND, Some(op));
    TransferShape(Target(session.ctx.fd, session.id, COMMAND), shm, old(c.driver.mem), tx, res,
                  old(c.driver.visits), c.driver.visits);
  }

  /** Register the buffer, invoke, release; a buffer that could not be registered is not released. */
  method ShareAndInvoke(c: Common, context: Context, session: Session, buff: int) returns (result: Code)
    requires c.Valid() && context in c.contexts && session in c.sessions
    requires buff != NULL && buff in c.driver.mem && buff !in c.driver.mapped && |c.driver.mem[buff]| >= BUFF_SIZE
    modifies c.driver`mem, c.driver`mapped, c.driver`idOf, c.driver`refused, c.driver`live, c.driver`openFds,
             c.driver`trail, c.driver`visits
    ensures c.Valid() && BooksOf(c.driver) == old(BooksOf(c.driver))
    ensures c.driver.openFds == old(c.driver.openFds) && c.driver.trail == old(c.driver.trail)
    ensures OnlyBuff(c.driver.mapped, buff, old(c.driver.mem), c.driver.mem)
    ensures c.driver.visits != old(c.driver.visits) ==>
              c.driver.visits != [] && Last(c.driver.visits).to == Target(session.ctx.fd, session.id, COMMAND)
    ensures Transferred(result == SUCCESS, c.driver.refused > old(c.driver.refused), old(c.driver.visits),
                        c.driver.visits, old(c.driver.mem), old(c.driver.mem)[buff], c.driver.mem[buff])
  {
    ghost var was, before := BooksOf(c.driver), c.driver.mem;
    var shm := ZEROED.(buffer := buff, size := BUFF_SIZE, flags := MEM_INPUT + MEM_OUTPUT);
    result, shm := c.RegisterSharedMemory(context, shm);
    if result == SUCCESS {
      assert BooksOf(c.driver) == WithShadow(was, shm);
      result := InvokeAndRelease(c, session, buff, shm, was, before);
    }
  }

  /** The books with the shadow block of the buffer. */
  ghost function WithShadow(was: Books, shm: SharedMemory): Books {
    Books(was.blocks + {shm.shadow}, was.mapped[shm.shadow := shm.allocedSize], was.live[shm.id := shm.registeredFd])
  }

  lemma ShadowGone(was: Books, shm: SharedMemory)
    requires shm.shadow !in was.blocks && shm.shadow !in was.mapped && shm.id !in was.live
    ensures var b := WithShadow(was, shm);
            && b.blocks - {shm.shadow} == was.blocks && b.mapped - {shm.shadow} == was.mapped
            && b.live - {shm.id} == was.live
  {
  }

  method InvokeAndRelease(c: Common, session: Session, buff: int, shm: SharedMemory, ghost was: Books,
                          ghost known: Memory) returns (result: Code)
    requires c.Valid() && session in c.sessions && c.Live(shm) && BooksOf(c.driver) == WithShadow(was, shm)
    requires shm.shadow !in was.blocks && shm.shadow !in was.mapped && shm.id !in was.live && was.blocks == known.Keys
    requires shm.buffer == buff && shm.size == BUFF_SIZE && shm.flags == MEM_INPUT + MEM_OUTPUT && shm.shadow > 0
    requires buff > 0 && buff in known && buff !in was.mapped && |known[buff]| >= BUFF_SIZE
    requires shm.allocedSize == BUFF_SIZE && shm.shadow in c.driver.idOf && c.driver.idOf[shm.shadow] == shm.id
    requires c.driver.mem == known[shm.shadow := c.driver.mem[shm.shadow]]
    modifies c.driver`mem, c.driver`mapped, c.driver`idOf, c.driver`refused, c.driver`live, c.driver`openFds,
             c.driver`trail, c.driver`visits
    ensures c.Valid() && BooksOf(c.driver) == was
    ensures c.driver.openFds == old(c.driver.openFds) && c.driver.trail == old(c.driver.trail)
    ensures OnlyBuff(was.mapped, buff, known, c.driver.mem)
    ensures c.driver.visits != old(c.driver.visits) ==>
              c.driver.visits != [] && Last(c.driver.visits).to == Target(session.ctx.fd, session.id, COMMAND)
    ensures Transferred(result == SUCCESS, false, old(c.driver.visits), c.driver.visits, known,
                        known[buff], c.driver.mem[buff])
  {
    result := InvokeWith(c, session, buff, shm, known);
    assert c.Live(shm);
    ShadowGone(was, shm);
    var gone := c.ReleaseSharedMemory(shm);
    assert c.driver.mem.Keys == was.blocks;
  }

  /** From the open context on, up to the last label of the release ladder: a failed open has already finalized. */
  method WithContext(c: Common, context: Context, session: Session, buff: int) returns (result: Code)
    requires c.Valid() && context in c.contexts && session !in c.sessions
    requires forall s :: s in c.sessions ==> s.ctx != context
    requires buff != NULL && buff in c.driver.mem && buff !in c.driver.mapped && |c.driver.mem[buff]| >= BUFF_SIZE
    modifies c`contexts, c`sessions, session, c.driver
    ensures c.Valid() && c.sessions == old(c.sessions) && c.driver.sessions == old(c.driver.sessions)
    ensures BooksOf(c.driver) == old(BooksOf(c.driver))
    ensures OnlyBuff(c.driver.mapped, buff, old(c.driver.mem), c.driver.mem)
    ensures if context in c.contexts
            then && c.contexts == old(c.contexts) && c.driver.openFds == old(c.driver.openFds)
                 && c.driver.trail == old(c.driver.trail).Ending(context.fd, session.id)
            else && c.contexts == old(c.contexts) - {context}
                 && c.driver.openFds == old(c.driver.openFds) - {context.fd}
                 && c.driver.trail == old(c.driver.trail).Closing(context.fd)
    ensures c.driver.visits != old(c.driver.visits) ==>
              && c.driver.visits != [] && Last(c.driver.visits).to.fd == context.fd
              && c.driver.trail.ended == old(c.driver.trail).ended + [(context.fd, Last(c.driver.visits).to.session)]
    ensures Transferred(result == SUCCESS, c.driver.refused > old(c.driver.refused), old(c.driver.visits),
                        c.driver.visits, old(c.driver.mem), old(c.driver.mem)[buff], c.driver.mem[buff])
  {
    result := c.OpenSession(context, session);
    if result != SUCCESS {
      c.FinalizeContext(context);
      return;
    }
    result := ShareAndInvoke(c, context, session, buff);
    c.CloseSession(session);
  }

  /** From the open context to the end: the context is gone and its device closed once, finalized twice or not. */
  method Ladder(c: Common, context: Context, session: Session, buff: int) returns (ok: bool)
    requires c.Valid() && context in c.contexts && session !in c.sessions
    requires forall s :: s in c.sessions ==> s.ctx != context
    requires buff != NULL && buff in c.driver.mem && buff !in c.driver.mapped && |c.driver.mem[buff]| >= BUFF_SIZE
    modifies c`contexts, c`sessions, session, c.driver
    ensures c.Valid() && c.sessions == old(c.sessions) && c.driver.sessions == old(c.driver.sessions)
    ensures BooksOf(c.driver) == old(BooksOf(c.driver))
    ensures OnlyBuff(c.driver.mapped, buff, old(c.driver.mem), c.driver.mem)
    ensures c.contexts == old(c.contexts) - {context} && c.driver.openFds == old(c.driver.openFds) - {context.fd}
    ensures c.driver.trail.faults == old(c.driver.trail).faults
    ensures c.driver.trail.closed == old(c.driver.trail).closed + [context.fd]
    ensures c.driver.visits != old(c.driver.visits) ==>
              && c.driver.visits != [] && Last(c.driver.visits).to.fd == context.fd
              && c.driver.trail.ended == old(c.driver.trail).ended + [(context.fd, Last(c.driver.visits).to.session)]
    ensures Transferred(ok, c.driver.refused > old(c.driver.refused), old(c.driver.visits), c.driver.visits,
                        old(c.driver.mem), old(c.driver.mem)[buff], c.driver.mem[buff])
  {
    var result := WithContext(c, context, session, buff);
    c.FinalizeContext(context);
    ok := result == SUCCESS;
  }

  /**
   ut_gk_transfer_buff. On every path the tables, descriptors, sessions and shared memory are those of the
   start, no call ever hit a descriptor that was closed, and the device that was opened, if any, is closed exactly
   once, although a failed open finalizes its context twice. Unless the driver refused a device, a session or
   memory, the secure world is visited once, its result decides, and it has worked on the buffer as if in place.
   */
  method TransferBuff(c: Common, buff: int) returns (ok: bool)
    requires c.Valid()
    requires buff != NULL ==> buff in c.driver.mem && buff !in c.driver.mapped && |c.driver.mem[buff]| >= BUFF_SIZE
    modifies c`contexts, c`sessions, c.driver
    ensures c.Valid() && NothingLeft(c)
    ensures buff == NULL ==> !ok && c.driver.mem == old(c.driver.mem) && c.driver.visits == old(c.driver.visits)
    ensures OnlyBuff(c.driver.mapped, buff, old(c.driver.mem), c.driver.mem)
    ensures var was, now := old(c.driver.trail).closed, c.driver.trail.closed;
            || (now == was && !ok && c.driver.visits == old(c.driver.visits))
            || (|now| == |was| + 1 && now[..|was|] == was && now[|was|] !in old(c.driver.openFds))
    ensures c.driver.visits != old(c.driver.visits) ==>
              && c.driver.visits != []
              && var to := Last(c.driver.visits).to;
              && c.driver.trail.closed == old(c.driver.trail).closed + [to.fd]
              && c.driver.trail.ended == old(c.driver.trail).ended + [(to.fd, to.session)]
    ensures buff != NULL ==>
              Transferred(ok, c.driver.refused > old(c.driver.refused), old(c.driver.visits), c.driver.visits,
                          old(c.driver.mem), old(c.driver.mem)[buff], c.driver.mem[buff])
  {
    if buff == NULL {
      return false;
    }
    var context := new Context();
    var session := new Session();
    var result := c.InitializeContext(context);
    if result != SUCCESS {
      return false;
    }
    ok := Ladder(c, context, session, buff);
  }
}
