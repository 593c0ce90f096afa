/**
 Operations of the TEE client library: the four parameters of a call are
 prepared, handed to the secure world, brought back, and their temporary memory
 is given up again.
 */
module TeeOperation {
  import opened Octets
  import opened Wrappers
  import opened SharedRefs
  import opened TeeClient

  const PARAMS: nat := 4

  const NONE: nat := 0
  const VALUE_INPUT: nat := 1
  const VALUE_OUTPUT: nat := 2
  const VALUE_INOUT: nat := 3
  const TEMP_INPUT: nat := 5
  const TEMP_OUTPUT: nat := 6
  const TEMP_INOUT: nat := 7
  const WHOLE: nat := 12
  const PARTIAL_INPUT: nat := 13
  const PARTIAL_OUTPUT: nat := 14
  const PARTIAL_INOUT: nat := 15

  /** A parameter; the type code says which part of it is meant. */
  datatype Param = Param(a: nat, b: nat, tmpBuffer: int, tmpSize: nat, parent: SharedMemory, offset: nat, size: nat)

  datatype Operation = Operation(paramTypes: nat, params: seq<Param>)

  const BLANK_PARAM: Param := Param(0, 0, NULL, 0, ZEROED, 0, 0)

  /** TEEC_PARAM_TYPE_GET. */
  function TypeOf(types: nat, n: nat): nat {
    if n == 0 then types % 16 else TypeOf(types / 16, n - 1)
  }

  /** The four type codes of an operation. */
  function Kinds(types: nat): (k: seq<nat>)
    ensures |k| == PARAMS
  {
    [TypeOf(types, 0), TypeOf(types, 1), TypeOf(types, 2), TypeOf(types, 3)]
  }

  /** The codes are the four lowest nibbles of the type word, the first one lowest. */
  lemma Nibbles(types: nat)
    requires types <= 0xffff
    ensures var k := Kinds(types);
            && k[0] < 16 && k[1] < 16 && k[2] < 16 && k[3] < 16
            && types == k[0] + 16 * k[1] + 256 * k[2] + 4096 * k[3]
  {
    var a := types / 16;
    var b := a / 16;
    assert TypeOf(types, 1) == TypeOf(a, 0) && TypeOf(types, 2) == TypeOf(a, 1) && TypeOf(types, 3) == TypeOf(a, 2);
    assert TypeOf(a, 1) == TypeOf(b, 0) && TypeOf(a, 2) == TypeOf(b, 1) && TypeOf(b, 1) == TypeOf(b / 16, 0);
  }

  predicate IsTemp(t: nat) {
    TEMP_INPUT <= t <= TEMP_INOUT
  }

  predicate IsPartial(t: nat) {
    PARTIAL_INPUT <= t <= PARTIAL_INOUT
  }

  predicate IsMemref(t: nat) {
    t == WHOLE || IsPartial(t)
  }

  predicate IsKnown(t: nat) {
    t <= VALUE_INOUT || IsTemp(t) || IsMemref(t)
  }

  /** The ranges a parameter refers to; for a temporary one `block` is the memory allocated for the call. */
  function RefOf(t: nat, p: Param, block: int): Ref {
    if IsTemp(t) then Ref(p.tmpBuffer, block, 0, p.tmpSize, true, t != TEMP_INPUT)
    else if t == WHOLE then
      Ref(p.parent.buffer, p.parent.shadow, 0, p.parent.size, IsInput(p.parent.flags), IsOutput(p.parent.flags))
    else if IsPartial(t) then
      Ref(p.parent.buffer, p.parent.shadow, p.offset, p.size, t != PARTIAL_OUTPUT, t != PARTIAL_INPUT)
    else Ref(NULL, NULL, 0, 0, false, false)
  }

  /** Which way each kind of parameter goes, whose buffer it names, and how much of it. */
  lemma Directions(t: nat, p: Param, block: int)
    ensures var r := RefOf(t, p, block);
            && (r.output <==> || t in {TEMP_OUTPUT, TEMP_INOUT, PARTIAL_OUTPUT, PARTIAL_INOUT}
                              || (t == WHOLE && IsOutput(p.parent.flags)))
            && (r.input <==> || t in {TEMP_INPUT, TEMP_OUTPUT, TEMP_INOUT, PARTIAL_INPUT, PARTIAL_INOUT}
                             || (t == WHOLE && IsInput(p.parent.flags)))
            && (r.client != NULL ==> r.client in {p.tmpBuffer, p.parent.buffer} && (IsTemp(t) || IsMemref(t)))
            && (IsTemp(t) ==> r.client == p.tmpBuffer && r.len == p.tmpSize)
            && (IsMemref(t) ==> r.client == p.parent.buffer && r.shared == p.parent.shadow)
            && (IsPartial(t) ==> r.off == p.offset && r.len == p.size)
            && (t == WHOLE ==> r.off == 0 && r.len == p.parent.size)
            && (Rejected(t, p) <==> || t == 4 || 8 <= t <= 11 || t > 15
                                    || (IsMemref(t) && !(r.input || r.output))
                                    || (IsMemref(t) && r.input && !IsInput(p.parent.flags))
                                    || (IsMemref(t) && r.output && !IsOutput(p.parent.flags)))
            && (IsMemref(t) && (r.input || r.output) ==>
                  AttrOf(t, p) ==
                  if r.input && r.output then ATTR_INOUT else if r.input then ATTR_INPUT else ATTR_OUTPUT)
            && (IsTemp(t) ==> AttrOf(t, p) == if t == TEMP_INPUT then 5 else if t == TEMP_OUTPUT then 6 else 7)
  {
  }

  /**
   Preparation turns the parameter down, whatever the driver does: an unknown code, or a direction its block
   lacks.
   */
  predicate Rejected(t: nat, p: Param) {
    || !IsKnown(t)
    || (t == WHOLE && !IsInput(p.parent.flags) && !IsOutput(p.parent.flags))
    || (IsPartial(t) && ((t != PARTIAL_OUTPUT && !IsInput(p.parent.flags)) ||
                         (t != PARTIAL_INPUT && !IsOutput(p.parent.flags))))
  }

  const ATTR_INPUT: nat := 5
  const ATTR_OUTPUT: nat := 6
  const ATTR_INOUT: nat := 7

  /** The direction the secure side is told for a parameter. */
  function AttrOf(t: nat, p: Param): nat {
    if t == WHOLE then
      if !IsOutput(p.parent.flags) then ATTR_INPUT else if IsInput(p.parent.flags) then ATTR_INOUT else ATTR_OUTPUT
    else if t == PARTIAL_INPUT then ATTR_INPUT
    else if t == PARTIAL_OUTPUT then ATTR_OUTPUT
    else if t == PARTIAL_INOUT then ATTR_INOUT
    else t
  }

  /**
   The secure side is told of the very range that was staged: the block by its id, the offset, the length and
   the direction. `ids` has the id of each block.
   */
  predicate TellsOf(t: nat, p: Param, io: IoParam, r: Ref, ids: map<int, int>) {
    && io.attr == AttrOf(t, p)
    && (IsTemp(t) ==> r.shared in ids && io.shmId == ids[r.shared])
    && (IsMemref(t) ==> io.shmId == p.parent.id)
    && (IsTemp(t) || IsMemref(t) ==> io.offs == r.off && io.size == r.len)
    && (VALUE_INPUT <= t <= VALUE_INOUT ==> io.a == p.a && io.b == p.b)
  }

  /**
   The parameter after the call: the size of what its reference lets the secure side return, and the values, cut
   to 32 bits, that it may return; nothing else has changed.
   */
  predicate TakenOver(t: nat, p: Param, r: Ref, out: IoParam, p': Param) {
    && p'.tmpBuffer == p.tmpBuffer && p'.parent == p.parent && p'.offset == p.offset
    && p'.tmpSize == (if r.output && IsTemp(t) then out.size else p.tmpSize)
    && p'.size == (if r.output && IsMemref(t) then out.size else p.size)
    && p'.a == (if t in {VALUE_OUTPUT, VALUE_INOUT} then out.a % WORD32 else p.a)
    && p'.b == if t in {VALUE_OUTPUT, VALUE_INOUT} then out.b % WORD32 else p.b
  }

  /**
   Every reference lies inside existing memory, and a shadow buffer mirrors one client buffer and is no
   client buffer itself.
   */
  ghost predicate OpOk(mem: Memory, kinds: seq<nat>, params: seq<Param>) {
    && |params| == |kinds| == PARAMS
    && (forall k :: 0 <= k < PARAMS ==> ParamOk(mem, kinds[k], params[k]))
    && (forall k, l :: 0 <= k < PARAMS && 0 <= l < PARAMS ==>
                         Apart(RefOf(kinds[k], params[k], NULL), RefOf(kinds[l], params[l], NULL)))
  }

  predicate Apart(r: Ref, q: Ref) {
    q.shared != NULL ==> r.client != q.shared && (r.shared == q.shared ==> r.client == q.client)
  }

  predicate ParamOk(mem: Memory, t: nat, p: Param) {
    && (IsMemref(t) ==> Fits(mem, RefOf(t, p, NULL)) && (p.parent.shadow != NULL ==> p.parent.buffer != NULL))
    && (IsTemp(t) ==>
          if p.tmpBuffer == NULL then p.tmpSize == 0 else p.tmpBuffer in mem && p.tmpSize <= |mem[p.tmpBuffer]|)
  }

  // ----- temporary memory

  /** What the driver has on its books. */
  datatype Books = Books(blocks: set<int>, mapped: map<int, nat>, live: map<int, int>)

  ghost function BooksOf(d: Driver): Books
    reads d
  {
    Books(d.mem.Keys, d.mapped, d.live)
  }

  ghost function Blocks(slots: seq<SharedMemory>): set<int> {
    set k | 0 <= k < |slots| && slots[k].buffer > 0 :: slots[k].buffer
  }

  ghost function Ids(slots: seq<SharedMemory>): set<int> {
    set k | 0 <= k < |slots| && slots[k].buffer > 0 :: slots[k].id
  }

  ghost predicate Distinct(slots: seq<SharedMemory>) {
    forall k, l :: 0 <= k < l < |slots| && slots[k].buffer > 0 && slots[l].buffer > 0 ==>
                     slots[k].buffer != slots[l].buffer && slots[k].id != slots[l].id
  }

  /** The books have an entry for each held slot, and without those entries they say `was`. */
  ghost predicate Balanced(was: Books, slots: seq<SharedMemory>, now: Books) {
    && Distinct(slots)
    && (forall k :: 0 <= k < |slots| && slots[k].buffer > 0 ==>
                      && slots[k].buffer in now.blocks
                      && slots[k].buffer in now.mapped && now.mapped[slots[k].buffer] == slots[k].allocedSize
                      && slots[k].id in now.live && now.live[slots[k].id] == slots[k].registeredFd)
    && now.blocks - Blocks(slots) == was.blocks
    && now.mapped - Blocks(slots) == was.mapped
    && now.live - Ids(slots) == was.live
  }

  /** Once no slot is held any more, the books are back where they were. */
  lemma Settled(was: Books, slots: seq<SharedMemory>, now: Books)
    requires Balanced(was, slots, now) && forall k :: 0 <= k < |slots| ==> slots[k].buffer <= 0
    ensures now == was
  {
    assert Blocks(slots) == {} && Ids(slots) == {};
    assert now.mapped - {} == now.mapped && now.live - {} == now.live && now.blocks - {} == now.blocks;
  }

  lemma SlotFilled(slots: seq<SharedMemory>, k: nat, s: SharedMemory)
    requires k < |slots| && slots[k].buffer <= 0
    ensures s.buffer > 0 ==>
              Blocks(slots[k := s]) == Blocks(slots) + {s.buffer} && Ids(slots[k := s]) == Ids(slots) + {s.id}
    ensures s.buffer <= 0 ==> Blocks(slots[k := s]) == Blocks(slots) && Ids(slots[k := s]) == Ids(slots)
  {
    var after := slots[k := s];
    assert forall j :: 0 <= j < |slots| && j != k ==> after[j] == slots[j];
    assert after[k] == s;
  }

  lemma SlotEmptied(slots: seq<SharedMemory>, k: nat, s: SharedMemory)
    requires k < |slots| && slots[k].buffer > 0 && s.buffer <= 0 && Distinct(slots)
    ensures Blocks(slots[k := s]) == Blocks(slots) - {slots[k].buffer} &&
            Ids(slots[k := s]) == Ids(slots) - {slots[k].id}
  {
    var after := slots[k := s];
    assert forall j :: 0 <= j < |slots| && j != k ==> after[j] == slots[j];
    assert after[k] == s;
  }

  /** A block that is new to the books is entered for slot `k`. */
  lemma Entered(was: Books, slots: seq<SharedMemory>, now: Books, k: nat, s: SharedMemory)
    requires Balanced(was, slots, now) && k < |slots| && slots[k].buffer <= 0 && s.buffer > 0
    requires s.buffer !in now.blocks && s.buffer !in now.mapped && s.id !in now.live
    ensures Balanced(was, slots[k := s],
                     Books(now.blocks + {s.buffer}, now.mapped[s.buffer := s.allocedSize],
                           now.live[s.id := s.registeredFd]))
  {
    SlotFilled(slots, k, s);
    var b, i := Blocks(slots), Ids(slots);
    assert (now.blocks + {s.buffer}) - (b + {s.buffer}) == now.blocks - b;
    assert now.mapped[s.buffer := s.allocedSize] - (b + {s.buffer}) == now.mapped - b;
    assert now.live[s.id := s.registeredFd] - (i + {s.id}) == now.live - i;
  }

  lemma StillEmpty(was: Books, slots: seq<SharedMemory>, now: Books, k: nat, s: SharedMemory)
    requires Balanced(was, slots, now) && k < |slots| && slots[k].buffer <= 0 && s.buffer <= 0
    ensures Balanced(was, slots[k := s], now)
  {
    SlotFilled(slots, k, s);
  }

  /** The block of slot `k` is struck off the books. */
  lemma Left(was: Books, slots: seq<SharedMemory>, now: Books, k: nat, s: SharedMemory)
    requires Balanced(was, slots, now) && k < |slots| && slots[k].buffer > 0 && s.buffer <= 0
    ensures Balanced(was, slots[k := s],
                     Books(now.blocks - {slots[k].buffer}, now.mapped - {slots[k].buffer}, now.live - {slots[k].id}))
  {
    SlotEmptied(slots, k, s);
    var b, i, o := Blocks(slots), Ids(slots), slots[k];
    assert o.buffer in b && o.id in i;
    assert (now.blocks - {o.buffer}) - (b - {o.buffer}) == now.blocks - b;
    assert (now.mapped - {o.buffer}) - (b - {o.buffer}) == now.mapped - b;
    assert (now.live - {o.id}) - (i - {o.id}) == now.live - i;
  }

  /** The driver holds what it held in `was`, and the temporary blocks, which it got through open descriptors. */
  ghost predicate Ledger(c: Common, tmps: seq<SharedMemory>, was: Books)
    reads c.driver
  {
    && c.driver.Valid()
    && (forall k :: 0 <= k < |tmps| ==> tmps[k].shadow == NULL)
    && (forall k :: 0 <= k < |tmps| && tmps[k].buffer > 0 ==>
                      tmps[k].id >= 0 && tmps[k].registeredFd > 0 && tmps[k].registeredFd in c.driver.openFds)
    && Balanced(was, tmps, BooksOf(c.driver))
  }

  /** One block more for slot `k`. */
  method AllocateTmp(c: Common, ctx: Context, tmps: seq<SharedMemory>, k: nat, shm: SharedMemory, ghost was: Books)
    returns (res: Code, out: seq<SharedMemory>)
    requires k < |tmps| && Ledger(c, tmps, was) && tmps[k].buffer <= 0 && ctx.fd in c.driver.openFds
    requires 0 < shm.flags <= MEM_INPUT + MEM_OUTPUT && shm.shadow == NULL
    modifies c.driver`mem, c.driver`mapped, c.driver`idOf, c.driver`refused, c.driver`live, c.driver`trail
    ensures k < |out| == |tmps| && out == tmps[k := out[k]]
    ensures Ledger(c, out, was) && c.driver.trail == old(c.driver.trail)
    ensures res == SUCCESS ==>
              && out[k].buffer > 0 && out[k].buffer !in old(c.driver.mem) && out[k].buffer in c.driver.mem
              && c.driver.mem == old(c.driver.mem)[out[k].buffer := c.driver.mem[out[k].buffer]]
              && |c.driver.mem[out[k].buffer]| >= shm.size
              && out[k].flags == shm.flags
              && c.driver.idOf == old(c.driver.idOf)[out[k].buffer := out[k].id]
    ensures res != SUCCESS ==>
              && res == ERROR_OUT_OF_MEMORY && out[k].buffer <= 0 && out[k].id == -1
              && c.driver.mem == old(c.driver.mem) && c.driver.idOf == old(c.driver.idOf)
  {
    ghost var now := BooksOf(c.driver);
    var s;
    res, s := c.AllocateSharedMemory(ctx, shm);
    out := tmps[k := s];
    if res == SUCCESS {
      Entered(was, tmps, now, k, s);
      assert c.driver.mem.Keys == now.blocks + {s.buffer};
    } else {
      StillEmpty(was, tmps, now, k, s);
    }
  }

  /** Every block of `m` is one of `whole`, with the same bytes. */
  predicate Within(m: Memory, whole: Memory) {
    forall b :: b in m ==> b in whole && m[b] == whole[b]
  }

  lemma WithinTwice(a: Memory, b: Memory, c: Memory)
    requires Within(a, b) && Within(b, c)
    ensures Within(a, c)
  {
  }

  /** A structure that was zeroed and never filled. */
  predicate Blank(shm: SharedMemory) {
    shm == ZEROED
  }

  predicate Releasable(shm: SharedMemory) {
    shm.buffer > 0 || (shm.id == -1 && shm.buffer <= 0) || Blank(shm)
  }

  /** One block less, or, for a slot that was never filled, descriptor zero closed. */
  method ReleaseTmp(c: Common, tmps: seq<SharedMemory>, k: nat, ghost was: Books) returns (out: seq<SharedMemory>)
    requires k < |tmps| && Ledger(c, tmps, was) && Releasable(tmps[k])
    modifies c.driver`mem, c.driver`mapped, c.driver`live, c.driver`openFds, c.driver`trail
    ensures k < |out| == |tmps| && out == tmps[k := out[k]]
    ensures Ledger(c, out, was) && out[k].buffer <= 0
    ensures Within(c.driver.mem, old(c.driver.mem))
    ensures c.driver.openFds == if Blank(tmps[k]) then old(c.driver.openFds) - {0} else old(c.driver.openFds)
    ensures !Blank(tmps[k]) ==> c.driver.trail == old(c.driver.trail)
  {
    ghost var now := BooksOf(c.driver);
    assert tmps[k].buffer > 0 ==> c.Live(tmps[k]);
    var s := c.ReleaseSharedMemory(tmps[k]);
    out := tmps[k := s];
    if tmps[k].buffer > 0 {
      Left(was, tmps, now, k, s);
      assert c.driver.mem.Keys == now.blocks - {tmps[k].buffer};
    } else {
      StillEmpty(was, tmps, now, k, s);
      assert BooksOf(c.driver) == now;
    }
  }

  /** Slot `k` belongs to a temporary parameter that was never reached. */
  predicate Unreached(kinds: seq<nat>, tmps: seq<SharedMemory>, k: nat)
    requires k < |tmps| && k < |kinds|
  {
    IsTemp(kinds[k]) && Blank(tmps[k])
  }

  /** One of the first `n` slots is of that kind. */
  predicate AnyUnreached(kinds: seq<nat>, tmps: seq<SharedMemory>, n: nat)
    requires n <= |tmps| && n <= |kinds|
  {
    n > 0 && (Unreached(kinds, tmps, n - 1) || AnyUnreached(kinds, tmps, n - 1))
  }

  /** Where the slots begin that preparation did not look at, if it stopped at parameter `stop`. */
  function FirstUnreached(wide: bool, stop: nat): nat {
    if wide then 0 else stop + 1
  }

  /** A temporary parameter at or behind index `first`. */
  predicate Overlooked(kinds: seq<nat>, first: nat) {
    exists k :: 0 <= k < |kinds| && k >= first && IsTemp(kinds[k])
  }

  /** teec_free_temp_refs: the books are settled; an unreached slot costs descriptor zero. */
  method FreeTempRefs(c: Common, kinds: seq<nat>, shms: seq<SharedMemory>, ghost was: Books)
    requires |shms| == |kinds| == PARAMS && Ledger(c, shms, was)
    requires forall k :: 0 <= k < PARAMS ==>
                           if IsTemp(kinds[k]) then Releasable(shms[k]) else shms[k].buffer <= 0
    modifies c.driver`mem, c.driver`mapped, c.driver`live, c.driver`openFds, c.driver`trail
    ensures c.driver.Valid() && BooksOf(c.driver) == was
    ensures Within(c.driver.mem, old(c.driver.mem))
    ensures c.driver.openFds ==
            if AnyUnreached(kinds, shms, PARAMS) then old(c.driver.openFds) - {0} else old(c.driver.openFds)
    ensures !AnyUnreached(kinds, shms, PARAMS) ==> c.driver.trail == old(c.driver.trail)
  {
    var n, tmps := 0, shms;
    while n < PARAMS
      invariant 0 <= n <= PARAMS
      invariant Freeing(c, kinds, shms, tmps, n, was, old(c.driver.mem), old(c.driver.openFds), old(c.driver.trail))
    {
      tmps := FreeOne(c, kinds, shms, tmps, n, was, old(c.driver.mem), old(c.driver.openFds), old(c.driver.trail));
      n := n + 1;
    }
    Settled(was, tmps, BooksOf(c.driver));
  }

  /** The first `n` slots have been given up; `mem`, `fds` and `trail` are those of the start. */
  ghost predicate Freeing(c: Common, kinds: seq<nat>, shms: seq<SharedMemory>, tmps: seq<SharedMemory>, n: nat,
                          was: Books,
                          mem: Memory, fds: set<int>, trail: Trail)
    reads c.driver
  {
    && n <= PARAMS == |tmps| == |shms| == |kinds| && Ledger(c, tmps, was)
    && (forall k :: 0 <= k < n ==> tmps[k].buffer <= 0)
    && (forall k :: n <= k < PARAMS ==> tmps[k] == shms[k])
    && Within(c.driver.mem, mem)
    && c.driver.openFds == (if AnyUnreached(kinds, shms, n) then fds - {0} else fds)
    && (!AnyUnreached(kinds, shms, n) ==> c.driver.trail == trail)
  }

  method FreeOne(c: Common, kinds: seq<nat>, shms: seq<SharedMemory>, tmps: seq<SharedMemory>, n: nat, ghost was: Books,
                 ghost mem: Memory, ghost fds: set<int>, ghost trail: Trail) returns (out: seq<SharedMemory>)
    requires n < PARAMS && Freeing(c, kinds, shms, tmps, n, was, mem, fds, trail)
    requires if IsTemp(kinds[n]) then Releasable(shms[n]) else shms[n].buffer <= 0
    modifies c.driver`mem, c.driver`mapped, c.driver`live, c.driver`openFds, c.driver`trail
    ensures Freeing(c, kinds, shms, out, n + 1, was, mem, fds, trail)
  {
    out := tmps;
    if IsTemp(kinds[n]) {
      ghost var before := c.driver.mem;
      out := ReleaseTmp(c, tmps, n, was);
      WithinTwice(c.driver.mem, before, mem);
    }
  }

  // ----- preparing the parameters

  method PreProcessWhole(c: Common, p: Param) returns (res: Code, io: IoParam)
    requires c.driver.Valid() && Fits(c.driver.mem, RefOf(WHOLE, p, NULL))
    requires p.parent.shadow != NULL ==> p.parent.buffer != NULL
    modifies c.driver`mem
    ensures c.driver.Valid()
    ensures res == if Rejected(WHOLE, p) then ERROR_BAD_PARAMETERS else SUCCESS
    ensures res == SUCCESS ==>
              && c.driver.mem == StageOne(old(c.driver.mem), RefOf(WHOLE, p, NULL))
              && TellsOf(WHOLE, p, io, RefOf(WHOLE, p, NULL), c.driver.idOf)
    ensures res != SUCCESS ==> c.driver.mem == old(c.driver.mem)
  {
    var shm := p.parent;
    var attr;
    io := IoParam(0, 0, 0, 0, 0, 0);
    if IsInput(shm.flags) && IsOutput(shm.flags) {
      attr := ATTR_INOUT;
    } else if IsInput(shm.flags) {
      attr := ATTR_INPUT;
    } else if IsOutput(shm.flags) {
      attr := ATTR_OUTPUT;
    } else {
      return ERROR_BAD_PARAMETERS, io;
    }
    if shm.shadow != NULL && IsInput(shm.flags) {
      c.driver.Memcpy(shm.shadow, shm.buffer, 0, shm.size);
    }
    return SUCCESS, IoParam(attr, 0, 0, shm.id, 0, shm.size);
  }

  method PreProcessPartial(c: Common, t: nat, p: Param) returns (res: Code, io: IoParam)
    requires c.driver.Valid() && IsPartial(t) && Fits(c.driver.mem, RefOf(t, p, NULL))
    requires p.parent.shadow != NULL ==> p.parent.buffer != NULL
    modifies c.driver`mem
    ensures c.driver.Valid()
    ensures res == if Rejected(t, p) then ERROR_BAD_PARAMETERS else SUCCESS
    ensures res == SUCCESS ==>
              && c.driver.mem == StageOne(old(c.driver.mem), RefOf(t, p, NULL))
              && TellsOf(t, p, io, RefOf(t, p, NULL), c.driver.idOf)
    ensures res != SUCCESS ==> c.driver.mem == old(c.driver.mem)
  {
    var shm := p.parent;
    var attr;
    io := IoParam(0, 0, 0, 0, 0, 0);
    if t == PARTIAL_INPUT {
      attr := ATTR_INPUT;
    } else if t == PARTIAL_OUTPUT {
      attr := ATTR_OUTPUT;
    } else {
      attr := ATTR_INOUT;
    }
    if (t != PARTIAL_OUTPUT && !IsInput(shm.flags)) || (t != PARTIAL_INPUT && !IsOutput(shm.flags)) {
      return ERROR_BAD_PARAMETERS, io;
    }
    if shm.shadow != NULL && t != PARTIAL_OUTPUT {
      c.driver.Memcpy(shm.shadow, shm.buffer, p.offset, p.size);
    }
    return SUCCESS, IoParam(attr, 0, 0, shm.id, p.offset, p.size);
  }

  /** A temporary parameter gets a block of its own, filled from the client's buffer whatever its direction. */
  method PreProcessTmp(c: Common, ctx: Context, t: nat, p: Param, tmps: seq<SharedMemory>, k: nat, ghost was: Books)
    returns (res: Code, io: IoParam, out: seq<SharedMemory>, ghost init: Memory)
    requires IsTemp(t) && k < |tmps| && Ledger(c, tmps, was) && Blank(tmps[k]) && ctx.fd in c.driver.openFds
    requires ParamOk(c.driver.mem, t, p)
    modifies c.driver`mem, c.driver`mapped, c.driver`idOf, c.driver`refused, c.driver`live, c.driver`trail
    ensures k < |out| == |tmps| && out == tmps[k := out[k]]
    ensures Ledger(c, out, was) && c.driver.trail == old(c.driver.trail)
    ensures res == SUCCESS ==>
              && out[k].buffer > 0 && out[k].buffer !in old(c.driver.mem)
              && out[k].buffer in init && init == old(c.driver.mem)[out[k].buffer := init[out[k].buffer]]
              && Fits(init, RefOf(t, p, out[k].buffer))
              && c.driver.mem == StageOne(init, RefOf(t, p, out[k].buffer))
              && (IsInput(out[k].flags) <==> t != TEMP_OUTPUT) && (IsOutput(out[k].flags) <==> t != TEMP_INPUT)
              && c.driver.idOf == old(c.driver.idOf)[out[k].buffer := out[k].id]
              && TellsOf(t, p, io, RefOf(t, p, out[k].buffer), c.driver.idOf)
    ensures res != SUCCESS ==>
              && res == ERROR_OUT_OF_MEMORY && out[k].buffer <= 0 && out[k].id == -1
              && c.driver.mem == old(c.driver.mem) && c.driver.idOf == old(c.driver.idOf)
  {
    var flags := if t == TEMP_INPUT then MEM_INPUT else if t == TEMP_OUTPUT then MEM_OUTPUT else MEM_INPUT + MEM_OUTPUT;
    io := IoParam(t, 0, 0, 0, 0, 0);
    res, out := AllocateTmp(c, ctx, tmps, k, tmps[k].(flags := flags, size := p.tmpSize), was);
    init := c.driver.mem;
    if res != SUCCESS {
      return;
    }
    if p.tmpBuffer != NULL {
      c.driver.Memcpy(out[k].buffer, p.tmpBuffer, 0, p.tmpSize);
    }
    io := IoParam(t, 0, 0, out[k].id, 0, p.tmpSize);
    assert BooksOf(c.driver).blocks == init.Keys;
  }

  /**
   What holds of the memory and the temporary slots once the first `n` parameters are prepared: `before` is the
   memory at the start, `base` has the temporary blocks as they were mapped, and `mem` is `base` with the inputs staged.
   */
  ghost predicate Prepared(kinds: seq<nat>, params: seq<Param>, tmps: seq<SharedMemory>, n: nat,
                           before: Memory, base: Memory, refs: seq<Ref>, mem: Memory) {
    && n <= PARAMS && |tmps| == |params| == |kinds| == PARAMS && |refs| == n
    && (forall k :: 0 <= k < n ==> refs[k] == RefOf(kinds[k], params[k], tmps[k].buffer))
    && (forall k :: 0 <= k < n && IsTemp(kinds[k]) ==> tmps[k].buffer > 0 && tmps[k].buffer !in before)
    && (forall k :: 0 <= k < PARAMS && (k >= n || !IsTemp(kinds[k])) ==> Blank(tmps[k]))
    && (forall b :: b in before ==> b in base && base[b] == before[b])
    && AllFit(base, refs) && mem == StageIn(base, refs)
  }

  lemma PreparedIsSeparate(kinds: seq<nat>, params: seq<Param>, tmps: seq<SharedMemory>, n: nat,
                           before: Memory, base: Memory, refs: seq<Ref>, mem: Memory)
    requires OpOk(before, kinds, params) && Prepared(kinds, params, tmps, n, before, base, refs, mem) && Distinct(tmps)
    ensures Separate(refs)
  {
    forall k, l | 0 <= k < n && 0 <= l < n && refs[k].Shadowed() && refs[l].Shadowed()
      ensures refs[k].client != refs[l].shared
      ensures refs[k].shared == refs[l].shared ==> refs[k].client == refs[l].client
    {
      assert Apart(RefOf(kinds[k], params[k], NULL), RefOf(kinds[l], params[l], NULL));
      assert ParamOk(before, kinds[k], params[k]) && ParamOk(before, kinds[l], params[l]);
    }
  }

  lemma StillOk(kinds: seq<nat>, params: seq<Param>, tmps: seq<SharedMemory>, n: nat,
                before: Memory, base: Memory, refs: seq<Ref>, mem: Memory)
    requires OpOk(before, kinds, params) && Prepared(kinds, params, tmps, n, before, base, refs, mem) && n < PARAMS
    ensures ParamOk(mem, kinds[n], params[n]) && ParamOk(base, kinds[n], params[n])
  {
    assert ParamOk(before, kinds[n], params[n]);
  }

  lemma StagedLast(base: Memory, refs: seq<Ref>, r: Ref)
    requires AllFit(base, refs) && Fits(base, r)
    ensures AllFit(base, refs + [r]) && StageIn(base, refs + [r]) == StageOne(StageIn(base, refs), r)
  {
    assert (refs + [r])[..|refs|] == refs;
  }

  /** A parameter that needs no temporary block is prepared. */
  lemma PreparedNext(kinds: seq<nat>, params: seq<Param>, tmps: seq<SharedMemory>, n: nat,
                     before: Memory, base: Memory, refs: seq<Ref>, mem: Memory, r: Ref)
    requires Prepared(kinds, params, tmps, n, before, base, refs, mem) && n < PARAMS && !IsTemp(kinds[n])
    requires r == RefOf(kinds[n], params[n], tmps[n].buffer) && Fits(base, r)
    ensures Prepared(kinds, params, tmps, n + 1, before, base, refs + [r], StageOne(mem, r))
  {
    StagedLast(base, refs, r);
  }

  /** A parameter with a temporary block `s` is prepared. */
  lemma PreparedTmp(kinds: seq<nat>, params: seq<Param>, tmps: seq<SharedMemory>, n: nat,
                    before: Memory, base: Memory, refs: seq<Ref>, mem: Memory, s: SharedMemory, bytes: Bytes, r: Ref)
    requires Prepared(kinds, params, tmps, n, before, base, refs, mem) && n < PARAMS && IsTemp(kinds[n])
    requires s.buffer > 0 && s.buffer !in mem
    requires r == RefOf(kinds[n], params[n], s.buffer) && Fits(mem[s.buffer := bytes], r)
    ensures Prepared(kinds, params, tmps[n := s], n + 1, before, base[s.buffer := bytes], refs + [r],
                     StageOne(mem[s.buffer := bytes], r))
  {
    StageGrow(base, refs, s.buffer, bytes);
    StagedLast(base[s.buffer := bytes], refs, r);
  }

  /** A registered or plain parameter. */
  method PreProcessPlain(c: Common, t: nat, p: Param, tmps: seq<SharedMemory>, ghost was: Books)
    returns (res: Code, io: IoParam)
    requires !IsTemp(t) && ParamOk(c.driver.mem, t, p) && Ledger(c, tmps, was)
    modifies c.driver`mem
    ensures Ledger(c, tmps, was)
    ensures res == if Rejected(t, p) then ERROR_BAD_PARAMETERS else SUCCESS
    ensures res == SUCCESS ==>
              && Fits(old(c.driver.mem), RefOf(t, p, NULL))
              && c.driver.mem == StageOne(old(c.driver.mem), RefOf(t, p, NULL))
              && TellsOf(t, p, io, RefOf(t, p, NULL), c.driver.idOf)
    ensures res != SUCCESS ==> c.driver.mem == old(c.driver.mem)
  {
    io := IoParam(t, 0, 0, 0, 0, 0);
    if t == NONE {
      res := SUCCESS;
    } else if VALUE_INPUT <= t <= VALUE_INOUT {
      io := IoParam(t, p.a, p.b, 0, 0, 0);
      res := SUCCESS;
    } else if t == WHOLE {
      res, io := PreProcessWhole(c, p);
    } else if IsPartial(t) {
      res, io := PreProcessPartial(c, t, p);
    } else {
      res := ERROR_BAD_PARAMETERS;
    }
    assert c.driver.mem.Keys == old(c.driver.mem).Keys;
  }

  /** One turn of the loop in teec_pre_process_operation. */
  method PreProcessOne(c: Common, ctx: Context, kinds: seq<nat>, params: seq<Param>, tmps: seq<SharedMemory>, n: nat,
                       ghost was: Books, ghost before: Memory, ghost base: Memory, ghost refs: seq<Ref>)
    returns (res: Code, io: IoParam, out: seq<SharedMemory>, ghost base': Memory, ghost refs': seq<Ref>)
    requires n < PARAMS && OpOk(before, kinds, params) &&
             Prepared(kinds, params, tmps, n, before, base, refs, c.driver.mem)
    requires Ledger(c, tmps, was) && ctx.fd in c.driver.openFds
    modifies c.driver`mem, c.driver`mapped, c.driver`idOf, c.driver`refused, c.driver`live, c.driver`trail
    ensures Ledger(c, out, was) && c.driver.trail == old(c.driver.trail)
    ensures res == SUCCESS ==>
              Prepared(kinds, params, out, n + 1, before, base', refs', c.driver.mem) && refs == refs'[..n]
    ensures res == SUCCESS ==>
              TellsOf(kinds[n], params[n], io, refs'[n], c.driver.idOf) && !Rejected(kinds[n], params[n])
    ensures KeepsIds(old(c.driver.mem), old(c.driver.idOf), c.driver.idOf)
    ensures res != SUCCESS ==> StopsFor(kinds[n], params[n], res)
    ensures res != SUCCESS ==>
              && base' == base && refs' == refs && |out| == |tmps| && out == tmps[n := out[n]]
              && c.driver.mem == old(c.driver.mem)
              && if IsTemp(kinds[n]) then out[n].buffer <= 0 && out[n].id == -1 else out == tmps
  {
    StillOk(kinds, params, tmps, n, before, base, refs, c.driver.mem);
    base', refs', out := base, refs, tmps;
    ghost var mem := c.driver.mem;
    if IsTemp(kinds[n]) {
      ghost var init;
      res, io, out, init := PreProcessTmp(c, ctx, kinds[n], params[n], tmps, n, was);
      if res == SUCCESS {
        ghost var s := out[n];
        ghost var r := RefOf(kinds[n], params[n], s.buffer);
        PreparedTmp(kinds, params, tmps, n, before, base, refs, mem, s, init[s.buffer], r);
        base', refs' := base[s.buffer := init[s.buffer]], refs + [r];
      }
    } else {
      res, io := PreProcessPlain(c, kinds[n], params[n], tmps, was);
      if res == SUCCESS {
        ghost var r := RefOf(kinds[n], params[n], NULL);
        PreparedNext(kinds, params, tmps, n, before, base, refs, mem, r);
        refs' := refs + [r];
      }
    }
  }

  /** A parameter ends preparation: it is rejected, or no memory could be mapped for a temporary one. */
  predicate StopsFor(t: nat, p: Param, res: Code) {
    if Rejected(t, p) then res == ERROR_BAD_PARAMETERS else IsTemp(t) && res == ERROR_OUT_OF_MEMORY
  }

  /**
   Preparation reached parameter `stop`, with `PARAMS` for all of them: no parameter before it is rejected, and
   it is one that ends preparation.
   */
  predicate StopsAt(kinds: seq<nat>, params: seq<Param>, stop: nat, res: Code) {
    && |kinds| == |params| == PARAMS && stop <= PARAMS
    && (forall k :: 0 <= k < stop ==> !Rejected(kinds[k], params[k]))
    && (stop < PARAMS ==> StopsFor(kinds[stop], params[stop], res))
  }

  predicate Told(kinds: seq<nat>, params: seq<Param>, ios: seq<IoParam>, refs: seq<Ref>, ids: map<int, int>) {
    && |ios| == |refs| <= |kinds| == |params|
    && forall k :: 0 <= k < |ios| ==> TellsOf(kinds[k], params[k], ios[k], refs[k], ids)
  }

  /** The blocks of `mem` have kept their ids. */
  ghost predicate KeepsIds(mem: Memory, was: map<int, int>, now: map<int, int>) {
    forall b :: b in mem && b in was ==> b in now && now[b] == was[b]
  }

  /** Blocks that come later keep the ids of those announced. */
  lemma ToldNext(kinds: seq<nat>, params: seq<Param>, ios: seq<IoParam>, refs: seq<Ref>, ids: map<int, int>,
                 io: IoParam, refs': seq<Ref>, ids': map<int, int>)
    requires Told(kinds, params, ios, refs, ids) && |refs'| == |refs| + 1 <= |kinds| && refs == refs'[..|refs|]
    requires TellsOf(kinds[|refs|], params[|refs|], io, refs'[|refs|], ids')
    requires forall k :: 0 <= k < |refs| && IsTemp(kinds[k]) && refs[k].shared in ids ==>
                           refs[k].shared in ids' && ids'[refs[k].shared] == ids[refs[k].shared]
    ensures Told(kinds, params, ios + [io], refs', ids')
  {
    forall k | 0 <= k < |refs|
      ensures TellsOf(kinds[k], params[k], ios[k], refs'[k], ids')
    {
      assert refs'[k] == refs[k] && TellsOf(kinds[k], params[k], ios[k], refs[k], ids);
    }
  }

  const NO_TMPS: seq<SharedMemory> := [ZEROED, ZEROED, ZEROED, ZEROED]

  lemma OpeningBalance(now: Books)
    ensures Balanced(now, NO_TMPS, now)
  {
    assert Blocks(NO_TMPS) == {} && Ids(NO_TMPS) == {};
    assert now.blocks - {} == now.blocks && now.mapped - {} == now.mapped && now.live - {} == now.live;
  }

  /** Each slot can be given to teec_free_temp_refs, and the unreached ones are the temporary ones from `first` on. */
  ghost predicate Freeable(kinds: seq<nat>, tmps: seq<SharedMemory>, first: nat) {
    && |tmps| == |kinds| == PARAMS
    && forall k :: 0 <= k < PARAMS ==>
                     && (if IsTemp(kinds[k]) then Releasable(tmps[k]) else tmps[k].buffer <= 0)
                     && (Unreached(kinds, tmps, k) <==> IsTemp(kinds[k]) && k >= first)
  }

  lemma {:induction false} UnreachedAreOverlooked(kinds: seq<nat>, tmps: seq<SharedMemory>, first: nat, n: nat)
    requires Freeable(kinds, tmps, first) && n <= PARAMS
    ensures AnyUnreached(kinds, tmps, n) <==> exists k :: 0 <= k < n && k >= first && IsTemp(kinds[k])
  {
    if n > 0 {
      UnreachedAreOverlooked(kinds, tmps, first, n - 1);
    }
  }

  /** Where preparation stops at parameter `n`, the slots after it are the unreached ones. */
  lemma StoppedIsFreeable(kinds: seq<nat>, params: seq<Param>, ready: seq<SharedMemory>, n: nat,
                          before: Memory, base: Memory, refs: seq<Ref>, mem: Memory, tmps: seq<SharedMemory>)
    requires Prepared(kinds, params, ready, n, before, base, refs, mem)
    requires if n == PARAMS then tmps == ready
             else |tmps| == PARAMS && tmps == ready[n := tmps[n]] &&
                  (if IsTemp(kinds[n]) then tmps[n].buffer <= 0 && tmps[n].id == -1 else tmps == ready)
    ensures Freeable(kinds, tmps, FirstUnreached(false, n))
  {
  }

  /** The first `n` parameters are prepared, and the secure side will be told of each; `ids` are those of the start. */
  ghost predicate Preparing(c: Common, kinds: seq<nat>, params: seq<Param>, ios: seq<IoParam>, tmps: seq<SharedMemory>,
                            n: nat, was: Books, ids: map<int, int>, before: Memory, base: Memory, refs: seq<Ref>)
    reads c.driver
  {
    && KeepsIds(before, ids, c.driver.idOf)
    && Prepared(kinds, params, tmps, n, before, base, refs, c.driver.mem) && Ledger(c, tmps, was)
    && |ios| == n && Told(kinds, params, ios, refs, c.driver.idOf)
    && forall k :: 0 <= k < n ==> !Rejected(kinds[k], params[k])
  }

  lemma NothingPrepared(c: Common, kinds: seq<nat>, params: seq<Param>, was: Books)
    requires |params| == |kinds| == PARAMS && Ledger(c, NO_TMPS, was)
    ensures Preparing(c, kinds, params, [], NO_TMPS, 0, was, c.driver.idOf, c.driver.mem, c.driver.mem, [])
  {
  }

  /** One parameter more, or the slots as they are to be freed. */
  method PrepareNext(c: Common, ctx: Context, kinds: seq<nat>, params: seq<Param>, ios: seq<IoParam>,
                     tmps: seq<SharedMemory>, n: nat, ghost was: Books, ghost ids: map<int, int>,
                     ghost before: Memory, ghost base: Memory, ghost refs: seq<Ref>)
    returns (res: Code, ios': seq<IoParam>, tmps': seq<SharedMemory>, ghost base': Memory, ghost refs': seq<Ref>)
    requires n < PARAMS && OpOk(before, kinds, params) && ctx.fd in c.driver.openFds
    requires Preparing(c, kinds, params, ios, tmps, n, was, ids, before, base, refs)
    modifies c.driver`mem, c.driver`mapped, c.driver`idOf, c.driver`refused, c.driver`live, c.driver`trail
    ensures c.driver.trail == old(c.driver.trail) && KeepsIds(before, ids, c.driver.idOf)
    ensures res == SUCCESS ==> Preparing(c, kinds, params, ios', tmps', n + 1, was, ids, before, base', refs')
    ensures res != SUCCESS ==>
              && base' == base && refs' == refs && c.driver.mem == old(c.driver.mem)
              && Ledger(c, tmps', was) && StopsFor(kinds[n], params[n], res)
              && Freeable(kinds, tmps', FirstUnreached(false, n))
  {
    var io;
    ghost var given, mem := c.driver.idOf, c.driver.mem;
    res, io, tmps', base', refs' := PreProcessOne(c, ctx, kinds, params, tmps, n, was, before, base, refs);
    ios' := ios + [io];
    if res == SUCCESS {
      assert forall k :: 0 <= k < n && IsTemp(kinds[k]) ==> refs[k].shared in mem;
      ToldNext(kinds, params, ios, refs, given, io, refs', c.driver.idOf);
    } else {
      StoppedIsFreeable(kinds, params, tmps, n, before, base, refs, mem, tmps');
    }
  }

  /** The loop of teec_pre_process_operation. */
  method PreProcessAll(c: Common, ctx: Context, kinds: seq<nat>, params: seq<Param>, ghost was: Books)
    returns (res: Code, ios: seq<IoParam>, tmps: seq<SharedMemory>,
             ghost base: Memory, ghost refs: seq<Ref>, ghost ready: seq<SharedMemory>)
    requires OpOk(c.driver.mem, kinds, params) && Ledger(c, NO_TMPS, was) && ctx.fd in c.driver.openFds
    modifies c.driver`mem, c.driver`mapped, c.driver`idOf, c.driver`refused, c.driver`live, c.driver`trail
    ensures Ledger(c, tmps, was) && c.driver.trail == old(c.driver.trail)
    ensures Prepared(kinds, params, ready, |refs|, old(c.driver.mem), base, refs, c.driver.mem) && Distinct(ready)
    ensures Freeable(kinds, tmps, FirstUnreached(false, |refs|))
    ensures KeepsIds(old(c.driver.mem), old(c.driver.idOf), c.driver.idOf)
    ensures StopsAt(kinds, params, |refs|, res) && (res == SUCCESS <==> |refs| == PARAMS)
    ensures res == SUCCESS ==> |ios| == PARAMS && ready == tmps && Told(kinds, params, ios, refs, c.driver.idOf)
  {
    ghost var before, ids := c.driver.mem, c.driver.idOf;
    ios, tmps, ready, base, refs := [], NO_TMPS, NO_TMPS, before, [];
    NothingPrepared(c, kinds, params, was);
    var n := 0;
    while n < PARAMS
      invariant 0 <= n <= PARAMS && ready == tmps && c.driver.trail == old(c.driver.trail)
      invariant Preparing(c, kinds, params, ios, tmps, n, was, ids, before, base, refs)
    {
      ready := tmps;
      res, ios, tmps, base, refs := PrepareNext(c, ctx, kinds, params, ios, tmps, n, was, ids, before, base, refs);
      if res != SUCCESS {
        return;
      }
      ready := tmps;
      n := n + 1;
    }
    StoppedIsFreeable(kinds, params, ready, n, before, base, refs, c.driver.mem, tmps);
    return SUCCESS, ios, tmps, base, refs, ready;
  }

  /**
   teec_pre_process_operation. It stops at the first parameter it cannot prepare, with `refs` the ranges of those
   before it. Type words of more than four codes are `wide` and stop it before the first.
   */
  method PreProcessOperation(c: Common, ctx: Context, wide: bool, kinds: seq<nat>, params: seq<Param>, ghost was: Books)
    returns (res: Code, ios: seq<IoParam>, tmps: seq<SharedMemory>,
             ghost base: Memory, ghost refs: seq<Ref>, ghost ready: seq<SharedMemory>)
    requires OpOk(c.driver.mem, kinds, params)
    requires c.driver.Valid() && was == BooksOf(c.driver) && ctx.fd in c.driver.openFds
    modifies c.driver`mem, c.driver`mapped, c.driver`idOf, c.driver`refused, c.driver`live, c.driver`trail
    ensures Ledger(c, tmps, was) && c.driver.trail == old(c.driver.trail)
    ensures Prepared(kinds, params, ready, |refs|, old(c.driver.mem), base, refs, c.driver.mem)
    ensures Distinct(ready) && Freeable(kinds, tmps, FirstUnreached(wide, |refs|))
    ensures KeepsIds(old(c.driver.mem), old(c.driver.idOf), c.driver.idOf)
    ensures wide ==> res == ERROR_BAD_PARAMETERS && refs == []
    ensures !wide ==> StopsAt(kinds, params, |refs|, res) && (res == SUCCESS <==> |refs| == PARAMS)
    ensures res == SUCCESS ==> |ios| == PARAMS && ready == tmps && Told(kinds, params, ios, refs, c.driver.idOf)
  {
    OpeningBalance(was);
    if wide {
      return ERROR_BAD_PARAMETERS, [], NO_TMPS, c.driver.mem, [], NO_TMPS;
    }
    res, ios, tmps, base, refs, ready := PreProcessAll(c, ctx, kinds, params, was);
  }

  /** teec_free_temp_refs after a preparation that looked at the parameters before `first`. */
  method FreeFrom(c: Common, kinds: seq<nat>, tmps: seq<SharedMemory>, ghost first: nat, ghost was: Books)
    requires Freeable(kinds, tmps, first) && Ledger(c, tmps, was)
    modifies c.driver`mem, c.driver`mapped, c.driver`live, c.driver`openFds, c.driver`trail
    ensures c.driver.Valid() && BooksOf(c.driver) == was && Within(c.driver.mem, old(c.driver.mem))
    ensures c.driver.openFds == if Overlooked(kinds, first) then old(c.driver.openFds) - {0} else old(c.driver.openFds)
    ensures !Overlooked(kinds, first) ==> c.driver.trail == old(c.driver.trail)
  {
    UnreachedAreOverlooked(kinds, tmps, first, PARAMS);
    FreeTempRefs(c, kinds, tmps, was);
  }

  // ----- taking the results over

  ghost function Sizes(outs: seq<IoParam>): (r: seq<nat>)
    ensures |r| == |outs| && forall k :: 0 <= k < |outs| ==> r[k] == outs[k].size
  {
    seq(|outs|, k requires 0 <= k < |outs| => outs[k].size)
  }

  /** One turn of the loop in teec_post_process_operation. */
  method PostProcessOne(c: Common, t: nat, p: Param, tmp: SharedMemory, out: IoParam) returns (p': Param)
    requires c.driver.Valid() && Fits(c.driver.mem, RefOf(t, p, tmp.buffer))
    requires IsMemref(t) && p.parent.shadow != NULL ==> p.parent.buffer != NULL
    requires IsTemp(t) ==> tmp.buffer > 0
    modifies c.driver`mem
    ensures c.driver.Valid() && c.driver.mem == DeliverOne(old(c.driver.mem), RefOf(t, p, tmp.buffer), out.size)
    ensures TakenOver(t, p, RefOf(t, p, tmp.buffer), out, p')
  {
    p' := p;
    if t == VALUE_OUTPUT || t == VALUE_INOUT {
      p' := p.(a := out.a % WORD32, b := out.b % WORD32);
    } else if IsTemp(t) {
      if t != TEMP_INPUT {
        if out.size <= p.tmpSize && p.tmpBuffer != NULL {
          c.driver.Memcpy(p.tmpBuffer, tmp.buffer, 0, out.size);
        }
        p' := p.(tmpSize := out.size);
      }
    } else if t == WHOLE {
      if IsOutput(p.parent.flags) {
        if p.parent.shadow != NULL && out.size <= p.parent.size {
          c.driver.Memcpy(p.parent.buffer, p.parent.shadow, 0, out.size);
        }
        p' := p.(size := out.size);
      }
    } else if IsPartial(t) {
      if t != PARTIAL_INPUT {
        if p.parent.shadow != NULL && out.size <= p.size {
          c.driver.Memcpy(p.parent.buffer, p.parent.shadow, p.offset, out.size);
        }
        p' := p.(size := out.size);
      }
    }
  }

  /** `refs` are the ranges of the parameters, as they were prepared. */
  ghost predicate Ready(kinds: seq<nat>, params: seq<Param>, tmps: seq<SharedMemory>, refs: seq<Ref>) {
    && |kinds| == |params| == |tmps| == |refs| == PARAMS
    && forall k :: 0 <= k < PARAMS ==> ReadyOne(kinds[k], params[k], tmps[k], refs[k])
  }

  predicate ReadyOne(t: nat, p: Param, tmp: SharedMemory, r: Ref) {
    && r == RefOf(t, p, tmp.buffer)
    && (IsTemp(t) ==> tmp.buffer > 0)
    && (IsMemref(t) && p.parent.shadow != NULL ==> p.parent.buffer != NULL)
  }

  lemma PreparedIsReady(kinds: seq<nat>, params: seq<Param>, tmps: seq<SharedMemory>,
                        before: Memory, base: Memory, refs: seq<Ref>, mem: Memory)
    requires OpOk(before, kinds, params) && Prepared(kinds, params, tmps, PARAMS, before, base, refs, mem)
    ensures Ready(kinds, params, tmps, refs)
  {
    assert forall k :: 0 <= k < PARAMS ==> ParamOk(before, kinds[k], params[k]);
  }

  /** Each parameter is brought up to date from what the secure side returned for it. */
  ghost predicate AllTaken(kinds: seq<nat>, params: seq<Param>, refs: seq<Ref>, outs: seq<IoParam>,
                           params': seq<Param>) {
    && |kinds| == |params| == |refs| == |outs| >= |params'|
    && forall k :: 0 <= k < |params'| ==> TakenOver(kinds[k], params[k], refs[k], outs[k], params'[k])
  }

  lemma TakenNext(kinds: seq<nat>, params: seq<Param>, refs: seq<Ref>, outs: seq<IoParam>, params': seq<Param>,
                  p: Param)
    requires AllTaken(kinds, params, refs, outs, params') && |params'| < |kinds|
    requires TakenOver(kinds[|params'|], params[|params'|], refs[|params'|], outs[|params'|], p)
    ensures AllTaken(kinds, params, refs, outs, params' + [p])
  {
  }

  method PostProcessOperation(c: Common, kinds: seq<nat>, params: seq<Param>, outs: seq<IoParam>,
                              tmps: seq<SharedMemory>,
                              ghost refs: seq<Ref>) returns (params': seq<Param>)
    requires Ready(kinds, params, tmps, refs) && |outs| == PARAMS && c.driver.Valid() && AllFit(c.driver.mem, refs)
    modifies c.driver`mem
    ensures c.driver.Valid() && c.driver.mem == DeliverOut(old(c.driver.mem), refs, Sizes(outs))
    ensures |params'| == PARAMS && AllTaken(kinds, params, refs, outs, params')
  {
    params' := [];
    ghost var before, rets := c.driver.mem, Sizes(outs);
    assert refs[..0] == [] && rets[..0] == [];
    var n := 0;
    while n < PARAMS
      invariant 0 <= n <= PARAMS && |params'| == n && c.driver.Valid()
      invariant Delivering(before, refs, rets, n, c.driver.mem)
      invariant AllTaken(kinds, params, refs, outs, params')
    {
      DeliverNext(before, refs, rets, n, c.driver.mem);
      assert ReadyOne(kinds[n], params[n], tmps[n], refs[n]);
      var p := PostProcessOne(c, kinds[n], params[n], tmps[n], outs[n]);
      TakenNext(kinds, params, refs, outs, params', p);
      params' := params' + [p];
      n := n + 1;
    }
    DeliveredAll(before, refs, rets, c.driver.mem);
  }

  // ----- the call

  /**
   A call that reached the secure world and came back: what was shared with it, what it left there and the sizes
   it returned.
   */
  datatype Transaction = Transaction(base: Memory, refs: seq<Ref>, mid: Memory, outs: seq<IoParam>)

  /** The transaction explains the client's memory: inputs staged, any effect on mapped blocks, outputs delivered. */
  ghost predicate Carried(tx: Transaction, mapped: set<int>, before: Memory, after: Memory) {
    && AllFit(tx.base, tx.refs) && Separate(tx.refs) && |tx.outs| == |tx.refs|
    && (forall b :: b in before ==> b in tx.base && tx.base[b] == before[b])
    && SameShape(tx.base, tx.mid) && AllFit(tx.mid, tx.refs)
    && (forall b :: b in tx.base && b !in mapped ==> tx.mid[b] == StageIn(tx.base, tx.refs)[b])
    && after.Keys == before.Keys
    && (forall b :: b in before ==> after[b] == DeliverOut(tx.mid, tx.refs, Sizes(tx.outs))[b])
  }

  /** Client memory that is neither mapped nor a shadow buffer has not changed. */
  ghost predicate ClientSame(kinds: seq<nat>, params: seq<Param>, mapped: map<int, nat>, before: Memory, after: Memory)
    requires |kinds| == |params|
  {
    && before.Keys == after.Keys
    && forall b :: b in before && b !in mapped && NoShadow(kinds, params, b) ==> after[b] == before[b]
  }

  ghost predicate NoShadow(kinds: seq<nat>, params: seq<Param>, b: int)
    requires |kinds| == |params|
  {
    forall k :: 0 <= k < |kinds| ==> RefOf(kinds[k], params[k], NULL).shared != b
  }

  /** Staging never touches client memory. */
  lemma PreparedSparesClients(kinds: seq<nat>, params: seq<Param>, tmps: seq<SharedMemory>, n: nat,
                              before: Memory, base: Memory, refs: seq<Ref>, mem: Memory, b: int)
    requires Prepared(kinds, params, tmps, n, before, base, refs, mem) && b in before && NoShadow(kinds, params, b)
    ensures b in mem && mem[b] == before[b]
  {
    forall i | 0 <= i < |refs|
      ensures refs[i].shared != b
    {
      assert RefOf(kinds[i], params[i], NULL).shared != b;
    }
    StageElsewhere(base, refs, b);
  }

  /** A call that did not come back leaves client memory as it was. */
  lemma ClientSpared(kinds: seq<nat>, params: seq<Param>, tmps: seq<SharedMemory>, n: nat, before: Memory, base: Memory,
                     refs: seq<Ref>, mem: Memory, mapped: map<int, nat>, after: Memory)
    requires Prepared(kinds, params, tmps, n, before, base, refs, mem) && after.Keys == before.Keys
    requires forall b :: b in before && b !in mapped && b in mem ==> after[b] == mem[b]
    ensures ClientSame(kinds, params, mapped, before, after)
  {
    forall b | b in before && b !in mapped && NoShadow(kinds, params, b)
      ensures after[b] == before[b]
    {
      PreparedSparesClients(kinds, params, tmps, n, before, base, refs, mem, b);
    }
  }

  /**
   A byte of client memory that differs after a call was delivered by an output reference, within its returned
   size, and is the secure side's byte.
   */
  lemma ClientSeesOutputsOnly(tx: Transaction, mapped: set<int>, before: Memory, after: Memory, b: int, j: nat)
    requires Carried(tx, mapped, before, after)
    requires b in before && b !in mapped && j < |before[b]|
    requires forall i :: 0 <= i < |tx.refs| ==> tx.refs[i].shared != b
    ensures |after[b]| == |before[b]|
    ensures after[b][j] != before[b][j] ==>
              exists i :: 0 <= i < |tx.refs| && Delivers(tx.refs[i], tx.outs[i].size, b, j) &&
                          after[b][j] == tx.mid[tx.refs[i].shared][j]
  {
    StageElsewhere(tx.base, tx.refs, b);
    DeliveryIsFound(tx.mid, tx.refs, Sizes(tx.outs), b, j);
    OnlyOutputsChange(tx.mid, tx.refs, Sizes(tx.outs), b, j);
  }

  /** A client block that one output reference alone names: exactly the returned prefix of the range is delivered. */
  lemma CallDelivers(tx: Transaction, mapped: set<int>, before: Memory, after: Memory, k: nat, r: Ref)
    requires Carried(tx, mapped, before, after) && k < |tx.refs| && r == tx.refs[k] && r.Shadowed() && r.output
    requires forall i :: 0 <= i < |tx.refs| && i != k ==> tx.refs[i].client != r.client
    requires r.client in before && r.client !in mapped
    ensures r.off + r.len <= |before[r.client]| && r.off + r.len <= |tx.mid[r.shared]|
    ensures after[r.client] ==
            if tx.outs[k].size > r.len then before[r.client]
            else before[r.client][..r.off] + tx.mid[r.shared][r.off..r.off + tx.outs[k].size] +
                 before[r.client][r.off + tx.outs[k].size..]
  {
    StageElsewhere(tx.base, tx.refs, r.client);
    DeliverSole(tx.mid, tx.refs, Sizes(tx.outs), k);
  }

  /**
   Over a whole call with any mix of parameters, a client block that one in-out reference alone names ends up
   as if the secure side had worked on it in place, seen through the returned size.
   */
  lemma CallIsInPlace(tx: Transaction, mapped: set<int>, before: Memory, after: Memory, k: nat, r: Ref,
                      effect: Bytes -> Bytes)
    requires Carried(tx, mapped, before, after) && k < |tx.refs| && r == tx.refs[k]
    requires Fits(tx.base, r) && Fits(tx.mid, r)
    requires r.Shadowed() && r.input && r.output && r.client in before && r.client !in mapped
    requires forall i :: 0 <= i < |tx.refs| && i != k ==> tx.refs[i].client != r.client
    requires tx.mid[r.shared][r.off..r.off + r.len] ==
             effect(StageIn(tx.base, tx.refs)[r.shared][r.off..r.off + r.len])
    ensures r.off + r.len <= |before[r.client]| && |effect(before[r.client][r.off..r.off + r.len])| == r.len
    ensures StageIn(tx.base, tx.refs)[r.shared][r.off..r.off + r.len] == before[r.client][r.off..r.off + r.len]
    ensures after[r.client] == InPlace(before[r.client], r.off, r.len, effect, tx.outs[k].size)
  {
    StageElsewhere(tx.base, tx.refs, r.client);
    StageRange(tx.base, tx.refs, k);
    ShadowIsInPlace(tx.base, tx.refs, tx.mid, Sizes(tx.outs), k, r, effect);
  }

  /** The blocks the secure side can write to: those mapped before, and the temporary ones. */
  ghost function Shared(mapped: map<int, nat>, before: Memory, base: Memory): set<int> {
    mapped.Keys + (base.Keys - before.Keys)
  }

  lemma MappedIsShared(was: Books, tmps: seq<SharedMemory>, now: Books, before: Memory, base: Memory)
    requires Balanced(was, tmps, now) && was.blocks == before.Keys && now.blocks == base.Keys
    ensures now.mapped.Keys <= Shared(was.mapped, before, base)
  {
    forall b | b in now.mapped
      ensures b in Shared(was.mapped, before, base)
    {
      if b in Blocks(tmps) {
        assert b in now.blocks && b !in now.blocks - Blocks(tmps);
      } else {
        assert b in now.mapped - Blocks(tmps);
      }
    }
  }

  function Last(visits: seq<Visit>): Visit
    requires visits != []
  {
    visits[|visits| - 1]
  }

  /** The caller learns whether the visit came back, and with what result. */
  ghost predicate Reports(v: Visit, called: bool, res: Code) {
    (called <==> v.result.Back?) && res == v.result.Res()
  }

  /** The ioctl: shared memory may come back changed, the books do not. */
  method CallSecureWorld(c: Common, to: Target, ios: seq<IoParam>, tmps: seq<SharedMemory>, ghost was: Books,
                         ghost before: Memory, ghost base: Memory)
    returns (end: Outcome, outs: seq<IoParam>)
    requires Ledger(c, tmps, was) && to.fd in c.driver.openFds
    requires was.blocks == before.Keys && SameShape(base, c.driver.mem)
    modifies c.driver`mem, c.driver`trail, c.driver`visits
    ensures Ledger(c, tmps, was) && c.driver.trail == old(c.driver.trail) && |outs| == |ios|
    ensures c.driver.visits == old(c.driver.visits) +
                               [Visit(to, ios, c.driver.idOf, old(c.driver.mem), c.driver.mem, outs, end)]
    ensures SameShape(old(c.driver.mem), c.driver.mem)
    ensures forall b :: b in c.driver.mem && b !in Shared(was.mapped, before, base) ==>
                          c.driver.mem[b] == old(c.driver.mem)[b]
  {
    MappedIsShared(was, tmps, BooksOf(c.driver), before, base);
    end, outs := c.driver.Invoke(to, ios);
    assert BooksOf(c.driver) == old(BooksOf(c.driver));
  }

  /** Taking the outputs over leaves the books alone. */
  method TakeOver(c: Common, kinds: seq<nat>, params: seq<Param>, outs: seq<IoParam>, tmps: seq<SharedMemory>,
                  ghost was: Books, ghost refs: seq<Ref>) returns (params': seq<Param>)
    requires Ledger(c, tmps, was) && Ready(kinds, params, tmps, refs) && |outs| == PARAMS && AllFit(c.driver.mem, refs)
    modifies c.driver`mem
    ensures Ledger(c, tmps, was) && c.driver.mem == DeliverOut(old(c.driver.mem), refs, Sizes(outs))
    ensures |params'| == PARAMS && AllTaken(kinds, params, refs, outs, params')
  {
    params' := PostProcessOperation(c, kinds, params, outs, tmps, refs);
    assert BooksOf(c.driver) == old(BooksOf(c.driver));
  }

  lemma FitSameShape(a: Memory, b: Memory, refs: seq<Ref>)
    requires AllFit(a, refs) && SameShape(a, b)
    ensures AllFit(b, refs)
  {
  }

  /** The call into the secure world and, if it came back, the outputs. */
  method Transact(c: Common, to: Target, kinds: seq<nat>, params: seq<Param>, ios: seq<IoParam>,
                  tmps: seq<SharedMemory>,
                  ghost was: Books, ghost before: Memory, ghost base: Memory, ghost refs: seq<Ref>)
    returns (res: Code, params': seq<Param>, called: bool, ghost mid: Memory, outs: seq<IoParam>)
    requires Ready(kinds, params, tmps, refs) && AllFit(base, refs) && c.driver.mem == StageIn(base, refs)
    requires Ledger(c, tmps, was) && was.blocks == before.Keys && to.fd in c.driver.openFds && |ios| == PARAMS
    modifies c.driver`mem, c.driver`trail, c.driver`visits
    ensures Ledger(c, tmps, was) && c.driver.trail == old(c.driver.trail)
    ensures |params'| == |outs| == PARAMS
    ensures |c.driver.visits| == |old(c.driver.visits)| + 1
    ensures var v := Last(c.driver.visits);
            && c.driver.visits == old(c.driver.visits) + [v] && Reports(v, called, res)
            && v == Visit(to, ios, c.driver.idOf, StageIn(base, refs), mid, outs, v.result)
    ensures SameShape(base, mid) && AllFit(mid, refs)
    ensures forall b :: b in base && b !in Shared(was.mapped, before, base) ==> mid[b] == StageIn(base, refs)[b]
    ensures c.driver.mem == if called then DeliverOut(mid, refs, Sizes(outs)) else mid
    ensures !called ==> params' == params && res != SUCCESS
    ensures called ==> AllTaken(kinds, params, refs, outs, params')
  {
    var end;
    end, outs := CallSecureWorld(c, to, ios, tmps, was, before, base);
    mid, params', called := c.driver.mem, params, false;
    FitSameShape(base, mid, refs);
    if end.Lost? {
      res := if end.errno == ENOMEM then ERROR_OUT_OF_MEMORY else ERROR_GENERIC;
      return;
    }
    params' := TakeOver(c, kinds, params, outs, tmps, was, refs);
    res, called := end.code, true;
  }

  /**
   One visit to the secure world: it was told of the ranges of the transaction, found the staged memory there,
   and left what the transaction says.
   */
  ghost predicate Visited(to: Target, kinds: seq<nat>, params: seq<Param>, before: Memory, tx: Transaction,
                          was: seq<Visit>, now: seq<Visit>) {
    && |now| == |was| + 1 && now[..|was|] == was
    && var v := Last(now);
    && v.to == to && Told(kinds, params, v.params, tx.refs, v.ids) && |tx.refs| == |tx.outs| == PARAMS
    && (forall b :: b in before ==> b in tx.base && tx.base[b] == before[b])
    && AllFit(tx.base, tx.refs) && v.seen == StageIn(tx.base, tx.refs) && v.left == tx.mid && v.outs == tx.outs
  }

  /** The references of a call are those of its parameters, each temporary one with a block of its own that is new. */
  ghost predicate Refers(kinds: seq<nat>, params: seq<Param>, before: Memory, refs: seq<Ref>) {
    && |refs| <= |kinds| == |params|
    && (forall k :: 0 <= k < |refs| ==> refs[k] == RefOf(kinds[k], params[k], refs[k].shared))
    && (forall k :: 0 <= k < |refs| && IsTemp(kinds[k]) ==> refs[k].shared > 0 && refs[k].shared !in before)
    && (forall k, l :: 0 <= k < l < |refs| && IsTemp(kinds[k]) && IsTemp(kinds[l]) ==> refs[k].shared != refs[l].shared)
  }

  lemma PreparedRefers(kinds: seq<nat>, params: seq<Param>, tmps: seq<SharedMemory>, n: nat,
                       before: Memory, base: Memory, refs: seq<Ref>, mem: Memory)
    requires Prepared(kinds, params, tmps, n, before, base, refs, mem) && Distinct(tmps)
    ensures Refers(kinds, params, before, refs)
  {
    forall k | 0 <= k < n
      ensures refs[k] == RefOf(kinds[k], params[k], refs[k].shared)
    {
      assert refs[k] == RefOf(kinds[k], params[k], tmps[k].buffer);
    }
  }

  /** As `Carried`, with the temporary blocks still there. */
  ghost predicate Carrying(tx: Transaction, mapped: set<int>, before: Memory, after: Memory) {
    && AllFit(tx.base, tx.refs) && Separate(tx.refs) && |tx.outs| == |tx.refs|
    && (forall b :: b in before ==> b in tx.base && tx.base[b] == before[b])
    && SameShape(tx.base, tx.mid) && AllFit(tx.mid, tx.refs)
    && (forall b :: b in tx.base && b !in mapped ==> tx.mid[b] == StageIn(tx.base, tx.refs)[b])
    && after == DeliverOut(tx.mid, tx.refs, Sizes(tx.outs))
  }

  lemma CarryingToCarried(tx: Transaction, mapped: set<int>, before: Memory, mem: Memory, after: Memory)
    requires Carrying(tx, mapped, before, mem) && Within(after, mem) && after.Keys == before.Keys
    ensures Carried(tx, mapped, before, after)
  {
  }

  /** The call with all parameters prepared. */
  method CallPrepared(c: Common, to: Target, kinds: seq<nat>, params: seq<Param>, ios: seq<IoParam>,
                      tmps: seq<SharedMemory>,
                      ghost was: Books, ghost before: Memory, ghost base: Memory, ghost refs: seq<Ref>)
    returns (res: Code, params': seq<Param>, called: bool, ghost tx: Transaction)
    requires OpOk(before, kinds, params) && Prepared(kinds, params, tmps, PARAMS, before, base, refs, c.driver.mem)
    requires Ledger(c, tmps, was) && was.blocks == before.Keys && to.fd in c.driver.openFds
    requires |ios| == PARAMS && Told(kinds, params, ios, refs, c.driver.idOf)
    modifies c.driver`mem, c.driver`trail, c.driver`visits
    ensures Ledger(c, tmps, was) && c.driver.trail == old(c.driver.trail)
    ensures tx.base == base && tx.refs == refs &&
            Visited(to, kinds, params, before, tx, old(c.driver.visits), c.driver.visits)
    ensures Reports(Last(c.driver.visits), called, res)
    ensures Last(c.driver.visits).ids == c.driver.idOf
    ensures called ==>
              && Carrying(tx, Shared(was.mapped, before, base), before, c.driver.mem)
              && |params'| == PARAMS && AllTaken(kinds, params, tx.refs, tx.outs, params')
    ensures !called ==>
              && params' == params && res != SUCCESS
              && forall b :: b in before && b !in was.mapped ==>
                               b in c.driver.mem && b in old(c.driver.mem) && c.driver.mem[b] == old(c.driver.mem)[b]
  {
    PreparedIsSeparate(kinds, params, tmps, PARAMS, before, base, refs, c.driver.mem);
    PreparedIsReady(kinds, params, tmps, before, base, refs, c.driver.mem);
    var outs;
    ghost var mid;
    res, params', called, mid, outs := Transact(c, to, kinds, params, ios, tmps, was, before, base, refs);
    tx := Transaction(base, refs, mid, outs);
  }

  /** Preparation, call and outputs: everything but giving the temporary blocks up again. */
  method PrepareAndCall(c: Common, ctx: Context, to: Target, wide: bool, kinds: seq<nat>, params: seq<Param>,
                        ghost was: Books)
    returns (res: Code, params': seq<Param>, called: bool, tmps: seq<SharedMemory>, ghost tx: Transaction,
             ghost ready: seq<SharedMemory>, ghost staged: Memory)
    requires to.fd == ctx.fd
    requires c.driver.Valid() && ctx.fd in c.driver.openFds && OpOk(c.driver.mem, kinds, params) &&
             was == BooksOf(c.driver)
    modifies c.driver`mem, c.driver`mapped, c.driver`idOf, c.driver`refused, c.driver`live, c.driver`trail,
             c.driver`visits
    ensures Ledger(c, tmps, was) && c.driver.trail == old(c.driver.trail)
    ensures Freeable(kinds, tmps, FirstUnreached(wide, |tx.refs|))
    ensures wide ==> res == ERROR_BAD_PARAMETERS && tx.refs == []
    ensures !wide ==> StopsAt(kinds, params, |tx.refs|, res)
    ensures Prepared(kinds, params, ready, |tx.refs|, old(c.driver.mem), tx.base, tx.refs, staged)
    ensures Refers(kinds, params, old(c.driver.mem), tx.refs)
    ensures if |tx.refs| == PARAMS
            then Visited(to, kinds, params, old(c.driver.mem), tx, old(c.driver.visits), c.driver.visits)
            else !called && c.driver.visits == old(c.driver.visits)
    ensures KeepsIds(old(c.driver.mem), old(c.driver.idOf), c.driver.idOf)
    ensures |tx.refs| == PARAMS ==>
              Last(c.driver.visits).ids == c.driver.idOf && Reports(Last(c.driver.visits), called, res)
    ensures called ==>
              && Carrying(tx, Shared(was.mapped, old(c.driver.mem), tx.base), old(c.driver.mem), c.driver.mem)
              && |params'| == PARAMS && AllTaken(kinds, params, tx.refs, tx.outs, params')
    ensures !called ==>
              && params' == params && res != SUCCESS
              && forall b :: b in old(c.driver.mem) && b !in was.mapped ==>
                               b in c.driver.mem && b in staged && c.driver.mem[b] == staged[b]
  {
    ghost var before := c.driver.mem;
    var ios;
    ghost var base, refs;
    params', called := params, false;
    res, ios, tmps, base, refs, ready := PreProcessOperation(c, ctx, wide, kinds, params, was);
    staged := c.driver.mem;
    tx := Transaction(base, refs, base, []);
    PreparedRefers(kinds, params, ready, |refs|, before, base, refs, staged);
    if res == SUCCESS {
      res, params', called, tx := CallPrepared(c, to, kinds, params, ios, tmps, was, before, base, refs);
    }
  }

  /**
   TEEC_InvokeCommand with an operation. Whatever the secure side does and whichever step fails, every temporary
   block is released, and the books are what they were. Only a preparation that stops in front of a temporary
   parameter has a side effect: descriptor zero is closed. Where it stops follows from the parameters, but for
   temporary memory that could not be mapped, and a call that was made has not stopped at all.
   */
  method InvokeOperation(c: Common, ctx: Context, to: Target, wide: bool, kinds: seq<nat>, params: seq<Param>)
    returns (res: Code, params': seq<Param>, called: bool, ghost tx: Transaction)
    requires to.fd == ctx.fd
    requires c.driver.Valid() && ctx.fd in c.driver.openFds && OpOk(c.driver.mem, kinds, params)
    modifies c.driver`mem, c.driver`mapped, c.driver`idOf, c.driver`refused, c.driver`live, c.driver`openFds,
             c.driver`trail, c.driver`visits
    ensures c.driver.Valid() && BooksOf(c.driver) == old(BooksOf(c.driver))
    ensures wide ==> res == ERROR_BAD_PARAMETERS && tx.refs == []
    ensures !wide ==> StopsAt(kinds, params, |tx.refs|, res)
    ensures Refers(kinds, params, old(c.driver.mem), tx.refs)
    ensures if |tx.refs| == PARAMS
            then Visited(to, kinds, params, old(c.driver.mem), tx, old(c.driver.visits), c.driver.visits)
            else !called && c.driver.visits == old(c.driver.visits)
    ensures KeepsIds(old(c.driver.mem), old(c.driver.idOf), c.driver.idOf)
    ensures |tx.refs| == PARAMS ==>
              Last(c.driver.visits).ids == c.driver.idOf && Reports(Last(c.driver.visits), called, res)
    ensures called ==>
              && Carried(tx, Shared(old(c.driver.mapped), old(c.driver.mem), tx.base), old(c.driver.mem), c.driver.mem)
              && |params'| == PARAMS && AllTaken(kinds, params, tx.refs, tx.outs, params')
    ensures !called ==>
              && params' == params && res != SUCCESS
              && ClientSame(kinds, params, old(c.driver.mapped), old(c.driver.mem), c.driver.mem)
    ensures var stray := Overlooked(kinds, FirstUnreached(wide, |tx.refs|));
            && c.driver.openFds == (if stray then old(c.driver.openFds) - {0} else old(c.driver.openFds))
            && (!stray ==> c.driver.trail == old(c.driver.trail))
  {
    ghost var was, before := BooksOf(c.driver), c.driver.mem;
    var tmps;
    ghost var ready, staged;
    res, params', called, tmps, tx, ready, staged := PrepareAndCall(c, ctx, to, wide, kinds, params, was);
    ghost var mem := c.driver.mem;
    FreeFrom(c, kinds, tmps, FirstUnreached(wide, |tx.refs|), was);
    if called {
      CarryingToCarried(tx, Shared(was.mapped, before, tx.base), before, mem, c.driver.mem);
    } else {
      ClientSpared(kinds, params, ready, |tx.refs|, before, tx.base, tx.refs, staged, was.mapped, c.driver.mem);
    }
  }

  /** TEEC_InvokeCommand. Without an operation the secure world is called with four empty parameters. */
  method InvokeCommand(c: Common, session: Session?, cmd: nat, op: Option<Operation>)
    returns (res: Code, op': Option<Operation>, called: bool, ghost tx: Transaction)
    requires c.Valid() && (session != null ==> session in c.sessions)
    requires op.Some? ==> OpOk(c.driver.mem, Kinds(op.value.paramTypes), op.value.params)
    modifies c.driver`mem, c.driver`mapped, c.driver`idOf, c.driver`refused, c.driver`live, c.driver`openFds,
             c.driver`trail, c.driver`visits
    ensures c.Valid() && BooksOf(c.driver) == old(BooksOf(c.driver))
    ensures session == null ==>
              && res == ERROR_BAD_PARAMETERS && !called && op' == op
              && c.driver.mem == old(c.driver.mem) && c.driver.visits == old(c.driver.visits)
              && c.driver.openFds == old(c.driver.openFds) && c.driver.trail == old(c.driver.trail)
    ensures !called ==> op' == op && res != SUCCESS
    ensures op'.Some? <==> op.Some?
    ensures session != null && op.Some? ==>
              var kinds, params, wide := Kinds(op.value.paramTypes), op.value.params, op.value.paramTypes > 0xffff;
              var to := Target(session.ctx.fd, session.id, cmd);
              && (wide ==> res == ERROR_BAD_PARAMETERS && tx.refs == [])
              && (!wide ==> StopsAt(kinds, params, |tx.refs|, res))
              && Refers(kinds, params, old(c.driver.mem), tx.refs)
              && (if |tx.refs| == PARAMS
                  then Visited(to, kinds, params, old(c.driver.mem), tx, old(c.driver.visits), c.driver.visits)
                  else !called && c.driver.visits == old(c.driver.visits))
              && KeepsIds(old(c.driver.mem), old(c.driver.idOf), c.driver.idOf)
              && (|tx.refs| == PARAMS ==>
                    Last(c.driver.visits).ids == c.driver.idOf && Reports(Last(c.driver.visits), called, res))
              && var stray := Overlooked(kinds, FirstUnreached(wide, |tx.refs|));
              && c.driver.openFds == (if stray then old(c.driver.openFds) - {0} else old(c.driver.openFds))
              && (!stray ==> c.driver.trail == old(c.driver.trail))
    ensures called && op.Some? ==>
              && Carried(tx, Shared(old(c.driver.mapped), old(c.driver.mem), tx.base), old(c.driver.mem), c.driver.mem)
              && |op'.value.params| == PARAMS
              && AllTaken(Kinds(op.value.paramTypes), op.value.params, tx.refs, tx.outs, op'.value.params)
    ensures !called && op.Some? ==>
              ClientSame(Kinds(op.value.paramTypes), op.value.params, old(c.driver.mapped), old(c.driver.mem),
                         c.driver.mem)
    ensures session != null && op.None? ==>
              && |c.driver.visits| == |old(c.driver.visits)| + 1
              && Last(c.driver.visits).to == Target(session.ctx.fd, session.id, cmd)
              && Last(c.driver.visits).params == seq(PARAMS, _ => IoParam(NONE, 0, 0, 0, 0, 0))
              && Reports(Last(c.driver.visits), called, res)
              && c.driver.openFds == old(c.driver.openFds) && c.driver.trail == old(c.driver.trail)
              && forall b :: b in c.driver.mem && b !in c.driver.mapped ==> c.driver.mem[b] == old(c.driver.mem)[b]
  {
    op', called, tx := op, false, Transaction(map[], [], map[], []);
    if session == null {
      return ERROR_BAD_PARAMETERS, op', called, tx;
    }
    var to := Target(session.ctx.fd, session.id, cmd);
    if op.None? {
      var none := IoParam(NONE, 0, 0, 0, 0, 0);
      var end, outs := c.driver.Invoke(to, [none, none, none, none]);
      if end.Lost? {
        return if end.errno == ENOMEM then ERROR_OUT_OF_MEMORY else ERROR_GENERIC, op', called, tx;
      }
      return end.code, op', true, tx;
    }
    var kinds, params := Kinds(op.value.paramTypes), [];
    res, params, called, tx := InvokeOperation(c, session.ctx, to, op.value.paramTypes > 0xffff, kinds,
                                               op.value.params);
    op' := Some(Operation(op.value.paramTypes, params));
  }
}
