/**
 The TEE client library: contexts, sessions and shared memory over a driver that
 keeps count of what is open, mapped and live. The driver also leaves a trail of
 faults (a call on a descriptor that is not open, a second close, an unmap of the
 wrong length) and of closes, and records every visit to the secure world.
 */
module TeeClient {
  import opened Octets
  import opened Wrappers
  import opened SharedRefs

  const NULL: int := 0
  const MAP_FAILED: int := -1

  /** A 32-bit result code. */
  type Code = n: nat | n < WORD32

  const SUCCESS: nat := 0
  const ERROR_GENERIC: nat := 0xFFFF_0000
  const ERROR_BAD_PARAMETERS: nat := 0xFFFF_0006
  const ERROR_ITEM_NOT_FOUND: nat := 0xFFFF_0008
  const ERROR_OUT_OF_MEMORY: nat := 0xFFFF_000C

  const ENOMEM: nat := 12

  const MEM_INPUT: nat := 1
  const MEM_OUTPUT: nat := 2

  const MAX_DEV_SEQ: nat := 10

  predicate IsInput(flags: nat) {
    flags % 2 == 1
  }

  predicate IsOutput(flags: nat) {
    flags / 2 % 2 == 1
  }

  class Context {
    var fd: int

    constructor ()
      ensures fd == 0
    {
      fd := 0;
    }
  }

  class Session {
    var ctx: Context?
    var id: nat

    constructor ()
      ensures ctx == null && id == 0
    {
      ctx, id := null, 0;
    }
  }

  /** TEEC_SharedMemory, a structure callers hand in by pointer; here it goes in and comes back as a value. */
  datatype SharedMemory =
    SharedMemory(buffer: int, size: nat, flags: nat, id: int, allocedSize: nat, shadow: int, registeredFd: int) {

    /** The block the driver mapped for this memory. */
    function Block(): int {
      if shadow != NULL then shadow else buffer
    }
  }

  const ZEROED: SharedMemory := SharedMemory(NULL, 0, 0, 0, 0, NULL, 0)

  /** One parameter as the driver sees it. */
  datatype IoParam = IoParam(attr: nat, a: nat, b: nat, shmId: int, offs: nat, size: nat)

  /** How an ioctl that calls the secure world ends: it fails, or comes back with a code. */
  datatype Outcome = Lost(errno: nat) | Back(code: Code) {
    /** What the library makes of it. */
    function Res(): (res: Code)
      ensures Back? ==> res == code
      ensures Lost? ==> res != SUCCESS && res >= 0x8000_0000
      ensures Lost? ==> if errno == ENOMEM then res == ERROR_OUT_OF_MEMORY else res == ERROR_GENERIC
    {
      match this
      case Back(code) => code
      case Lost(errno) => if errno == ENOMEM then ERROR_OUT_OF_MEMORY else ERROR_GENERIC
    }
  }

  /** Where a call goes: the device, the session and the command. */
  datatype Target = Target(fd: int, session: nat, cmd: nat)

  /**
   A call into the secure world: where it went, its parameters, the id of each block, memory at entry and at
   return, the parameters it returned and how it ended.
   */
  datatype Visit = Visit(to: Target, params: seq<IoParam>, ids: map<int, int>, seen: Memory, left: Memory,
                         outs: seq<IoParam>, result: Outcome)

  /** How often a call was wrong about a descriptor or a length, and the devices and sessions closed, in order. */
  datatype Trail = Trail(faults: nat, closed: seq<int>, ended: seq<(int, nat)>) {
    function Noting(fault: bool): Trail {
      this.(faults := faults + if fault then 1 else 0)
    }

    function Closing(fd: int): Trail {
      this.(closed := closed + [fd])
    }

    function Ending(fd: int, id: nat): Trail {
      this.(ended := ended + [(fd, id)])
    }
  }

  class Driver {
    var openFds: set<int>
    /** All memory of the process, mapped blocks included. */
    var mem: Memory
    /** Mapped blocks and their lengths, the id of each, and the descriptor each live id belongs to. */
    var mapped: map<int, nat>
    var idOf: map<int, int>
    var live: map<int, int>
    var sessions: set<(int, nat)>
    ghost var trail: Trail
    ghost var visits: seq<Visit>
    /** How often an open, a session or a mapping was refused, and how the last opening of a session ended. */
    ghost var refused: nat
    ghost var opening: Outcome

    constructor (mem: Memory)
      requires forall b :: b in mem ==> b > 0
      ensures Valid() && this.mem == mem
      ensures openFds == {} && mapped == map[] && live == map[] && sessions == {}
      ensures trail == Trail(0, [], []) && visits == [] && refused == 0
    {
      this.mem, openFds, mapped, idOf, live, sessions := mem, {}, map[], map[], map[], {};
      trail, visits, refused, opening := Trail(0, [], []), [], 0, Back(SUCCESS);
    }

    ghost predicate Valid()
      reads this
    {
      && (forall b :: b in mem ==> b > 0)
      && (forall b :: b in mapped ==> b in mem && |mem[b]| == mapped[b])
      && (forall id :: id in live ==> live[id] > 0)
    }

    /** open(2) and the two ioctls of teec_open_dev; a device descriptor is positive and was not in use. */
    method OpenDev() returns (fd: int)
      modifies this`openFds, this`refused
      ensures refused == old(refused) + if fd == -1 then 1 else 0
      ensures fd == -1 || (fd > 0 && fd !in old(openFds))
      ensures openFds == if fd == -1 then old(openFds) else old(openFds) + {fd}
    {
      var f: int, versionOk: bool, hostnameOk: bool := *, *, *;
      if f <= 0 || f in openFds {
        refused := refused + 1;
        return -1;
      }
      openFds := openFds + {f};
      if !versionOk || !hostnameOk {
        openFds := openFds - {f};
        refused := refused + 1;
        return -1;
      }
      return f;
    }

    method Close(fd: int)
      modifies this`openFds, this`trail
      ensures openFds == old(openFds) - {fd}
      ensures trail == old(trail).Noting(fd !in old(openFds)).Closing(fd)
    {
      trail := trail.Noting(fd !in openFds).Closing(fd);
      openFds := openFds - {fd};
    }

    method OpenSession(fd: int) returns (end: Outcome, id: nat)
      modifies this`sessions, this`trail, this`refused, this`opening
      ensures trail == old(trail).Noting(fd !in openFds) && opening == end
      ensures refused == old(refused) + if end == Back(SUCCESS) then 0 else 1
      ensures end == Back(SUCCESS) ==> (fd, id) !in old(sessions) && sessions == old(sessions) + {(fd, id)}
      ensures end != Back(SUCCESS) ==> sessions == old(sessions)
    {
      var errno: nat := *;
      end, id := *, *;
      trail := trail.Noting(fd !in openFds);
      if fd !in openFds || (fd, id) in sessions {
        end := Lost(errno);
      }
      if end == Back(SUCCESS) {
        sessions := sessions + {(fd, id)};
      } else {
        refused := refused + 1;
      }
      opening := end;
    }

    method CloseSession(fd: int, id: nat)
      modifies this`sessions, this`trail
      ensures sessions == old(sessions) - {(fd, id)}
      ensures trail == old(trail).Noting(fd !in openFds || (fd, id) !in old(sessions)).Ending(fd, id)
    {
      trail := trail.Noting(fd !in openFds || (fd, id) !in sessions).Ending(fd, id);
      sessions := sessions - {(fd, id)};
    }

    /** mmap of a device descriptor: a fresh block with an id of its own. */
    method Mmap(fd: int, len: nat) returns (b: int)
      requires Valid()
      modifies this`mem, this`mapped, this`idOf, this`live, this`trail, this`refused
      ensures Valid() && refused == old(refused) + if b == MAP_FAILED then 1 else 0
      ensures trail == old(trail).Noting(fd !in openFds)
      ensures b == MAP_FAILED ==> mem == old(mem) && mapped == old(mapped) && live == old(live) && idOf == old(idOf)
      ensures b != MAP_FAILED ==>
                && b > 0 && fd > 0 && fd in openFds
                && b !in old(mem) && b in mem && mem == old(mem)[b := mem[b]] && |mem[b]| == len
                && b !in old(mapped) && mapped == old(mapped)[b := len]
                && b in idOf && idOf == old(idOf)[b := idOf[b]]
                && idOf[b] >= 0 && idOf[b] !in old(live) && live == old(live)[idOf[b] := fd]
    {
      var block: int, id: int, bytes: Bytes := *, *, *;
      if fd !in openFds {
        trail := trail.Noting(true);
        refused := refused + 1;
        return MAP_FAILED;
      }
      if fd <= 0 || block <= 0 || block in mem || block in mapped || id < 0 || id in live || |bytes| != len {
        refused := refused + 1;
        return MAP_FAILED;
      }
      mem, mapped := mem[block := bytes], mapped[block := len];
      idOf, live := idOf[block := id], live[id := fd];
      return block;
    }

    method Munmap(b: int, len: nat)
      requires Valid()
      modifies this`mem, this`mapped, this`trail
      ensures Valid()
      ensures b in old(mapped) ==> mem == old(mem) - {b} && mapped == old(mapped) - {b}
      ensures b !in old(mapped) ==> mem == old(mem) && mapped == old(mapped)
      ensures trail == old(trail).Noting(b !in old(mapped) || old(mapped)[b] != len)
    {
      if b !in mapped || mapped[b] != len {
        trail := trail.Noting(true);
      }
      if b in mapped {
        mem, mapped := mem - {b}, mapped - {b};
      }
    }

    method ReleaseShm(fd: int, id: int)
      requires Valid()
      modifies this`live, this`trail
      ensures Valid()
      ensures live == if id in old(live) && old(live)[id] == fd then old(live) - {id} else old(live)
      ensures trail == old(trail).Noting(fd !in openFds)
    {
      if fd !in openFds {
        trail := trail.Noting(true);
      }
      if id in live && live[id] == fd {
        live := live - {id};
      }
    }

    /** The call into the secure world. It may rewrite shared memory in any way, and return any sizes and values. */
    method Invoke(to: Target, params: seq<IoParam>) returns (end: Outcome, outs: seq<IoParam>)
      requires Valid()
      modifies this`mem, this`trail, this`visits
      ensures Valid() && |outs| == |params|
      ensures visits == old(visits) + [Visit(to, params, idOf, old(mem), mem, outs, end)]
      ensures trail == old(trail).Noting(to.fd !in openFds)
      ensures SameShape(old(mem), mem) && forall b :: b in mem && b !in mapped ==> mem[b] == old(mem)[b]
    {
      var m: Memory, errno: nat := *, *;
      end, outs := *, *;
      ghost var seen := mem;
      trail := trail.Noting(to.fd !in openFds);
      if |outs| != |params| {
        outs := params;
      }
      if to.fd !in openFds {
        end := Lost(errno);
      } else if SameShape(mem, m) && forall b :: b in mem && b !in mapped ==> m[b] == mem[b] {
        mem := m;
      }
      visits := visits + [Visit(to, params, idOf, seen, mem, outs, end)];
    }

    /** memcpy within the process. */
    method Memcpy(dst: int, src: int, off: nat, n: nat)
      requires Valid() && dst in mem && src in mem && off + n <= |mem[dst]| && off + n <= |mem[src]|
      modifies this`mem
      ensures Valid() && mem == Copy(old(mem), dst, src, off, n)
    {
      mem := Copy(mem, dst, src, off, n);
    }
  }

  class Common {
    const driver: Driver
    var contexts: set<Context>
    var sessions: set<Session>

    constructor (driver: Driver)
      requires driver.Valid()
      ensures this.driver == driver && contexts == {} && sessions == {} && Valid()
    {
      this.driver, contexts, sessions := driver, {}, {};
    }

    /**
     Every context in the table has its device open, and every session in the table is open on a context in
     the table.
     */
    ghost predicate Tables()
      reads this, driver`openFds, driver`sessions, contexts, sessions
    {
      && (forall c :: c in contexts ==> c.fd > 0 && c.fd in driver.openFds)
      && (forall c, d :: c in contexts && d in contexts && c != d ==> c.fd != d.fd)
      && (forall s :: s in sessions ==> s.ctx != null && s.ctx in contexts && (s.ctx.fd, s.id) in driver.sessions)
      && (forall s, t :: s in sessions && t in sessions && s != t ==> (s.ctx, s.id) != (t.ctx, t.id))
    }

    ghost predicate Valid()
      reads this, driver, contexts, sessions
    {
      driver.Valid() && Tables()
    }

    /** The block is mapped with the recorded length and its id is live. */
    ghost predicate Live(shm: SharedMemory)
      reads driver
    {
      && shm.id >= 0 && shm.registeredFd > 0 && shm.registeredFd in driver.openFds
      && shm.Block() > 0 && shm.Block() in driver.mapped && driver.mapped[shm.Block()] == shm.allocedSize
      && shm.id in driver.live && driver.live[shm.id] == shm.registeredFd
    }

    /** `shm` has just been mapped through `fd`; nothing else has changed. */
    twostate predicate JustMapped(shm: SharedMemory, fd: int)
      reads driver
    {
      && shm.registeredFd == fd && fd > 0 && fd in driver.openFds
      && shm.allocedSize == (if shm.size == 0 then 8 else shm.size)
      && shm.id >= 0 && shm.id !in old(driver.live) && driver.live == old(driver.live)[shm.id := fd]
      && shm.Block() > 0 && shm.Block() !in old(driver.mem) && shm.Block() !in old(driver.mapped)
      && driver.mapped == old(driver.mapped)[shm.Block() := shm.allocedSize]
      && shm.Block() in driver.mem && driver.mem == old(driver.mem)[shm.Block() := driver.mem[shm.Block()]]
      && shm.Block() in driver.idOf && driver.idOf == old(driver.idOf)[shm.Block() := shm.id]
    }

    twostate predicate SameBooks()
      reads driver
    {
      && driver.mem == old(driver.mem) && driver.mapped == old(driver.mapped)
      && driver.live == old(driver.live) && driver.idOf == old(driver.idOf)
    }

    /** A context with a device of its own enters the table. */
    method Admit(ctx: Context, fd: int)
      requires Valid() && ctx !in contexts && fd > 0 && fd in driver.openFds
      requires (forall s :: s in sessions ==> s.ctx != ctx) && forall d :: d in contexts ==> d.fd != fd
      modifies this`contexts, ctx
      ensures Valid() && contexts == old(contexts) + {ctx} && ctx.fd == fd
    {
      ctx.fd := fd;
      contexts := contexts + {ctx};
    }

    method InitializeContext(ctx: Context) returns (res: Code)
      requires Valid() && ctx !in contexts && forall s :: s in sessions ==> s.ctx != ctx
      modifies this`contexts, driver`openFds, driver`refused, ctx
      ensures Valid() && (res == SUCCESS || res == ERROR_ITEM_NOT_FOUND)
      ensures old(driver.refused) <= driver.refused <= old(driver.refused) + MAX_DEV_SEQ
      ensures res != SUCCESS <==> driver.refused == old(driver.refused) + MAX_DEV_SEQ
      ensures res == SUCCESS ==>
                && contexts == old(contexts) + {ctx} && ctx.fd > 0
                && ctx.fd !in old(driver.openFds) && driver.openFds == old(driver.openFds) + {ctx.fd}
      ensures res != SUCCESS ==>
                contexts == old(contexts) && driver.openFds == old(driver.openFds) && ctx.fd == old(ctx.fd)
    {
      var n := 0;
      while n < MAX_DEV_SEQ
        invariant n <= MAX_DEV_SEQ && Valid() && driver.refused == old(driver.refused) + n
        invariant driver.openFds == old(driver.openFds) && contexts == old(contexts) && ctx.fd == old(ctx.fd)
      {
        var fd := driver.OpenDev();
        if fd >= 0 {
          Admit(ctx, fd);
          return SUCCESS;
        }
        n := n + 1;
      }
      return ERROR_ITEM_NOT_FOUND;
    }

    /**
     TEEC_FinalizeContext of a context whose sessions have been closed; a context that is not in the table is
     left alone.
     */
    method FinalizeContext(ctx: Context)
      requires Valid() && forall s :: s in sessions ==> s.ctx != ctx
      modifies this`contexts, driver`openFds, driver`trail
      ensures Valid() && contexts == old(contexts) - {ctx}
      ensures driver.trail == if ctx in old(contexts) then old(driver.trail).Closing(ctx.fd) else old(driver.trail)
      ensures driver.openFds == if ctx in old(contexts) then old(driver.openFds) - {ctx.fd} else old(driver.openFds)
    {
      if ctx in contexts {
        driver.Close(ctx.fd);
        contexts := contexts - {ctx};
      }
    }

    /** TEEC_OpenSession without an operation, as every caller here uses it. */
    method OpenSession(ctx: Context, session: Session) returns (res: Code)
      requires Valid() && ctx in contexts && session !in sessions
      modifies this`sessions, session, driver`sessions, driver`trail, driver`refused, driver`opening
      ensures Valid() && driver.trail == old(driver.trail)
      ensures driver.refused == old(driver.refused) + if res == SUCCESS then 0 else 1
      ensures res == driver.opening.Res()
      ensures res == SUCCESS ==>
                && sessions == old(sessions) + {session} && session.ctx == ctx
                && (ctx.fd, session.id) !in old(driver.sessions)
                && driver.sessions == old(driver.sessions) + {(ctx.fd, session.id)}
      ensures res != SUCCESS ==> sessions == old(sessions) && driver.sessions == old(driver.sessions)
    {
      var end, id := driver.OpenSession(ctx.fd);
      if end.Lost? {
        return if end.errno == ENOMEM then ERROR_OUT_OF_MEMORY else ERROR_GENERIC;
      }
      if end.code == SUCCESS {
        session.ctx := ctx;
        session.id := id;
        sessions := sessions + {session};
      }
      return end.code;
    }

    method CloseSession(session: Session)
      requires Valid()
      modifies this`sessions, driver`sessions, driver`trail
      ensures Valid() && sessions == old(sessions) - {session}
      ensures driver.trail == if session in old(sessions) then old(driver.trail).Ending(session.ctx.fd, session.id)
                              else old(driver.trail)
      ensures driver.sessions ==
              if session in old(sessions) then old(driver.sessions) - {(session.ctx.fd, session.id)}
              else old(driver.sessions)
    {
      if session in sessions {
        driver.CloseSession(session.ctx.fd, session.id);
        sessions := sessions - {session};
      }
    }

    method AllocateSharedMemory(ctx: Context, shm: SharedMemory) returns (res: Code, out: SharedMemory)
      requires driver.Valid()
      modifies driver`mem, driver`mapped, driver`idOf, driver`live, driver`trail, driver`refused
      ensures driver.Valid()
      ensures ctx.fd in driver.openFds ==> driver.trail == old(driver.trail)
      ensures driver.refused == old(driver.refused) + if res == ERROR_OUT_OF_MEMORY then 1 else 0
      ensures out.size == shm.size && out.flags == shm.flags
      ensures res == ERROR_BAD_PARAMETERS <==> shm.flags == 0 || shm.flags > MEM_INPUT + MEM_OUTPUT
      ensures res == SUCCESS ==> JustMapped(out, ctx.fd) && out.shadow == NULL && Live(out)
      ensures res != SUCCESS ==> SameBooks()
      ensures res == ERROR_BAD_PARAMETERS ==> out == shm
      ensures res == ERROR_OUT_OF_MEMORY ==> out == shm.(id := -1, buffer := MAP_FAILED)
      ensures res in {SUCCESS, ERROR_BAD_PARAMETERS, ERROR_OUT_OF_MEMORY}
    {
      if shm.flags == 0 || shm.flags > MEM_INPUT + MEM_OUTPUT {
        return ERROR_BAD_PARAMETERS, shm;
      }
      var s := if shm.size == 0 then 8 else shm.size;
      var fd := ctx.fd;
      var b := driver.Mmap(fd, s);
      if b == MAP_FAILED {
        return ERROR_OUT_OF_MEMORY, shm.(buffer := b, id := -1);
      }
      return SUCCESS, shm.(buffer := b, shadow := NULL, allocedSize := s, registeredFd := fd, id := driver.idOf[b]);
    }

    method RegisterSharedMemory(ctx: Context, shm: SharedMemory) returns (res: Code, out: SharedMemory)
      requires driver.Valid()
      modifies driver`mem, driver`mapped, driver`idOf, driver`live, driver`trail, driver`refused
      ensures driver.Valid()
      ensures ctx.fd in driver.openFds ==> driver.trail == old(driver.trail)
      ensures driver.refused == old(driver.refused) + if res == ERROR_OUT_OF_MEMORY then 1 else 0
      ensures out.size == shm.size && out.flags == shm.flags && out.buffer == shm.buffer
      ensures res == ERROR_BAD_PARAMETERS <==>
              shm.flags == 0 || shm.flags > MEM_INPUT + MEM_OUTPUT || shm.buffer == NULL
      ensures res == SUCCESS ==> JustMapped(out, ctx.fd) && out.shadow > 0 && Live(out)
      ensures res != SUCCESS ==> SameBooks()
      ensures res == ERROR_OUT_OF_MEMORY ==> out.id == -1
      ensures res in {SUCCESS, ERROR_BAD_PARAMETERS, ERROR_OUT_OF_MEMORY}
    {
      if shm.flags == 0 || shm.flags > MEM_INPUT + MEM_OUTPUT {
        return ERROR_BAD_PARAMETERS, shm;
      }
      if shm.buffer == NULL {
        return ERROR_BAD_PARAMETERS, shm;
      }
      var s := if shm.size == 0 then 8 else shm.size;
      var fd := ctx.fd;
      var b := driver.Mmap(fd, s);
      if b == MAP_FAILED {
        return ERROR_OUT_OF_MEMORY, shm.(shadow := b, id := -1);
      }
      return SUCCESS, shm.(shadow := b, id := driver.idOf[b], allocedSize := s, registeredFd := fd);
    }

    /**
     TEEC_ReleaseSharedMemory: live memory is unmapped with the length it was mapped with, and its
     id is released on its own descriptor. A structure that was only zeroed is not recognised as
     empty: its descriptor, zero, is closed.
     */
    method ReleaseSharedMemory(shm: SharedMemory) returns (out: SharedMemory)
      requires driver.Valid()
      modifies driver`mem, driver`mapped, driver`live, driver`openFds, driver`trail
      ensures driver.Valid()
      ensures shm.id == -1 ==>
                out == shm && SameBooks() && driver.openFds == old(driver.openFds) && driver.trail == old(driver.trail)
      ensures shm.registeredFd < 0 ==>
                out == shm && SameBooks() && driver.openFds == old(driver.openFds) && driver.trail == old(driver.trail)
      ensures old(Live(shm)) ==>
                && driver.mem == old(driver.mem) - {shm.Block()}
                && driver.mapped == old(driver.mapped) - {shm.Block()}
                && driver.live == old(driver.live) - {shm.id}
                && driver.openFds == old(driver.openFds) && driver.trail == old(driver.trail)
      ensures shm.id == 0 && shm.registeredFd == 0 && shm.Block() == NULL ==>
                && SameBooks() && driver.openFds == old(driver.openFds) - {0}
                && driver.trail.closed == old(driver.trail.closed) + [0]
      ensures shm.id != -1 && shm.registeredFd >= 0 ==>
                out == shm.(id := -1, buffer := if shm.shadow == NULL then NULL else shm.buffer,
                shadow := NULL, registeredFd := -1, size := 0)
    {
      if shm.id == -1 {
        return shm;
      }
      var id, fd := shm.id, shm.registeredFd;
      if fd < 0 {
        return shm;
      }
      if shm.shadow != NULL {
        driver.Munmap(shm.shadow, shm.allocedSize);
      } else if shm.buffer != NULL {
        driver.Munmap(shm.buffer, shm.allocedSize);
      } else if shm.registeredFd >= 0 {
        driver.Close(shm.registeredFd);
      }
      out := shm.(id := -1);
      if out.shadow == NULL {
        out := out.(buffer := NULL);
      }
      out := out.(shadow := NULL, registeredFd := -1, size := 0);
      driver.ReleaseShm(fd, id);
    }
  }
}
