/** The proxy's side of the message channel to the secure world. */
module Ipc {
  import opened Octets
  import opened Wrappers

  datatype StorageErr =
    | NO_ERROR | ERR_GENERIC | ERR_NOT_VALID | ERR_UNIMPLEMENTED | ERR_ACCESS | ERR_NOT_FOUND | ERR_EXIST

  /** The header of a request, and of its response. */
  datatype Msg = Msg(cmd: nat, opId: nat, flags: nat, size: nat, result: StorageErr)

  datatype Response = Response(msg: Msg, payload: Option<Bytes>)

  const HEADER_SIZE: nat := 24
  const REQ_BUFFER_SIZE: nat := 65536

  /** `cmd` with the response bit, the lowest one, set. */
  function RespCmd(cmd: nat): (c: nat)
    ensures c % 2 == 1 && c / 2 == cmd / 2
  {
    cmd - cmd % 2 + 1
  }

  /** `r` is a proper response to request `m`: the same operation and flags, and a payload only on success. */
  ghost predicate Answers(m: Msg, r: Response) {
    && r.msg.opId == m.opId && r.msg.flags == m.flags && r.msg.size == m.size
    && r.msg.cmd % 2 == 1 && r.msg.cmd / 2 == m.cmd / 2
    && (r.payload.Some? ==> r.msg.result == NO_ERROR)
  }

  /** One readv: it fails, or delivers one message. */
  datatype Incoming = ReadError | Delivered(raw: Bytes)

  /** What a received message must satisfy to be handed on: a whole header whose size field counts every byte. */
  predicate WellFormed(raw: Bytes) {
    HEADER_SIZE <= |raw| <= HEADER_SIZE + REQ_BUFFER_SIZE && Word32(raw, 12) == |raw|
  }

  function Header(raw: Bytes): Msg
    requires |raw| >= HEADER_SIZE
  {
    Msg(Word32(raw, 0), Word32(raw, 4), Word32(raw, 8), Word32(raw, 12), NO_ERROR)
  }

  /** Command, operation, flags and size, each a little-endian word, in that order. */
  lemma HeaderBytes(raw: Bytes)
    requires |raw| >= HEADER_SIZE
    ensures var m := Header(raw);
            && m.cmd % 0x100 == raw[0] as int && m.opId % 0x100 == raw[4] as int
            && m.flags % 0x100 == raw[8] as int && m.size % 0x100 == raw[12] as int
            && m.cmd / 0x100_0000 == raw[3] as int && m.opId / 0x100_0000 == raw[7] as int
            && m.flags / 0x100_0000 == raw[11] as int && m.size / 0x100_0000 == raw[15] as int
  {
    LittleEndian(raw, 0);
    LittleEndian(raw, 4);
    LittleEndian(raw, 8);
    LittleEndian(raw, 12);
  }

  class Channel {
    /** Every response handed to writev, in order, whether or not the write succeeded. */
    var sent: seq<Response>

    /** The last response could not be written. */
    ghost var down: bool

    constructor ()
      ensures sent == [] && !down
    {
      sent, down := [], false;
    }

    /** ipc_get_msg: scatter one message over the header and the request buffer, and check its size. */
    method GetMsg(incoming: Incoming, buf: array<Byte>) returns (rc: int, msg: Msg)
      requires buf.Length == REQ_BUFFER_SIZE + 1
      modifies buf
      ensures rc >= 0 <==> incoming.Delivered? && WellFormed(incoming.raw)
      ensures rc >= 0 ==>
                && rc == |incoming.raw| - HEADER_SIZE
                && msg == Header(incoming.raw)
                && buf[..rc] == incoming.raw[HEADER_SIZE..]
                && buf[rc..] == old(buf[rc..])
    {
      msg := Msg(0, 0, 0, 0, NO_ERROR);
      if incoming.ReadError? {
        return -1, msg;
      }
      var raw := incoming.raw;
      if |raw| > HEADER_SIZE + REQ_BUFFER_SIZE {
        return -1, msg; // does not fit the two buffers: the channel reports an error
      }
      if |raw| < HEADER_SIZE {
        return -1, msg;
      }
      msg := Header(raw);
      rc := |raw| - HEADER_SIZE;
      forall j | 0 <= j < rc {
        buf[j] := raw[HEADER_SIZE + j];
      }
      if msg.size != |raw| {
        return -1, msg;
      }
    }

    /** ipc_respond. */
    method Respond(msg: Msg, out: Option<Bytes>) returns (rc: int)
      modifies this
      ensures rc == (if down then -1 else 0)
      ensures sent == old(sent) + [Response(msg.(cmd := RespCmd(msg.cmd)), out)]
    {
      var failed: bool := *;
      sent, down := sent + [Response(msg.(cmd := RespCmd(msg.cmd)), out)], failed;
      return if failed then -1 else 0;
    }
  }
}
