/** Splitting one RPMB request into the block commands of a single multi-command ioctl. */
module Rpmb {
  import opened Octets
  import opened Wrappers
  import opened Ipc

  const BLOCK: nat := 512
  const READ_BUF_SIZE: nat := 4096
  const READ_MULTIPLE: nat := 18
  const WRITE_MULTIPLE: nat := 25

  datatype Direction = ReliableWrite | PlainWrite | Read

  /** `data` is what a write command carries; a read carries nothing. */
  datatype MmcCmd = MmcCmd(dir: Direction, opcode: nat, blocks: nat, data: Bytes)

  /** What rpmb_send checks before it touches the device. */
  predicate Accepts(req: Bytes) {
    && |req| >= 16
    && |req| == 16 + Word32(req, 0) + Word32(req, 4)
    && SizesOk(Word32(req, 0), Word32(req, 4), Word32(req, 8))
  }

  predicate SizesOk(rel: nat, wr: nat, rd: nat) {
    rel % BLOCK == 0 && wr % BLOCK == 0 && rd % BLOCK == 0 && rd <= READ_BUF_SIZE
  }

  /** The bytes a list of commands writes, in order. */
  function Written(cmds: seq<MmcCmd>): Bytes {
    if cmds == [] then [] else cmds[0].data + Written(cmds[1..])
  }

  function Directions(cmds: seq<MmcCmd>): seq<Direction> {
    seq(|cmds|, j requires 0 <= j < |cmds| => cmds[j].dir)
  }

  /** Each write moves whole blocks, and each opcode fits its direction. */
  predicate WholeBlocks(cmds: seq<MmcCmd>) {
    forall j :: 0 <= j < |cmds| ==>
                  && cmds[j].blocks > 0
                  && cmds[j].opcode == (if cmds[j].dir == Read then READ_MULTIPLE else WRITE_MULTIPLE)
                  && |cmds[j].data| == if cmds[j].dir == Read then 0 else cmds[j].blocks * BLOCK
  }

  lemma {:induction false} WrittenOfTwo(a: seq<MmcCmd>, b: seq<MmcCmd>)
    ensures Written(a + b) == Written(a) + Written(b)
  {
    if a == [] {
      assert a + b == b;
    } else {
      assert (a + b)[1..] == a[1..] + b;
      WrittenOfTwo(a[1..], b);
    }
  }

  /** A write command for whole blocks of `data`. */
  function WriteCmd(dir: Direction, data: Bytes): (c: MmcCmd)
    requires dir != Read && data != [] && |data| % BLOCK == 0
    ensures WholeBlocks([c]) && c.dir == dir && c.data == data && Written([c]) == data
  {
    var c := MmcCmd(dir, WRITE_MULTIPLE, |data| / BLOCK, data);
    assert [c][1..] == [] && Written([c]) == data + Written([c][1..]);
    c
  }

  function ReadCmd(rd: nat): MmcCmd {
    MmcCmd(Read, READ_MULTIPLE, rd / BLOCK, [])
  }

  /** The commands of an acceptable request. */
  function Commands(payload: Bytes, rel: nat, wr: nat, rd: nat): seq<MmcCmd>
    requires |payload| == rel + wr && SizesOk(rel, wr, rd)
  {
    (if rel > 0 then [WriteCmd(ReliableWrite, payload[..rel])] else [])
    + (if wr > 0 then [WriteCmd(PlainWrite, payload[rel..])] else [])
    + (if rd > 0 then [ReadCmd(rd)] else [])
  }

  /** The commands write the payload exactly once and in order. */
  lemma CommandsTile(payload: Bytes, rel: nat, wr: nat, rd: nat)
    requires |payload| == rel + wr && SizesOk(rel, wr, rd)
    ensures Written(Commands(payload, rel, wr, rd)) == payload
  {
    var a := if rel > 0 then [WriteCmd(ReliableWrite, payload[..rel])] else [];
    var b := if wr > 0 then [WriteCmd(PlainWrite, payload[rel..])] else [];
    var c := if rd > 0 then [ReadCmd(rd)] else [];
    assert Written(c) == [];
    WrittenOfTwo(a, b);
    WrittenOfTwo(a + b, c);
    assert payload == payload[..rel] + payload[rel..];
  }

  /** Every command moves whole blocks, and the read asks for exactly `rd` bytes. */
  lemma CommandsWholeBlocks(payload: Bytes, rel: nat, wr: nat, rd: nat)
    requires |payload| == rel + wr && SizesOk(rel, wr, rd)
    ensures WholeBlocks(Commands(payload, rel, wr, rd))
    ensures rd > 0 ==>
              var c := Commands(payload, rel, wr, rd); c[|c| - 1].dir == Read && c[|c| - 1].blocks * BLOCK == rd
  {
    var c := Commands(payload, rel, wr, rd);
    forall j | 0 <= j < |c|
      ensures WholeBlocks([c[j]])
    {
      if c[j].dir == Read {
        assert c[j] == ReadCmd(rd);
      }
    }
    assert forall j :: 0 <= j < |c| ==> [c[j]][0] == c[j];
  }

  /** The order reliable write, write, read, with one command per non-zero size. */
  lemma CommandsOrder(payload: Bytes, rel: nat, wr: nat, rd: nat)
    requires |payload| == rel + wr && SizesOk(rel, wr, rd)
    ensures Directions(Commands(payload, rel, wr, rd)) ==
            (if rel > 0 then [ReliableWrite] else []) + (if wr > 0 then [PlainWrite] else []) +
            (if rd > 0 then [Read] else [])
  {
  }

  /** The command array as rpmb_send fills it; no command list means NOT_VALID. */
  method Split(payload: Bytes, rel: nat, wr: nat, rd: nat) returns (r: Option<seq<MmcCmd>>)
    requires |payload| == rel + wr
    ensures r.Some? <==> SizesOk(rel, wr, rd)
    ensures r.Some? ==> r.value == Commands(payload, rel, wr, rd)
  {
    var cmds: seq<MmcCmd> := [];
    if rel > 0 {
      if rel % BLOCK != 0 {
        return None;
      }
      cmds := cmds + [WriteCmd(ReliableWrite, payload[..rel])];
    }
    if wr > 0 {
      if wr % BLOCK != 0 {
        return None;
      }
      cmds := cmds + [WriteCmd(PlainWrite, payload[rel..])];
    }
    if rd > 0 {
      if rd % BLOCK != 0 || rd > READ_BUF_SIZE {
        return None;
      }
      cmds := cmds + [ReadCmd(rd)];
    }
    return Some(cmds);
  }

  /** One ioctl: the command list, and what the device put in the read buffer, or nothing if the call failed. */
  datatype Issue = Issue(cmds: seq<MmcCmd>, answer: Option<Bytes>)

  /**
   What one request does to the device and what its answer says: an acceptable request is one ioctl with its
   commands, and the answer carries what the device answered; any other leaves the device alone.
   */
  ghost predicate Carried(req: Bytes, was: seq<Issue>, now: seq<Issue>, r: Response) {
    if !Accepts(req) then now == was && r.msg.result == ERR_NOT_VALID && r.payload == None
    else && |now| == |was| + 1 && now[..|was|] == was
         && var e := now[|was|];
         && e.cmds == Commands(req[16..], Word32(req, 0), Word32(req, 4), Word32(req, 8))
         && (e.answer.Some? ==> |e.answer.value| == Word32(req, 8) && r.msg.result == NO_ERROR)
         && (e.answer.None? ==> r.msg.result == ERR_GENERIC)
         && r.payload == e.answer
  }

  class Device {
    /** Every ioctl, whether or not it succeeded. */
    var issued: seq<Issue>

    constructor ()
      ensures issued == []
    {
      issued := [];
    }

    /** MMC_IOC_MULTI_CMD: on success the read buffer holds `n` bytes of the device's choice. */
    method MultiCmd(cmds: seq<MmcCmd>, n: nat) returns (r: Option<Bytes>)
      modifies this
      ensures issued == old(issued) + [Issue(cmds, r)]
      ensures r.Some? ==> |r.value| == n
    {
      var answer: Bytes := *;
      r := if |answer| == n then Some(answer) else None;
      issued := issued + [Issue(cmds, r)];
    }

    /** rpmb_send: one response, which is what the device answered, or why it was not asked. */
    method Send(channel: Channel, msg: Msg, req: Bytes) returns (rc: int)
      modifies this, channel
      ensures rc == (if channel.down then -1 else 0)
      ensures |channel.sent| == |old(channel.sent)| + 1 && channel.sent[..|old(channel.sent)|] == old(channel.sent)
      ensures Answers(msg, channel.sent[|old(channel.sent)|])
      ensures Carried(req, old(issued), issued, channel.sent[|old(channel.sent)|])
    {
      if |req| < 16 || |req| != 16 + Word32(req, 0) + Word32(req, 4) {
        rc := channel.Respond(msg.(result := ERR_NOT_VALID), None);
        return;
      }
      var cmds := Split(req[16..], Word32(req, 0), Word32(req, 4), Word32(req, 8));
      if cmds == None {
        rc := channel.Respond(msg.(result := ERR_NOT_VALID), None);
        return;
      }
      var answer := MultiCmd(cmds.value, Word32(req, 8));
      if answer == None {
        rc := channel.Respond(msg.(result := ERR_GENERIC), None);
        return;
      }
      rc := channel.Respond(msg.(result := NO_ERROR), answer);
    }
  }
}
