/** Installing an attestation key box over the kmsetkey channel. */
module KeyInstall {
  import opened Octets

  const MAX_MSG_SIZE: nat := 4096
  const IPC_MSG_SIZE: nat := 16
  const HEADER: nat := 4
  const CHUNK: nat := MAX_MSG_SIZE - IPC_MSG_SIZE - HEADER

  const KEY_LEN: nat := 0
  const KEY_BUF: nat := 1
  const SET_KEY: nat := 2
  const SET_DECRYPT_KEY: nat := 16

  const RESP_FLAG: nat := 0x8000_0000
  const DONE_FLAG: nat := 0x4000_0000

  const EINVAL: int := 22

  /** One call: what is sent, and whether the peer must answer that it is done with the command. */
  datatype Msg = Msg(cmd: nat, finish: bool, payload: Bytes)

  /**
   How one call goes: no memory for the message, a failed write, a failed read, fewer bytes than a header, or an
   answer.
   */
  datatype Answer = NoMemory(errno: nat) | Unwritten(errno: nat) | Lost(errno: nat) | Runt | Answered(cmd: nat)

  /** The answer a call accepts. Command numbers are small, so or-ing the flags in is adding them. */
  function Expected(cmd: nat, finish: bool): nat {
    cmd + RESP_FLAG + if finish then DONE_FLAG else 0
  }

  /** The answers that complete a list of calls. */
  function Acks(ms: seq<Msg>): (a: seq<nat>)
    ensures |a| == |ms| && forall j :: 0 <= j < |ms| ==> a[j] == Expected(ms[j].cmd, ms[j].finish)
  {
    seq(|ms|, j requires 0 <= j < |ms| => Expected(ms[j].cmd, ms[j].finish))
  }

  /** The chunks of a key from `off` on: only the one that reaches the end asks for DONE. */
  function Chunks(key: Bytes, off: nat): seq<Msg>
    requires off <= |key|
    decreases |key| - off
  {
    if off == |key| then []
    else
      var n := if |key| - off < CHUNK then |key| - off else CHUNK;
      [Msg(KEY_BUF, off + n == |key|, key[off..off + n])] + Chunks(key, off + n)
  }

  function Preamble(decryptKey: Bytes, key: Bytes): seq<Msg>
    requires |key| < WORD32
  {
    [Msg(SET_DECRYPT_KEY, true, decryptKey), Msg(KEY_LEN, true, Le32(|key|))]
  }

  /** The whole installation. */
  function Script(decryptKey: Bytes, key: Bytes): seq<Msg>
    requires |key| < WORD32
  {
    Preamble(decryptKey, key) + Chunks(key, 0) + [Msg(SET_KEY, true, [])]
  }

  function Payloads(ms: seq<Msg>): Bytes {
    if ms == [] then [] else ms[0].payload + Payloads(ms[1..])
  }

  lemma {:induction false} ChunkCount(key: Bytes, off: nat)
    requires off <= |key|
    ensures |Chunks(key, off)| == (|key| - off + CHUNK - 1) / CHUNK
    decreases |key| - off
  {
    if off < |key| {
      var n := if |key| - off < CHUNK then |key| - off else CHUNK;
      ChunkCount(key, off + n);
    }
  }

  lemma {:induction false} ChunkShape(key: Bytes, off: nat, j: nat)
    requires off <= |key| && j < |Chunks(key, off)|
    ensures var m := Chunks(key, off)[j];
            && m.cmd == KEY_BUF && 0 < |m.payload| <= CHUNK
            && (m.finish <==> j == |Chunks(key, off)| - 1)
    decreases |key| - off
  {
    var n := if |key| - off < CHUNK then |key| - off else CHUNK;
    if j > 0 {
      ChunkShape(key, off + n, j - 1);
    }
  }

  /** The chunks are the key: in order, complete, each within the message size, DONE asked for on the last one only. */
  lemma {:induction false} ChunksTile(key: Bytes, off: nat)
    requires off <= |key|
    ensures Payloads(Chunks(key, off)) == key[off..]
    ensures |Chunks(key, off)| == (|key| - off + CHUNK - 1) / CHUNK
    ensures forall j :: 0 <= j < |Chunks(key, off)| ==>
                          var m := Chunks(key, off)[j];
                          && m.cmd == KEY_BUF && 0 < |m.payload| <= CHUNK
                          && (m.finish <==> j == |Chunks(key, off)| - 1)
    decreases |key| - off
  {
    ChunkCount(key, off);
    forall j | 0 <= j < |Chunks(key, off)|
      ensures var m := Chunks(key, off)[j];
              m.cmd == KEY_BUF && 0 < |m.payload| <= CHUNK && (m.finish <==> j == |Chunks(key, off)| - 1)
    {
      ChunkShape(key, off, j);
    }
    if off < |key| {
      var n := if |key| - off < CHUNK then |key| - off else CHUNK;
      ChunksTile(key, off + n);
      assert key[off..] == key[off..off + n] + key[off + n..];
      assert Chunks(key, off)[1..] == Chunks(key, off + n);
    }
  }

  /** Every message of the script fits the channel, and the length announced is the length sent. */
  lemma ScriptFits(decryptKey: Bytes, key: Bytes)
    requires |key| < WORD32 && |decryptKey| <= CHUNK
    ensures forall j :: 0 <= j < |Script(decryptKey, key)| ==>
                          HEADER + |Script(decryptKey, key)[j].payload| <= MAX_MSG_SIZE - IPC_MSG_SIZE
    ensures Word32(Script(decryptKey, key)[1].payload, 0) == |Payloads(Chunks(key, 0))|
  {
    ChunksTile(key, 0);
    assert key[0..] == key;
    assert |Script(decryptKey, key)[1].payload| == 4;
  }

  /** One turn of the chunk loop, on the list of all chunks. */
  lemma ChunkStep(all: seq<Msg>, k: nat, key: Bytes, off: nat, n: nat)
    requires k <= |all| && off < |key| && all[k..] == Chunks(key, off)
    requires n == if |key| - off < CHUNK then |key| - off else CHUNK
    ensures k < |all| && all[k] == Msg(KEY_BUF, off + n == |key|, key[off..off + n])
    ensures all[k + 1..] == Chunks(key, off + n)
    ensures all[..k + 1] == all[..k] + [all[k]] && Acks(all[..k + 1]) == Acks(all[..k]) + Acks([all[k]])
  {
    assert all[k] == all[k..][0] && all[k..][1..] == all[k + 1..];
  }

  /** The logs with `k` of the chunks in them are an initial part, and one more chunk is one more entry. */
  lemma Initial(sent: seq<Msg>, heard: seq<nat>, all: seq<Msg>, k: nat)
    requires k < |all| && Acks(all[..k + 1]) == Acks(all[..k]) + Acks([all[k]])
    ensures sent <= sent + all[..k] <= sent + all && sent <= sent + all[..k + 1] <= sent + all
    ensures sent + all[..k] + [all[k]] == sent + all[..k + 1]
    ensures heard + Acks(all[..k]) + Acks([all[k]]) == heard + Acks(all[..k + 1])
  {
  }

  /** The order of the commands: the two before the chunks, the chunks, and the one behind them. */
  lemma ScriptOrder(decryptKey: Bytes, key: Bytes)
    requires |key| < WORD32
    ensures var s := Script(decryptKey, key);
            && |s| == 3 + (|key| + CHUNK - 1) / CHUNK
            && s[0].cmd == 16 && s[0].payload == decryptKey && s[1].cmd == 0 && s[|s| - 1].cmd == 2
            && s[|s| - 1].payload == [] && s[0].finish && s[1].finish && s[|s| - 1].finish
            && (forall j :: 2 <= j < |s| - 1 ==> s[j].cmd == 1)
            && Payloads(s[2..|s| - 1]) == key
  {
    ChunksTile(key, 0);
    var s := Script(decryptKey, key);
    assert s[2..|s| - 1] == Chunks(key, 0) && key[0..] == key;
  }

  /** The answer a call accepts has the command in its low bits, the response flag, and the done flag if that is due. */
  lemma ExpectedBits(cmd: nat, finish: bool)
    requires cmd < DONE_FLAG
    ensures var a := Expected(cmd, finish);
            a % DONE_FLAG == cmd && a / RESP_FLAG == 1 && (a / DONE_FLAG % 2 == 1 <==> finish)
  {
  }

  lemma AcksOfTwo(a: seq<Msg>, b: seq<Msg>)
    ensures Acks(a + b) == Acks(a) + Acks(b)
  {
  }

  class Hal {
    /** Messages written, answered or not, and the descriptors of connections made and closed. */
    var sent: seq<Msg>
    var made: seq<int>
    var closed: seq<int>

    /** Command words of the answers received, and how every call that was tried went. */
    var heard: seq<nat>
    ghost var tried: seq<(Msg, Answer)>

    /** No call of the current installation has failed. Each call relies on it: a failure ends the installation. */
    ghost var going: bool

    constructor ()
      ensures sent == [] && made == [] && closed == [] && heard == [] && tried == [] && going
    {
      sent, made, closed, heard, tried, going := [], [], [], [], [], true;
    }

    /** kmsetkey_connect: a negative code, or the descriptor of a new connection. */
    method Connect() returns (rc: int)
      modifies this`made, this`going
      ensures made == if rc < 0 then old(made) else old(made) + [rc]
      ensures rc >= 0 ==> going
    {
      rc := *;
      if rc >= 0 {
        made, going := made + [rc], true;
      }
    }

    /** Allocation, write and read of one call, each of which may fail; an errno is positive. */
    method Exchange(m: Msg) returns (a: Answer)
      modifies this`sent, this`heard, this`tried
      ensures tried == old(tried) + [(m, a)]
      ensures sent == if a.NoMemory? || a.Unwritten? then old(sent) else old(sent) + [m]
      ensures heard == if a.Answered? then old(heard) + [a.cmd] else old(heard)
    {
      a := *;
      tried := tried + [(m, a)];
      if !a.NoMemory? && !a.Unwritten? {
        sent := sent + [m];
      }
      if a.Answered? {
        heard := heard + [a.cmd];
      }
    }

    /** The last call that was tried went wrong: it failed, or was not answered as it must be. */
    ghost predicate Spoiled()
      reads this`tried
    {
      tried != [] && var t := tried[|tried| - 1]; t.1 != Answered(Expected(t.0.cmd, t.0.finish))
    }

    /** kmsetkey_call. */
    method Call(handle: int, m: Msg) returns (rc: int)
      requires going
      modifies this`sent, this`heard, this`tried, this`going
      ensures rc <= 0 && going == (rc == 0)
      ensures sent == old(sent) || sent == old(sent) + [m]
      ensures rc == 0 ==> handle > 0 && sent == old(sent) + [m] && heard == old(heard) + Acks([m])
      ensures handle <= 0 ==> rc < 0 && sent == old(sent) && tried == old(tried)
      ensures handle > 0 ==>
                && |tried| == |old(tried)| + 1 && tried[..|old(tried)|] == old(tried) && tried[|old(tried)|].0 == m
                && (rc < 0 <==> Spoiled())
    {
      going := false;
      if handle <= 0 {
        return -EINVAL;
      }
      var a := Exchange(m);
      match a {
        case NoMemory(errno) => return -1 - errno;
        case Unwritten(errno) => return -1 - errno;
        case Lost(errno) => return -1 - errno;
        case Runt => return -EINVAL;
        case Answered(cmd) =>
          if cmd != Expected(m.cmd, m.finish) {
            return -EINVAL;
          }
      }
      going := true;
      return 0;
    }

    method Disconnect(handle: int)
      modifies this`closed
      ensures closed == if handle != 0 then old(closed) + [handle] else old(closed)
    {
      if handle != 0 {
        closed := closed + [handle];
      }
    }

    /** The chunk loop: what it sends is always an initial part of the chunks, and all of them on success. */
    method SendChunks(handle: int, key: Bytes) returns (rc: int)
      requires going
      modifies this`sent, this`heard, this`tried, this`going
      ensures rc <= 0 && going == (rc == 0)
      ensures old(sent) <= sent <= old(sent) + Chunks(key, 0)
      ensures rc == 0 ==> sent == old(sent) + Chunks(key, 0) && heard == old(heard) + Acks(Chunks(key, 0))
      ensures rc < 0 ==> handle <= 0 || Spoiled()
    {
      var off := 0;
      ghost var all, k := Chunks(key, 0), 0;
      while off < |key|
        invariant 0 <= off <= |key| && 0 <= k <= |all|
        invariant sent == old(sent) + all[..k] && all[k..] == Chunks(key, off)
        invariant heard == old(heard) + Acks(all[..k]) && going
        decreases |key| - off
      {
        var n := if |key| - off < CHUNK then |key| - off else CHUNK;
        var finish := if off + n < |key| then false else true;
        ChunkStep(all, k, key, off, n);
        Initial(old(sent), old(heard), all, k);
        rc := Call(handle, Msg(KEY_BUF, finish, key[off..off + n]));
        if rc < 0 {
          return;
        }
        off := off + n;
        k := k + 1;
      }
      assert all[..k] == all;
      return 0;
    }

    /**
     attest_key_install. Whatever the peer answers, the messages sent are an initial part of the
     script; they are the whole script when it succeeds, and a failure sends nothing more. A
     connection that was made is closed once on every path, if and only if its descriptor is not
     zero; over descriptor zero nothing is ever sent.
     */
    method Install(decryptKey: Bytes, key: Bytes) returns (rc: int)
      requires |key| < WORD32
      modifies this
      ensures rc <= 0
      ensures old(sent) <= sent <= old(sent) + Script(decryptKey, key)
      ensures rc == 0 ==>
                sent == old(sent) + Script(decryptKey, key) && heard == old(heard) + Acks(Script(decryptKey, key))
      ensures || (made == old(made) && closed == old(closed) && rc < 0 && sent == old(sent))
              || (&& |made| == |old(made)| + 1 && made[..|old(made)|] == old(made)
                  && var h := made[|old(made)|];
                  && h >= 0 && closed == (if h != 0 then old(closed) + [h] else old(closed))
                  && (rc < 0 ==> h == 0 || Spoiled())
                  && (h == 0 ==> rc < 0 && sent == old(sent)))
    {
      rc := Connect();
      if rc < 0 {
        return;
      }
      rc := InstallOver(rc, decryptKey, key);
    }

    /** The installation over a connection that was made. */
    method InstallOver(handle: nat, decryptKey: Bytes, key: Bytes) returns (rc: int)
      requires |key| < WORD32 && going
      modifies this`sent, this`heard, this`tried, this`going, this`closed
      ensures rc <= 0
      ensures old(sent) <= sent <= old(sent) + Script(decryptKey, key)
      ensures rc == 0 ==>
                sent == old(sent) + Script(decryptKey, key) && heard == old(heard) + Acks(Script(decryptKey, key))
      ensures closed == if handle != 0 then old(closed) + [handle] else old(closed)
      ensures handle == 0 ==> rc < 0 && sent == old(sent)
      ensures rc < 0 ==> handle <= 0 || Spoiled()
    {
      rc := SendScript(handle, decryptKey, key);
      Disconnect(handle);
    }

    method SendScript(fd: int, decryptKey: Bytes, key: Bytes) returns (rc: int)
      requires |key| < WORD32
      requires going
      modifies this`sent, this`heard, this`tried, this`going
      ensures rc <= 0 && going == (rc == 0)
      ensures old(sent) <= sent <= old(sent) + Script(decryptKey, key)
      ensures rc == 0 ==>
                sent == old(sent) + Script(decryptKey, key) && heard == old(heard) + Acks(Script(decryptKey, key))
      ensures fd == 0 ==> rc < 0 && sent == old(sent)
      ensures rc < 0 ==> fd <= 0 || Spoiled()
    {
      ghost var pre, c, last := Preamble(decryptKey, key), Chunks(key, 0), [Msg(SET_KEY, true, [])];
      assert old(sent) + (pre + c + last) == old(sent) + pre + c + last;
      rc := SendPreamble(fd, decryptKey, key);
      if rc < 0 {
        return;
      }
      rc := SendChunks(fd, key);
      if rc < 0 {
        return;
      }
      AcksOfTwo(pre, c);
      AcksOfTwo(pre + c, last);
      rc := Call(fd, Msg(SET_KEY, true, []));
    }

    /** The two calls before the chunks. */
    method SendPreamble(fd: int, decryptKey: Bytes, key: Bytes) returns (rc: int)
      requires |key| < WORD32
      requires going
      modifies this`sent, this`heard, this`tried, this`going
      ensures rc <= 0 && going == (rc == 0)
      ensures old(sent) <= sent <= old(sent) + Preamble(decryptKey, key)
      ensures rc == 0 ==>
                && sent == old(sent) + Preamble(decryptKey, key)
                && heard == old(heard) + Acks(Preamble(decryptKey, key))
      ensures fd == 0 ==> rc < 0 && sent == old(sent)
      ensures rc < 0 ==> fd <= 0 || Spoiled()
    {
      rc := Call(fd, Msg(SET_DECRYPT_KEY, true, decryptKey));
      if rc < 0 {
        return;
      }
      rc := Call(fd, Msg(KEY_LEN, true, Le32(|key|)));
    }
  }
}
