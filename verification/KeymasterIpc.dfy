/**
 The keymaster channel of the lite TEE: requests are cut into fragments of at
 most 3072 bytes, responses are put together from fragments, and flag bits in
 the command word delimit both.
 */
module KeymasterIpc {
  import opened Octets

  const RESP_BIT: nat := 1
  const STOP_BIT: nat := 2
  const MAX_SEND_BUF_SIZE: nat := 3072
  const MAX_BUFFER_LENGTH: nat := 4096
  const BUF_SIZE: nat := 17 * 4096

  const EINVAL: int := 22

  /** One message on the channel. */
  datatype Frame = Frame(cmd: nat, payload: Bytes)

  datatype Request = Request(cmd: nat, payload: Bytes)

  predicate HasStop(cmd: nat) {
    cmd / STOP_BIT % 2 == 1
  }

  function SetStop(cmd: nat): (c: nat)
    ensures HasStop(c) && (c == cmd || c == cmd + STOP_BIT)
  {
    if HasStop(cmd) then cmd else cmd + STOP_BIT
  }

  function ClearStop(cmd: nat): (c: nat)
    ensures !HasStop(c) && c % 2 == cmd % 2 && c / 4 == cmd / 4
  {
    if HasStop(cmd) then cmd - STOP_BIT else cmd
  }

  function SetResp(cmd: nat): (c: nat)
    ensures c % 2 == 1 && c / 2 == cmd / 2
  {
    if cmd % 2 == 1 then cmd else cmd + RESP_BIT
  }

  // ----- requests

  /** The fragments of one request: STOP on all but the last. */
  function Fragments(cmd: nat, payload: Bytes): (f: seq<Frame>)
    ensures f != []
    decreases |payload|
  {
    if |payload| > MAX_SEND_BUF_SIZE
    then [Frame(SetStop(cmd), payload[..MAX_SEND_BUF_SIZE])] + Fragments(cmd, payload[MAX_SEND_BUF_SIZE..])
    else [Frame(cmd, payload)]
  }

  function Encode(reqs: seq<Request>): seq<Frame> {
    if reqs == [] then [] else Fragments(reqs[0].cmd, reqs[0].payload) + Encode(reqs[1..])
  }

  /** How a receiver that knows only the flag bits reads the stream back; `held` is what it has of an open request. */
  function Decode(frames: seq<Frame>, held: Bytes): seq<Request> {
    if frames == [] then []
    else if HasStop(frames[0].cmd) then Decode(frames[1..], held + frames[0].payload)
    else [Request(frames[0].cmd, held + frames[0].payload)] + Decode(frames[1..], [])
  }

  /** The low two bits, which the protocol uses for its flags, are clear. */
  predicate Plain(cmd: nat) {
    cmd % 4 == 0
  }

  /** A request's fragments decode to that request, and the decoder is then ready for the next. */
  lemma {:induction false} DecodeFragments(cmd: nat, payload: Bytes, rest: seq<Frame>, held: Bytes)
    requires Plain(cmd)
    ensures Decode(Fragments(cmd, payload) + rest, held) == [Request(cmd, held + payload)] + Decode(rest, [])
    decreases |payload|
  {
    var f := Fragments(cmd, payload);
    if |payload| > MAX_SEND_BUF_SIZE {
      var tail := payload[MAX_SEND_BUF_SIZE..];
      assert (f + rest)[1..] == Fragments(cmd, tail) + rest;
      DecodeFragments(cmd, tail, rest, held + payload[..MAX_SEND_BUF_SIZE]);
      assert held + payload[..MAX_SEND_BUF_SIZE] + tail == held + payload;
    } else {
      assert (f + rest)[1..] == rest;
    }
  }

  /** The stream is self-delimiting: any list of requests is read back exactly. */
  lemma {:induction false} RoundTrip(reqs: seq<Request>)
    requires forall r :: r in reqs ==> Plain(r.cmd)
    ensures Decode(Encode(reqs), []) == reqs
  {
    if reqs != [] {
      DecodeFragments(reqs[0].cmd, reqs[0].payload, Encode(reqs[1..]), []);
      RoundTrip(reqs[1..]);
      assert [] + reqs[0].payload == reqs[0].payload;
      assert reqs == [reqs[0]] + reqs[1..];
    }
  }

  lemma {:induction false} EncodeAppend(reqs: seq<Request>, r: Request)
    ensures Encode(reqs + [r]) == Encode(reqs) + Fragments(r.cmd, r.payload)
  {
    if reqs == [] {
      assert [r][1..] == [] && reqs + [r] == [r];
    } else {
      assert (reqs + [r])[1..] == reqs[1..] + [r];
      EncodeAppend(reqs[1..], r);
    }
  }

  /** The shape of the fragments: how many there are, how long they may be, and where STOP is set. */
  lemma {:induction false} FragmentShape(cmd: nat, payload: Bytes)
    requires Plain(cmd)
    ensures var f := Fragments(cmd, payload);
            && |f| == (if payload == [] then 1 else (|payload| + MAX_SEND_BUF_SIZE - 1) / MAX_SEND_BUF_SIZE)
            && (forall j :: 0 <= j < |f| ==> |f[j].payload| <= MAX_SEND_BUF_SIZE)
            && (forall j :: 0 <= j < |f| ==> f[j].cmd == if j < |f| - 1 then cmd + STOP_BIT else cmd)
    decreases |payload|
  {
    if |payload| > MAX_SEND_BUF_SIZE {
      FragmentShape(cmd, payload[MAX_SEND_BUF_SIZE..]);
    }
  }

  // ----- responses

  /** One readv: it fails, returns less than a header, or delivers one message. */
  datatype Reply = ReadFailed | Runt(n: nat) | Message(cmd: nat, payload: Bytes)

  function Joined(rs: seq<Reply>): Bytes
    requires forall r :: r in rs ==> r.Message?
  {
    if |rs| == 0 then [] else Joined(rs[..|rs| - 1]) + rs[|rs| - 1].payload
  }

  function Min(a: int, b: int): int {
    if a <= b then a else b
  }

  /** The first `n` replies are messages of the awaited response, each within the room left when it arrives. */
  ghost predicate Proper(cmd: nat, capacity: nat, rs: seq<Reply>, n: nat) {
    && n <= |rs|
    && (forall j :: 0 <= j < n ==> rs[j].Message? && ClearStop(rs[j].cmd) == SetResp(cmd))
    && (forall j :: 0 <= j < n ==>
                      |rs[j].payload| <= Min(MAX_BUFFER_LENGTH, capacity - |Joined(rs[..j])|))
  }

  /** The first `n` replies are one whole response: only the last has STOP. */
  ghost predicate Complete(cmd: nat, capacity: nat, rs: seq<Reply>, n: nat) {
    && 1 <= n && Proper(cmd, capacity, rs, n)
    && forall j :: 0 <= j < n ==> (HasStop(rs[j].cmd) <==> j == n - 1)
  }

  /** Reply `n` continues the response made up of those before it. */
  ghost predicate Continues(cmd: nat, capacity: nat, rs: seq<Reply>, n: nat)
    requires Proper(cmd, capacity, rs, n)
  {
    && n < |rs| && rs[n].Message? && ClearStop(rs[n].cmd) == SetResp(cmd)
    && |rs[n].payload| <= Min(MAX_BUFFER_LENGTH, capacity - |Joined(rs[..n])|)
  }

  /** After `n` proper replies without STOP, a reply that cannot continue them rules out any complete response. */
  lemma Stuck(cmd: nat, capacity: nat, rs: seq<Reply>, n: nat)
    requires Proper(cmd, capacity, rs, n) && forall j :: 0 <= j < n ==> !HasStop(rs[j].cmd)
    requires !Continues(cmd, capacity, rs, n)
    ensures forall m: nat :: !Complete(cmd, capacity, rs, m)
  {
    forall m: nat
      ensures !Complete(cmd, capacity, rs, m)
    {
      if 1 <= m <= n {
        assert !HasStop(rs[m - 1].cmd);
      }
    }
  }

  /** A proper reply extends the response by its payload. */
  lemma Extend(cmd: nat, capacity: nat, rs: seq<Reply>, n: nat)
    requires Proper(cmd, capacity, rs, n) && Continues(cmd, capacity, rs, n)
    ensures Proper(cmd, capacity, rs, n + 1)
    ensures Joined(rs[..n + 1]) == Joined(rs[..n]) + rs[n].payload
  {
    assert rs[..n + 1][..n] == rs[..n];
  }

  /**
   A request that came to nothing: a write failed and its fragments were not all written, or none did, and no
   complete response came back.
   */
  ghost predicate Broke(unwritten: bool, was: seq<Frame>, now: seq<Frame>, cmd: nat, req: Bytes, capacity: nat,
                        rs: seq<Reply>) {
    if unwritten then exists k :: 0 <= k < |Fragments(cmd, req)| && now == was + Fragments(cmd, req)[..k]
    else now == was + Fragments(cmd, req) && forall m: nat :: !Complete(cmd, capacity, rs, m)
  }

  class Connection {
    var handle: int

    /** What was written on the current connection, and the requests that were written in full. */
    ghost var wire: seq<Frame>
    ghost var requests: seq<Request>

    /** What was written on each connection closed since. */
    ghost var past: seq<seq<Frame>>

    /** The last write failed. */
    ghost var unwritten: bool

    /** An open connection carries whole requests only, so the peer decodes exactly those. */
    ghost predicate Valid()
      reads this
    {
      && (forall r :: r in requests ==> Plain(r.cmd))
      && (handle >= 0 ==> wire == Encode(requests))
    }

    constructor ()
      ensures Valid() && handle == -1
    {
      handle, wire, requests, past, unwritten := -1, [], [], [], false;
    }

    method Connect() returns (rc: int)
      requires handle < 0 && Valid()
      modifies this`handle, this`wire, this`requests
      ensures Valid()
      ensures rc == 0 ==> handle >= 0 && wire == [] && requests == []
      ensures rc != 0 ==> rc < 0 && handle == old(handle)
    {
      var fd: int := *;
      if fd < 0 {
        return fd;
      }
      handle, wire, requests := fd, [], [];
      return 0;
    }

    method Disconnect()
      requires Valid() || handle >= 0
      modifies this`handle, this`wire, this`requests, this`past
      ensures handle == -1 && Valid()
      ensures past == if old(handle) >= 0 then old(past) + [old(wire)] else old(past)
    {
      if handle >= 0 {
        past := past + [wire];
      }
      handle, wire, requests := -1, [], [];
    }

    /** writev of one message. */
    method Write(f: Frame) returns (ok: bool)
      modifies this`wire, this`unwritten
      ensures ok == !unwritten && wire == if ok then old(wire) + [f] else old(wire)
    {
      ok := *;
      unwritten := !ok;
      if ok {
        wire := wire + [f];
      }
    }

    /** The send loop of bp_keymaster_call; a failed write stops it at once, and nothing else does. */
    method SendFragments(cmd: nat, in_: Bytes) returns (ok: bool)
      requires handle >= 0
      modifies this`wire, this`unwritten
      ensures ok == !unwritten
      ensures ok ==> wire == old(wire) + Fragments(cmd, in_)
      ensures !ok ==> exists k :: 0 <= k < |Fragments(cmd, in_)| && wire == old(wire) + Fragments(cmd, in_)[..k]
    {
      var sendBuf := in_;
      ghost var all := Fragments(cmd, in_);
      ghost var k := 0;
      while true
        invariant 0 <= k < |all| && wire == old(wire) + all[..k]
        invariant all[k..] == Fragments(cmd, sendBuf)
        decreases |sendBuf|
      {
        if |sendBuf| > MAX_SEND_BUF_SIZE {
          ok := Write(Frame(SetStop(cmd), sendBuf[..MAX_SEND_BUF_SIZE]));
          if !ok {
            return;
          }
          assert all[k..][1..] == all[k + 1..] && all[..k + 1] == all[..k] + [all[k..][0]];
          sendBuf := sendBuf[MAX_SEND_BUF_SIZE..];
          k := k + 1;
        } else {
          ok := Write(Frame(cmd, sendBuf));
          assert all == all[..k] + all[k..];
          return;
        }
      }
    }

    /** What readv does to the caller's buffer. */
    method CopyAt(out: array<Byte>, at: nat, payload: Bytes)
      requires at + |payload| <= out.Length
      modifies out
      ensures out[..at + |payload|] == old(out[..at]) + payload
    {
      forall j | 0 <= j < |payload| {
        out[at + j] := payload[j];
      }
    }

    /** The checks on one reply: a failed read, too few bytes, or not the response that is awaited. */
    method Check(cmd: nat, r: Reply, room: int) returns (rc: int)
      ensures rc >= 0 <==> r.Message? && |r.payload| <= room && ClearStop(r.cmd) == SetResp(cmd)
      ensures rc >= 0 && Plain(cmd) ==> r.cmd / 4 == cmd / 4 && r.cmd % 2 == 1
    {
      if r.ReadFailed? || (r.Message? && |r.payload| > room) {
        return -1; // -errno, also for a message that does not fit the buffers
      }
      if r.Runt? {
        return -EINVAL;
      }
      if SetResp(cmd) != ClearStop(r.cmd) {
        return -EINVAL;
      }
      return 0;
    }

    /**
     The receive loop of bp_keymaster_call, over the replies that arrive before the channel fails.
     It succeeds exactly on a complete response, whose payloads it concatenates; the output never
     outgrows the caller's buffer.
     */
    method Receive(cmd: nat, rs: seq<Reply>, out: array<Byte>) returns (rc: int, outSize: nat, n: nat)
      modifies out
      ensures outSize <= out.Length
      ensures rc >= 0 ==> Complete(cmd, out.Length, rs, n) && out[..outSize] == Joined(rs[..n])
      ensures rc < 0 ==> forall m: nat :: !Complete(cmd, out.Length, rs, m)
    {
      outSize := 0;
      n := 0;
      while true
        invariant outSize <= out.Length && Proper(cmd, out.Length, rs, n)
        invariant forall j :: 0 <= j < n ==> !HasStop(rs[j].cmd)
        invariant |Joined(rs[..n])| == outSize && out[..outSize] == Joined(rs[..n])
        decreases |rs| - n
      {
        var r := if n < |rs| then rs[n] else ReadFailed;
        rc := Check(cmd, r, Min(MAX_BUFFER_LENGTH, out.Length - outSize));
        if rc < 0 {
          Stuck(cmd, out.Length, rs, n);
          return;
        }
        Extend(cmd, out.Length, rs, n);
        CopyAt(out, outSize, r.payload);
        outSize := outSize + |r.payload|;
        n := n + 1;
        if HasStop(r.cmd) {
          return 4 + |r.payload|, outSize, n;
        }
      }
    }

    /** bp_keymaster_call. */
    method Call(cmd: nat, in_: Bytes, rs: seq<Reply>, out: array<Byte>) returns (rc: int, outSize: nat, n: nat)
      requires Valid() && Plain(cmd)
      modifies this`wire, this`requests, this`unwritten, out
      ensures outSize <= out.Length
      ensures rc >= 0 ==>
                && handle >= 0 && Valid() && requests == old(requests) + [Request(cmd, in_)]
                && Complete(cmd, out.Length, rs, n) && out[..outSize] == Joined(rs[..n])
      ensures rc >= 0 ==> wire == old(wire) + Fragments(cmd, in_)
      ensures rc < 0 && handle >= 0 ==> Broke(unwritten, old(wire), wire, cmd, in_, out.Length, rs)
      ensures handle < 0 ==> wire == old(wire) && requests == old(requests)
      ensures handle < 0 ==> rc < 0 && Valid()
      ensures forall r :: r in requests ==> Plain(r.cmd)
    {
      n := 0;
      if handle < 0 {
        return -EINVAL, 0, n;
      }
      var sent := SendFragments(cmd, in_);
      if !sent {
        return -EINVAL, 0, n;
      }
      EncodeAppend(requests, Request(cmd, in_));
      requests := requests + [Request(cmd, in_)];
      rc, outSize, n := Receive(cmd, rs, out);
    }

    /**
     bp_keymaster_send, after serialisation. A request that fails half way would leave the peer in the
     middle of a fragment run; the reset that follows every error keeps the stream decodable. Only a request that
     is too large, finds no connection, or came to nothing fails.
     */
    method Send(cmd: nat, req: Bytes, rs: seq<Reply>) returns (reply: Bytes, ok: bool)
      requires Valid() && Plain(cmd)
      modifies this
      ensures Valid()
      ensures handle >= 0 ==> Decode(wire, []) == requests
      ensures ok ==>
                && handle == old(handle) && |req| <= BUF_SIZE
                && requests == old(requests) + [Request(cmd, req)]
                && exists n: nat :: Complete(cmd, BUF_SIZE, rs, n) && reply == Joined(rs[..n])
      ensures !ok && |req| <= BUF_SIZE && handle >= 0 ==> requests == []
      ensures |req| > BUF_SIZE ==>
                !ok && handle == old(handle) && wire == old(wire) && requests == old(requests) && past == old(past)
      ensures ok ==> old(handle) >= 0 && wire == old(wire) + Fragments(cmd, req) && past == old(past)
      ensures !ok && |req| <= BUF_SIZE && old(handle) >= 0 ==>
                && |past| == |old(past)| + 1 && past[..|old(past)|] == old(past)
                && Broke(unwritten, old(wire), past[|old(past)|], cmd, req, BUF_SIZE, rs)
    {
      if |req| > BUF_SIZE {
        if handle >= 0 {
          RoundTrip(requests);
        }
        return [], false;
      }
      var recvBuf := new Byte[BUF_SIZE];
      var rc, size, n := Call(cmd, req, rs, recvBuf);
      if rc < 0 {
        Disconnect();
        var c := Connect();
        return [], false;
      }
      RoundTrip(requests);
      return recvBuf[..size], true;
    }
  }
}
