/**
 The life of one KeyMint operation. The object owns the secure side's operation
 handle until a Finish or an Abort that carries it has been handed to the
 transport; the destructor aborts what is left.
 */
module KeyMintOperation {

  const SEND_BUF_SIZE: nat := 1024 * 140

  const OK: int := 0
  const KM_INVALID_INPUT_LENGTH: int := -21
  const KM_OUTPUT_PARAMETER_NULL: int := -27
  const KM_UNKNOWN_ERROR: int := -1000

  /** The transport's own code for a request too large to be sent. */
  const BEANPOD_INVALID_INPUT_LENGTH: int := -10000

  datatype Kind = Update | Finish | Abort

  /** A request handed to the transport. */
  datatype Request = Request(kind: Kind, handle: nat)

  /**
   A client's call. `size` is the serialised size of the request it makes; `answer` is what the secure side
   replies.
   */
  datatype Call =
    | UpdateAad(size: nat, answer: int)
    | DoUpdate(hasOutput: bool, size: nat, answer: int, consumedAll: bool)
    | DoFinish(hasOutput: bool, size: nat, answer: int)
    | DoAbort(answer: int)

  /** The error the transport reports for a request of that size, answered like that. */
  function Outcome(size: nat, answer: int): int {
    if size > SEND_BUF_SIZE then BEANPOD_INVALID_INPUT_LENGTH else answer
  }

  /** The call gives the handle up. */
  predicate Ends(c: Call) {
    match c
    case UpdateAad(size, answer) => Outcome(size, answer) == BEANPOD_INVALID_INPUT_LENGTH
    case DoUpdate(hasOutput, size, answer, _) => hasOutput && Outcome(size, answer) == BEANPOD_INVALID_INPUT_LENGTH
    case DoFinish(hasOutput, _, _) => hasOutput
    case DoAbort(_) => true
  }

  /**
   The call that gives the handle up is a Finish that was sent, and the secure side answered it with the
   transport's own code.
   */
  predicate Echoed(calls: seq<Call>) {
    calls != [] && if Ends(calls[0]) then Echo(calls[0]) else Echoed(calls[1..])
  }

  predicate Echo(c: Call) {
    c.DoFinish? && c.size <= SEND_BUF_SIZE && c.answer == BEANPOD_INVALID_INPUT_LENGTH
  }

  /** The call that gives the handle up is a Finish that is sent. */
  predicate Finishes(calls: seq<Call>) {
    calls != [] &&
    if Ends(calls[0]) then calls[0].DoFinish? && calls[0].size <= SEND_BUF_SIZE else Finishes(calls[1..])
  }

  /** The requests that one call hands over while the operation owns its handle. */
  function Handed(c: Call): seq<Kind> {
    match c
    case UpdateAad(size, answer) => Attempt(Update, size, answer)
    case DoUpdate(hasOutput, size, answer, _) => if hasOutput then Attempt(Update, size, answer) else []
    case DoFinish(hasOutput, size, answer) => if hasOutput then Attempt(Finish, size, answer) else []
    case DoAbort(_) => [Abort]
  }

  /** The request itself if it fits, and an Abort if the outcome is the transport's own code. */
  function Attempt(kind: Kind, size: nat, answer: int): seq<Kind> {
    (if size <= SEND_BUF_SIZE then [kind] else []) +
    (if Outcome(size, answer) == BEANPOD_INVALID_INPUT_LENGTH then [Abort] else [])
  }

  /** The requests with the handle over a whole life, in order: the destructor aborts what no call has ended. */
  function Life(calls: seq<Call>): seq<Kind> {
    if calls == [] then [Abort]
    else Handed(calls[0]) + if Ends(calls[0]) then [] else Life(calls[1..])
  }

  /** The kinds of the requests that carry `h`, in order. */
  function Of(log: seq<Request>, h: nat): seq<Kind> {
    if log == [] then []
    else
      var last := log[|log| - 1];
      Of(log[..|log| - 1], h) + if last.handle == h then [last.kind] else []
  }

  /** One call of a life, after what was handed over before. */
  lemma LifeOn(before: seq<Kind>, calls: seq<Call>, i: nat)
    requires i < |calls|
    ensures before + Life(calls[i..]) ==
            before + Handed(calls[i]) + if Ends(calls[i]) then [] else Life(calls[i + 1..])
    ensures Echoed(calls[i..]) == if Ends(calls[i]) then Echo(calls[i]) else Echoed(calls[i + 1..])
  {
    assert calls[i..][1..] == calls[i + 1..];
  }

  lemma OfNext(log: seq<Request>, h: nat, k: Kind, l: Kind, g: nat)
    ensures g == h ==> Of(log + [Request(k, g)], h) == Of(log, h) + [k]
    ensures g == h ==> Of(log + [Request(k, g), Request(l, g)], h) == Of(log, h) + [k, l]
    ensures g != h ==> Of(log + [Request(k, g)], h) == Of(log + [Request(k, g), Request(l, g)], h) == Of(log, h)
  {
    var one, two := log + [Request(k, g)], log + [Request(k, g), Request(l, g)];
    assert one[..|log|] == log && two[..|log| + 1] == one;
  }

  /** What an attempt does to the log, as seen by the handle. */
  lemma Attempted(log: seq<Request>, log': seq<Request>, h: nat, g: nat, kind: Kind, size: nat, answer: int)
    requires size <= SEND_BUF_SIZE && answer != BEANPOD_INVALID_INPUT_LENGTH ==> log' == log + [Request(kind, g)]
    requires size <= SEND_BUF_SIZE && answer == BEANPOD_INVALID_INPUT_LENGTH ==>
               log' == log + [Request(kind, g), Request(Abort, g)]
    requires size > SEND_BUF_SIZE ==> log' == log + [Request(Abort, g)]
    ensures g == h ==> Of(log', h) == Of(log, h) + Attempt(kind, size, answer)
    ensures g != h ==> Of(log', h) == Of(log, h)
  {
    if size > SEND_BUF_SIZE {
      OfNext(log, h, Abort, Abort, g);
      assert Attempt(kind, size, answer) == [Abort];
    } else {
      OfNext(log, h, kind, Abort, g);
      assert Attempt(kind, size, answer) ==
             if answer == BEANPOD_INVALID_INPUT_LENGTH then [kind, Abort] else [kind];
    }
  }

  lemma InEither(a: seq<Kind>, b: seq<Kind>, k: Kind)
    ensures k in a + b <==> k in a || k in b
  {
  }

  /** A life has a Finish exactly if the call that ends it is a Finish that is sent. */
  lemma {:induction false} FinishInLife(calls: seq<Call>)
    ensures Finish in Life(calls) <==> Finishes(calls)
  {
    if calls != [] {
      FinishInLife(calls[1..]);
    }
  }

  lemma {:induction false} FinishInLog(log: seq<Request>, h: nat)
    ensures Finish in Of(log, h) <==> Request(Finish, h) in log
  {
    if log != [] {
      FinishInLog(log[..|log| - 1], h);
      assert log == log[..|log| - 1] + [log[|log| - 1]];
    }
  }

  /** Requests that end the operation `h`. */
  function Endings(log: seq<Request>, h: nat): nat {
    if log == [] then 0
    else Endings(log[1..], h) + if log[0].kind != Update && log[0].handle == h then 1 else 0
  }

  lemma {:induction false} EndingsOfTwo(a: seq<Request>, b: seq<Request>, h: nat)
    ensures Endings(a + b, h) == Endings(a, h) + Endings(b, h)
  {
    if a == [] {
      assert a + b == b;
    } else {
      assert (a + b)[1..] == a[1..] + b;
      EndingsOfTwo(a[1..], b, h);
    }
  }

  /** No request after one that ends `h` carries `h`. */
  ghost predicate QuietAfterEnd(log: seq<Request>, h: nat) {
    forall i, j :: 0 <= i < j < |log| && log[i].kind != Update && log[i].handle == h ==> log[j].handle != h
  }

  /** Two endings of `h` are one request too many. */
  lemma {:induction false} TwoEndingsAreLoud(log: seq<Request>, h: nat)
    requires Endings(log, h) >= 2
    ensures !QuietAfterEnd(log, h)
  {
    if log[0].kind != Update && log[0].handle == h {
      var j := EndingAt(log[1..], h);
      assert log[j + 1] == log[1..][j];
    } else {
      TwoEndingsAreLoud(log[1..], h);
      var i, j :| 0 <= i < j < |log[1..]| && log[1..][i].kind != Update && log[1..][i].handle == h &&
                  log[1..][j].handle == h;
      assert log[i + 1] == log[1..][i] && log[j + 1] == log[1..][j];
    }
  }

  lemma {:induction false} EndingAt(log: seq<Request>, h: nat) returns (j: nat)
    requires Endings(log, h) >= 1
    ensures j < |log| && log[j].kind != Update && log[j].handle == h
  {
    if log[0].kind != Update && log[0].handle == h {
      return 0;
    }
    j := EndingAt(log[1..], h);
    return j + 1;
  }

  class Operation {
    const h: nat
    var opHandle: nat

    /** Requests handed to bp_keymaster_call since construction. */
    var log: seq<Request>

    /** A Finish that was sent came back with the transport's own code. */
    ghost var echoed: bool

    /** The handle is owned until its Finish or Abort, of which there is exactly one unless the Finish was echoed. */
    ghost predicate Valid()
      reads this
    {
      && h != 0
      && (opHandle == h || opHandle == 0)
      && (opHandle == h ==> !echoed && forall j :: 0 <= j < |log| ==> log[j].kind == Update)
      && Endings(log, h) == (if opHandle == h then 0 else if echoed then 2 else 1)
      && (!echoed ==> QuietAfterEnd(log, h))
    }

    constructor (handle: nat)
      requires handle != 0
      ensures Valid() && opHandle == h == handle && log == [] && !echoed
    {
      h, opHandle, log, echoed := handle, handle, [], false;
    }

    /** bp_keymaster_send as far as the log goes: a request that is too large never reaches the transport. */
    method Send(kind: Kind, size: nat, answer: int) returns (error: int)
      modifies this`log
      ensures error == Outcome(size, answer)
      ensures log == if size > SEND_BUF_SIZE then old(log) else old(log) + [Request(kind, opHandle)]
      ensures Endings(log, h) ==
              old(Endings(log, h)) + if size <= SEND_BUF_SIZE && kind != Update && opHandle == h then 1 else 0
    {
      if size > SEND_BUF_SIZE {
        return BEANPOD_INVALID_INPUT_LENGTH;
      }
      EndingsOfTwo(log, [Request(kind, opHandle)], h);
      assert Endings([Request(kind, opHandle)][1..], h) == 0;
      log := log + [Request(kind, opHandle)];
      return answer;
    }

    method DoAbort(answer: int) returns (error: int)
      modifies this`log, this`opHandle
      ensures opHandle == 0 && error == answer
      ensures log == old(log) + [Request(Abort, old(opHandle))]
      ensures Endings(log, h) == old(Endings(log, h)) + if old(opHandle) == h then 1 else 0
      ensures old(Valid()) ==> Valid()
    {
      error := Send(Abort, 8, answer);
      opHandle := 0;
    }

    method DoUpdateAad(size: nat, answer: int, abortAnswer: int) returns (error: int)
      requires Valid()
      modifies this`log, this`opHandle
      ensures Valid()
      ensures opHandle == if Ends(UpdateAad(size, answer)) then 0 else old(opHandle)
      ensures error == if Ends(UpdateAad(size, answer)) then KM_INVALID_INPUT_LENGTH else answer
      ensures size <= SEND_BUF_SIZE && answer != BEANPOD_INVALID_INPUT_LENGTH ==>
                log == old(log) + [Request(Update, old(opHandle))]
      ensures size <= SEND_BUF_SIZE && answer == BEANPOD_INVALID_INPUT_LENGTH ==>
                log == old(log) + [Request(Update, old(opHandle)), Request(Abort, old(opHandle))]
      ensures size > SEND_BUF_SIZE ==> log == old(log) + [Request(Abort, old(opHandle))]
    {
      error := Send(Update, size, answer);
      if error != OK {
        if error == BEANPOD_INVALID_INPUT_LENGTH {
          error := KM_INVALID_INPUT_LENGTH;
          var e := DoAbort(abortAnswer);
        }
      }
    }

    method DoUpdate(hasOutput: bool, size: nat, answer: int, consumedAll: bool, abortAnswer: int) returns (error: int)
      requires Valid()
      modifies this`log, this`opHandle
      ensures Valid()
      ensures opHandle == if Ends(Call.DoUpdate(hasOutput, size, answer, consumedAll)) then 0 else old(opHandle)
      ensures !hasOutput ==> log == old(log)
      ensures hasOutput && size <= SEND_BUF_SIZE && answer != BEANPOD_INVALID_INPUT_LENGTH ==>
                log == old(log) + [Request(Update, old(opHandle))]
      ensures hasOutput && size <= SEND_BUF_SIZE && answer == BEANPOD_INVALID_INPUT_LENGTH ==>
                log == old(log) + [Request(Update, old(opHandle)), Request(Abort, old(opHandle))]
      ensures hasOutput && size > SEND_BUF_SIZE ==> log == old(log) + [Request(Abort, old(opHandle))]
      ensures error == if !hasOutput then KM_OUTPUT_PARAMETER_NULL
                       else if Outcome(size, answer) == BEANPOD_INVALID_INPUT_LENGTH then KM_INVALID_INPUT_LENGTH
                       else if answer == OK && !consumedAll then KM_UNKNOWN_ERROR else answer
    {
      if !hasOutput {
        return KM_OUTPUT_PARAMETER_NULL;
      }
      error := Send(Update, size, answer);
      if error != OK {
        if error == BEANPOD_INVALID_INPUT_LENGTH {
          error := KM_INVALID_INPUT_LENGTH;
          var e := DoAbort(abortAnswer);
        }
        return;
      }
      if !consumedAll {
        return KM_UNKNOWN_ERROR;
      }
    }

    method DoFinish(hasOutput: bool, size: nat, answer: int, abortAnswer: int) returns (error: int)
      requires Valid()
      modifies this
      ensures Valid()
      ensures opHandle == if hasOutput then 0 else old(opHandle)
      ensures !hasOutput ==> log == old(log) && echoed == old(echoed)
      ensures hasOutput && size <= SEND_BUF_SIZE && answer != BEANPOD_INVALID_INPUT_LENGTH ==>
                log == old(log) + [Request(Finish, old(opHandle))]
      ensures hasOutput && size <= SEND_BUF_SIZE && answer == BEANPOD_INVALID_INPUT_LENGTH ==>
                log == old(log) + [Request(Finish, old(opHandle)), Request(Abort, old(opHandle))]
      ensures hasOutput && size > SEND_BUF_SIZE ==> log == old(log) + [Request(Abort, old(opHandle))]
      ensures error == if !hasOutput then KM_OUTPUT_PARAMETER_NULL
                       else if Outcome(size, answer) == BEANPOD_INVALID_INPUT_LENGTH then KM_INVALID_INPUT_LENGTH
                       else answer
      ensures hasOutput ==>
                echoed == (|| old(echoed)
                           || (old(opHandle) == h && size <= SEND_BUF_SIZE && answer == BEANPOD_INVALID_INPUT_LENGTH))
    {
      if !hasOutput {
        return KM_OUTPUT_PARAMETER_NULL;
      }
      error := Send(Finish, size, answer);
      if error != OK {
        if error == BEANPOD_INVALID_INPUT_LENGTH {
          error := KM_INVALID_INPUT_LENGTH;
          echoed := echoed || (opHandle == h && size <= SEND_BUF_SIZE);
          var e := DoAbort(abortAnswer);
        }
        opHandle := 0;
        return;
      }
      opHandle := 0;
    }

    /** The destructor. */
    method Destroy(abortAnswer: int)
      requires Valid()
      modifies this`log, this`opHandle
      ensures Valid() && opHandle == 0
      ensures old(opHandle) == 0 ==> log == old(log)
      ensures old(opHandle) != 0 ==> log == old(log) + [Request(Abort, old(opHandle))]
    {
      if opHandle != 0 {
        var e := DoAbort(abortAnswer);
      }
    }

    /** One call of a client. */
    method Make(call: Call, abortAnswer: int)
      requires Valid()
      modifies this
      ensures Valid()
      ensures opHandle == if Ends(call) then 0 else old(opHandle)
      ensures old(opHandle) == h ==> Of(log, h) == old(Of(log, h)) + Handed(call)
      ensures old(opHandle) != h ==> Of(log, h) == old(Of(log, h))
      ensures echoed == (old(echoed) || (old(opHandle) == h && Ends(call) && Echo(call)))
    {
      var e;
      ghost var before, g := log, opHandle;
      match call {
        case UpdateAad(size, answer) =>
          e := DoUpdateAad(size, answer, abortAnswer);
          Attempted(before, log, h, g, Update, size, answer);
        case DoUpdate(hasOutput, size, answer, consumedAll) =>
          e := DoUpdate(hasOutput, size, answer, consumedAll, abortAnswer);
          if hasOutput {
            Attempted(before, log, h, g, Update, size, answer);
          } else {
            assert Of(log, h) + [] == Of(log, h);
          }
        case DoFinish(hasOutput, size, answer) =>
          e := DoFinish(hasOutput, size, answer, abortAnswer);
          if hasOutput {
            Attempted(before, log, h, g, Finish, size, answer);
          } else {
            assert Of(log, h) + [] == Of(log, h);
          }
        case DoAbort(answer) =>
          e := DoAbort(answer);
          OfNext(before, h, Abort, Abort, g);
      }
    }

    /** The calls before destruction. */
    method MakeAll(calls: seq<Call>, abortAnswer: int)
      requires Valid() && opHandle == h
      modifies this
      ensures Valid() && echoed == Echoed(calls)
      ensures Of(log, h) + (if opHandle == h then [Abort] else []) == old(Of(log, h)) + Life(calls)
    {
      var i := 0;
      assert calls[0..] == calls;
      while i < |calls|
        invariant 0 <= i <= |calls| && Valid()
        invariant Echoed(calls) == if opHandle == h then Echoed(calls[i..]) else echoed
        invariant Of(log, h) + (if opHandle == h then Life(calls[i..]) else []) == old(Of(log, h)) + Life(calls)
      {
        LifeOn(Of(log, h), calls, i);
        Make(calls[i], abortAnswer);
        i := i + 1;
      }
      assert calls[i..] == [];
    }

    /**
     Any sequence of calls ending in destruction hands over exactly one Finish or Abort that carries
     the handle, and nothing with the handle after it; the one exception is a secure side that answers
     the Finish with the transport's own code, and then there are two.
     */
    method Live(calls: seq<Call>, abortAnswer: int)
      requires Valid() && opHandle == h
      modifies this
      ensures opHandle == 0
      ensures Endings(log, h) == 1 <==> !Echoed(calls)
      ensures QuietAfterEnd(log, h) <==> !Echoed(calls)
      ensures Endings(log, h) == if Echoed(calls) then 2 else 1
      ensures Of(log, h) == old(Of(log, h)) + Life(calls)
      ensures Request(Finish, h) in log <==> Finishes(calls)
    {
      MakeAll(calls, abortAnswer);
      OfNext(log, h, Abort, Abort, opHandle);
      Destroy(abortAnswer);
      FinishInLife(calls);
      assert Request(Finish, h) !in old(log);
      FinishInLog(old(log), h);
      FinishInLog(log, h);
      InEither(old(Of(log, h)), Life(calls), Finish);
      if echoed {
        TwoEndingsAreLoud(log, h);
      }
    }
  }
}
