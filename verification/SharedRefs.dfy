/**
 How the TEE client library moves bytes between a client's buffers and the
 memory it shares with the secure world. A reference pairs a range of a client
 buffer with the same range of a shared block; staging copies inputs in before
 the call, delivery copies outputs back after it.
 */
module SharedRefs {
  import opened Octets

  /** Memory by block; block 0 is the null pointer and never holds anything. */
  type Memory = map<int, Bytes>

  /** A range `[off, off + len)` of a client block and of its shared counterpart. */
  datatype Ref = Ref(client: int, shared: int, off: nat, len: nat, input: bool, output: bool) {
    /** The range is kept twice, so there is something to copy. */
    predicate Shadowed() {
      client != 0 && shared != 0
    }
  }

  predicate Fits(mem: Memory, r: Ref) {
    r.Shadowed() ==>
      && r.client in mem && r.off + r.len <= |mem[r.client]|
      && r.shared in mem && r.off + r.len <= |mem[r.shared]|
  }

  predicate AllFit(mem: Memory, refs: seq<Ref>) {
    forall i :: 0 <= i < |refs| ==> Fits(mem, refs[i])
  }

  /** The same blocks, each of the same length. */
  predicate SameShape(a: Memory, b: Memory) {
    a.Keys == b.Keys && forall x :: x in a ==> |a[x]| == |b[x]|
  }

  /** No client block is a shared block, and a shared block mirrors one client block only. */
  ghost predicate Separate(refs: seq<Ref>) {
    forall i, j :: 0 <= i < |refs| && 0 <= j < |refs| && refs[i].Shadowed() && refs[j].Shadowed() ==>
                     && refs[i].client != refs[j].shared
                     && (refs[i].shared == refs[j].shared ==> refs[i].client == refs[j].client)
  }

  /** memcpy of `n` bytes at the same offset of two blocks. */
  function Copy(mem: Memory, dst: int, src: int, off: nat, n: nat): (m: Memory)
    requires dst in mem && src in mem && off + n <= |mem[dst]| && off + n <= |mem[src]|
    ensures SameShape(mem, m)
    ensures forall b :: b in mem && b != dst ==> m[b] == mem[b]
    ensures forall j :: 0 <= j < |mem[dst]| ==> m[dst][j] == if off <= j < off + n then mem[src][j] else mem[dst][j]
  {
    mem[dst := mem[dst][..off] + mem[src][off..off + n] + mem[dst][off + n..]]
  }

  /** Before the call: an input range is copied into the shared block. */
  function StageOne(mem: Memory, r: Ref): Memory
    requires Fits(mem, r)
  {
    if r.Shadowed() && r.input then Copy(mem, r.shared, r.client, r.off, r.len) else mem
  }

  /** After the call: an output range is copied back, up to the returned size and only if that fits. */
  function DeliverOne(mem: Memory, r: Ref, ret: nat): Memory
    requires Fits(mem, r)
  {
    if r.Shadowed() && r.output && ret <= r.len then Copy(mem, r.client, r.shared, r.off, ret) else mem
  }

  function StageIn(mem: Memory, refs: seq<Ref>): (m: Memory)
    requires AllFit(mem, refs)
    ensures SameShape(mem, m)
  {
    if |refs| == 0 then mem
    else
      var most := refs[..|refs| - 1];
      StageOne(StageIn(mem, most), refs[|refs| - 1])
  }

  function DeliverOut(mem: Memory, refs: seq<Ref>, rets: seq<nat>): (m: Memory)
    requires AllFit(mem, refs) && |rets| == |refs|
    ensures SameShape(mem, m)
  {
    if |refs| == 0 then mem
    else
      var last := |refs| - 1;
      DeliverOne(DeliverOut(mem, refs[..last], rets[..last]), refs[last], rets[last])
  }

  // ----- what staging achieves

  /** Staging writes to shared blocks only. */
  lemma {:induction false} StageElsewhere(mem: Memory, refs: seq<Ref>, b: int)
    requires AllFit(mem, refs) && b in mem
    requires forall i :: 0 <= i < |refs| && refs[i].Shadowed() ==> refs[i].shared != b
    ensures StageIn(mem, refs)[b] == mem[b]
  {
    if |refs| > 0 {
      StageElsewhere(mem, refs[..|refs| - 1], b);
    }
  }

  /** Staging leaves every client block alone, and every input range then reads the same on both sides. */
  lemma {:induction false} StageMirrors(mem: Memory, refs: seq<Ref>, i: nat)
    requires AllFit(mem, refs) && Separate(refs) && i < |refs| && refs[i].Shadowed()
    ensures StageIn(mem, refs)[refs[i].client] == mem[refs[i].client]
    ensures refs[i].input ==>
              forall j :: refs[i].off <= j < refs[i].off + refs[i].len ==>
                            StageIn(mem, refs)[refs[i].shared][j] == mem[refs[i].client][j]
  {
    StageElsewhere(mem, refs, refs[i].client);
    var last := |refs| - 1;
    var r, most := refs[last], refs[..last];
    if r.Shadowed() {
      StageElsewhere(mem, most, r.client);
    }
    if i < last {
      assert most[i] == refs[i];
      StageMirrors(mem, most, i);
    }
  }

  /** Staging does not see a block that is added later. */
  lemma {:induction false} StageGrow(mem: Memory, refs: seq<Ref>, b: int, bytes: Bytes)
    requires AllFit(mem, refs) && b !in mem
    ensures AllFit(mem[b := bytes], refs)
    ensures StageIn(mem[b := bytes], refs) == StageIn(mem, refs)[b := bytes]
  {
    if |refs| > 0 {
      StageGrow(mem, refs[..|refs| - 1], b, bytes);
    }
  }

  // ----- what delivery achieves

  /** Reference `r` delivers byte `j` of client block `b`. */
  predicate Delivers(r: Ref, ret: nat, b: int, j: int) {
    r.Shadowed() && r.output && ret <= r.len && r.client == b && r.off <= j < r.off + ret
  }

  /**
   The byte a client finds at `b[j]` after delivery: that of the last reference to deliver it, else the one
   that was there.
   */
  function Found(mem: Memory, refs: seq<Ref>, rets: seq<nat>, b: int, j: nat): Byte
    requires AllFit(mem, refs) && |rets| == |refs| && b in mem && j < |mem[b]|
  {
    if |refs| == 0 then mem[b][j]
    else
      var last := |refs| - 1;
      if Delivers(refs[last], rets[last], b, j) then mem[refs[last].shared][j]
      else Found(mem, refs[..last], rets[..last], b, j)
  }

  /** `mem` is `before` with the first `n` references delivered. */
  ghost predicate Delivering(before: Memory, refs: seq<Ref>, rets: seq<nat>, n: nat, mem: Memory) {
    && n <= |refs| == |rets| && AllFit(before, refs) && AllFit(before, refs[..n])
    && mem == DeliverOut(before, refs[..n], rets[..n])
  }

  lemma DeliverNext(before: Memory, refs: seq<Ref>, rets: seq<nat>, n: nat, mem: Memory)
    requires Delivering(before, refs, rets, n, mem) && n < |refs|
    ensures Fits(mem, refs[n]) && Delivering(before, refs, rets, n + 1, DeliverOne(mem, refs[n], rets[n]))
  {
    assert refs[..n + 1][..n] == refs[..n] && rets[..n + 1][..n] == rets[..n];
    assert Fits(before, refs[n]);
  }

  lemma DeliveredAll(before: Memory, refs: seq<Ref>, rets: seq<nat>, mem: Memory)
    requires Delivering(before, refs, rets, |refs|, mem)
    ensures mem == DeliverOut(before, refs, rets)
  {
    assert refs[..|refs|] == refs && rets[..|rets|] == rets;
  }

  /** Where nothing is kept twice there is nothing to deliver. */
  lemma {:induction false} DeliverNothing(mem: Memory, refs: seq<Ref>, rets: seq<nat>)
    requires AllFit(mem, refs) && |rets| == |refs| && forall i :: 0 <= i < |refs| ==> !refs[i].Shadowed()
    ensures DeliverOut(mem, refs, rets) == mem
  {
    if |refs| > 0 {
      DeliverNothing(mem, refs[..|refs| - 1], rets[..|refs| - 1]);
    }
  }

  /** Delivery byte by byte; in particular it never writes to shared memory. */
  lemma {:induction false} DeliveryIsFound(mem: Memory, refs: seq<Ref>, rets: seq<nat>, b: int, j: nat)
    requires AllFit(mem, refs) && Separate(refs) && |rets| == |refs| && b in mem && j < |mem[b]|
    ensures DeliverOut(mem, refs, rets)[b][j] == Found(mem, refs, rets, b, j)
  {
    if |refs| > 0 {
      var last := |refs| - 1;
      var most := refs[..last];
      var r := refs[last];
      DeliveryIsFound(mem, most, rets[..last], b, j);
      if Delivers(r, rets[last], b, j) {
        DeliveryIsFound(mem, most, rets[..last], r.shared, j);
        NeverFoundShared(mem, refs, rets, last, last, j);
      }
    }
  }

  /** No reference delivers into a shared block. */
  lemma {:induction false} NeverFoundShared(mem: Memory, refs: seq<Ref>, rets: seq<nat>, n: nat, i: nat, j: nat)
    requires AllFit(mem, refs) && Separate(refs) && |rets| == |refs| && n <= |refs| && i < |refs|
    requires refs[i].Shadowed() && j < |mem[refs[i].shared]|
    ensures Found(mem, refs[..n], rets[..n], refs[i].shared, j) == mem[refs[i].shared][j]
  {
    if n > 0 {
      assert refs[..n][..n - 1] == refs[..n - 1] && rets[..n][..n - 1] == rets[..n - 1];
      NeverFoundShared(mem, refs, rets, n - 1, i, j);
    }
  }

  /** A byte that changed was delivered by some output reference, and comes from the shared side. */
  lemma {:induction false} OnlyOutputsChange(mem: Memory, refs: seq<Ref>, rets: seq<nat>, b: int, j: nat)
    requires AllFit(mem, refs) && |rets| == |refs| && b in mem && j < |mem[b]|
    ensures Found(mem, refs, rets, b, j) != mem[b][j] ==>
              exists i :: 0 <= i < |refs| && Delivers(refs[i], rets[i], b, j) &&
                          Found(mem, refs, rets, b, j) == mem[refs[i].shared][j]
  {
    if |refs| > 0 {
      var last := |refs| - 1;
      if !Delivers(refs[last], rets[last], b, j) {
        OnlyOutputsChange(mem, refs[..last], rets[..last], b, j);
        if Found(mem, refs, rets, b, j) != mem[b][j] {
          var i :| 0 <= i < last && Delivers(refs[..last][i], rets[..last][i], b, j) &&
                   Found(mem, refs, rets, b, j) == mem[refs[..last][i].shared][j];
          assert refs[..last][i] == refs[i] && rets[..last][i] == rets[i];
        }
      }
    }
  }

  /** Where one reference alone speaks for a client block, exactly its returned prefix is delivered. */
  lemma {:induction false} SoleReference(mem: Memory, refs: seq<Ref>, rets: seq<nat>, k: nat, j: nat)
    requires AllFit(mem, refs) && |rets| == |refs| && k < |refs| && refs[k].Shadowed() && j < |mem[refs[k].client]|
    requires forall i :: 0 <= i < |refs| && i != k ==> refs[i].client != refs[k].client
    ensures Found(mem, refs, rets, refs[k].client, j) ==
            if Delivers(refs[k], rets[k], refs[k].client, j) then mem[refs[k].shared][j] else mem[refs[k].client][j]
  {
    var last := |refs| - 1;
    if k == last {
      NotMentioned(mem, refs[..last], rets[..last], refs[k].client, j);
    } else {
      assert refs[..last][k] == refs[k] && rets[..last][k] == rets[k];
      SoleReference(mem, refs[..last], rets[..last], k, j);
    }
  }

  lemma {:induction false} NotMentioned(mem: Memory, refs: seq<Ref>, rets: seq<nat>, b: int, j: nat)
    requires AllFit(mem, refs) && |rets| == |refs| && b in mem && j < |mem[b]|
    requires forall i :: 0 <= i < |refs| ==> refs[i].client != b
    ensures Found(mem, refs, rets, b, j) == mem[b][j]
  {
    if |refs| > 0 {
      NotMentioned(mem, refs[..|refs| - 1], rets[..|refs| - 1], b, j);
    }
  }

  /** Delivery to a client block that one reference alone names, as a whole block. */
  lemma DeliverSole(mem: Memory, refs: seq<Ref>, rets: seq<nat>, k: nat)
    requires AllFit(mem, refs) && Separate(refs) && |rets| == |refs| && k < |refs| && refs[k].Shadowed() &&
             refs[k].output
    requires forall i :: 0 <= i < |refs| && i != k ==> refs[i].client != refs[k].client
    ensures DeliverOut(mem, refs, rets)[refs[k].client] ==
            if rets[k] > refs[k].len then mem[refs[k].client]
            else Copy(mem, refs[k].client, refs[k].shared, refs[k].off, rets[k])[refs[k].client]
  {
    var r, ret := refs[k], rets[k];
    var got := DeliverOut(mem, refs, rets)[r.client];
    forall j | 0 <= j < |got|
      ensures got[j] == if ret <= r.len && r.off <= j < r.off + ret then mem[r.shared][j] else mem[r.client][j]
    {
      DeliveryIsFound(mem, refs, rets, r.client, j);
      SoleReference(mem, refs, rets, k, j);
    }
  }

  // ----- the whole transaction

  /** A client block after the secure side worked on a range of it in place and returned a size for it. */
  function InPlace(block: Bytes, off: nat, len: nat, effect: Bytes -> Bytes, ret: nat): Bytes
    requires off + len <= |block| && |effect(block[off..off + len])| == len
  {
    if ret <= len then block[..off] + effect(block[off..off + len])[..ret] + block[off + ret..] else block
  }

  /** A staged input range reads the same on both sides, as a whole. */
  lemma StageRange(mem: Memory, refs: seq<Ref>, k: nat)
    requires AllFit(mem, refs) && Separate(refs) && k < |refs| && refs[k].Shadowed() && refs[k].input
    ensures StageIn(mem, refs)[refs[k].client] == mem[refs[k].client]
    ensures StageIn(mem, refs)[refs[k].shared][refs[k].off..refs[k].off + refs[k].len] ==
            mem[refs[k].client][refs[k].off..refs[k].off + refs[k].len]
  {
    StageMirrors(mem, refs, k);
  }

  /** Copying back what the effect left in the shared range is the effect in place. */
  lemma InPlaceIsCopy(mid: Memory, r: Ref, block: Bytes, ret: nat, effect: Bytes -> Bytes)
    requires r.Shadowed() && Fits(mid, r) && mid[r.client] == block
    requires mid[r.shared][r.off..r.off + r.len] == effect(block[r.off..r.off + r.len])
    ensures |effect(block[r.off..r.off + r.len])| == r.len
    ensures InPlace(block, r.off, r.len, effect, ret) ==
            if ret > r.len then block else Copy(mid, r.client, r.shared, r.off, ret)[r.client]
  {
    if ret <= r.len {
      assert mid[r.shared][r.off..r.off + r.len][..ret] == mid[r.shared][r.off..r.off + ret];
    }
  }

  /**
   Shadow buffers are invisible: for an in-out reference whose client block no other parameter names,
   staging, any effect of the secure side on the shared range, and delivery amount to that effect
   applied to the client's own buffer, seen through the returned size.
   */
  lemma ShadowIsInPlace(mem: Memory, refs: seq<Ref>, mid: Memory, rets: seq<nat>, k: nat, r: Ref,
                        effect: Bytes -> Bytes)
    requires AllFit(mem, refs) && AllFit(mid, refs) && Separate(refs) && |rets| == |refs|
    requires k < |refs| && r == refs[k] && r.Shadowed() && r.input && r.output
    requires forall i :: 0 <= i < |refs| && i != k ==> refs[i].client != r.client
    requires mid[r.client] == StageIn(mem, refs)[r.client]
    requires mid[r.shared][r.off..r.off + r.len] == effect(StageIn(mem, refs)[r.shared][r.off..r.off + r.len])
    ensures |effect(mem[r.client][r.off..r.off + r.len])| == r.len
    ensures DeliverOut(mid, refs, rets)[r.client] == InPlace(mem[r.client], r.off, r.len, effect, rets[k])
  {
    StageRange(mem, refs, k);
    DeliverSole(mid, refs, rets, k);
    InPlaceIsCopy(mid, r, mem[r.client], rets[k], effect);
  }
}
