/** What clients may rely on over whole runs of the proxy, crashes included. */
module FileHistory {
  import opened Octets
  import opened Wrappers
  import opened KernelModel
  import opened Ipc
  import opened FileService
  import opened Storage
  import opened ProxyLoop

  // ----- files that no request concerns

  /** The request asks to empty file `i` as it is opened. */
  predicate Truncates(req: Bytes, was: Files, i: Inode)
    requires |req| >= 4
  {
    var flags := Word32(req, 0);
    var dir, path := was.cache.Dir(RootOf(flags)), PathOf(flags, req[4..]);
    Has(flags, OPEN_TRUNCATE) && path in dir && dir[path] == i
  }

  /**
   The request does not concern file `i`, open as `h`: it does not close `h`, and it neither
   writes to the file nor resizes it, through any handle, nor opens it with truncation.
   */
  predicate Harmless(cmd: nat, req: Bytes, was: Files, h: nat, i: Inode) {
    && (cmd == FILE_CLOSE && |req| == 4 ==> Word32(req, 0) != h)
    && !WritesTo(cmd, req, was, i)
    && (cmd == FILE_SET_SIZE && |req| == 16 && Word32(req, 8) in was.open ==> was.open[Word32(req, 8)] != i)
    && (cmd == FILE_OPEN && |req| >= 4 ==> !Truncates(req, was, i))
  }

  predicate HarmlessMessage(raw: Bytes, was: Files, h: nat, i: Inode) {
    |raw| >= HEADER_SIZE ==> Harmless(Header(raw).cmd, raw[HEADER_SIZE..], was, h, i)
  }

  /** Handle `h` stands for file `i`, which holds `bytes`. */
  ghost predicate Holds(s: Files, h: nat, i: Inode, bytes: Bytes) {
    h in s.open && s.open[h] == i && s.cache.Contents(i) == bytes
  }

  /** A harmless request, whatever its outcome, leaves the handle and the contents of the file alone. */
  lemma Bystander(cmd: nat, req: Bytes, was: Files, now: Files, r: Response, why: Cause,
                  h: nat, i: Inode, bytes: Bytes)
    requires Served(cmd, req, was, now, r, why) && Harmless(cmd, req, was, h, i) && Holds(was, h, i, bytes)
    ensures Holds(now, h, i, bytes)
  {
    if cmd == FILE_WRITE && |req| >= 16 {
      var n :| 0 <= n <= |req| - 16 && Wrote(was, now, Word32(req, 8), Word64(req, 0), req[16..][..n]);
    }
  }

  lemma BystanderStep(x: Exchange, roots: set<Root>, s: State, t: State, h: nat, i: Inode, bytes: Bytes)
    requires Step(x, roots, s, t) && HarmlessMessage(x.raw, s.files, h, i) && Holds(s.files, h, i, bytes)
    ensures Holds(t.files, h, i, bytes)
  {
    if x.served {
      Bystander(Header(x.raw).cmd, x.raw[HEADER_SIZE..], s.files, t.files, x.resp, x.why, h, i, bytes);
    }
  }

  /** So does any number of harmless messages, served or turned away. */
  lemma {:induction false} Bystanders(roots: set<Root>, states: seq<State>, xs: seq<Exchange>, a: nat, b: nat,
                                      h: nat, i: Inode, bytes: Bytes)
    requires Trace(roots, states, xs) && a <= b <= |xs| && Holds(states[a].files, h, i, bytes)
    requires forall j :: a <= j < b ==> HarmlessMessage(xs[j].raw, states[j].files, h, i)
    ensures Holds(states[b].files, h, i, bytes)
    decreases b - a
  {
    if a < b {
      assert StepAt(roots, states, xs, a);
      BystanderStep(xs[a], roots, states[a], states[a + 1], h, i, bytes);
      Bystanders(roots, states, xs, a + 1, b, h, i, bytes);
    }
  }

  // ----- reading one's own writes

  /** A message asking to write `data` at `off` through `h`, answered with success. */
  ghost predicate WriteDone(x: Exchange, h: nat, off: nat, data: Bytes) {
    && |x.raw| >= HEADER_SIZE + 16 && Header(x.raw).cmd == FILE_WRITE && x.resp.msg.result == NO_ERROR
    && var req := x.raw[HEADER_SIZE..];
    Word32(req, 8) == h && Word64(req, 0) == off && req[16..] == data
  }

  /** A message asking to read `n` bytes at `off` through `h`, answered with success. */
  ghost predicate ReadDone(x: Exchange, h: nat, off: nat, n: nat) {
    && |x.raw| == HEADER_SIZE + 16 && Header(x.raw).cmd == FILE_READ && x.resp.msg.result == NO_ERROR
    && var req := x.raw[HEADER_SIZE..];
    Word32(req, 0) == h && Word64(req, 8) == off && Word32(req, 4) == n
  }

  /** A write answered with success was served, and put its payload in the file. */
  lemma WriteEffect(x: Exchange, roots: set<Root>, s: State, t: State, h: nat, off: nat, data: Bytes)
    requires Step(x, roots, s, t) && WriteDone(x, h, off, data) && data != []
    ensures h in s.files.open && x.served
    ensures Holds(t.files, h, s.files.open[h], Spliced(s.files.cache.Contents(s.files.open[h]), off, data))
  {
    assert WriteStep(x.raw[HEADER_SIZE..], s.files, t.files, x.resp, x.why);
    assert data[..|data|] == data;
  }

  /** A read answered with success was served, and carries what the file holds there. */
  lemma ReadAnswer(x: Exchange, roots: set<Root>, s: State, t: State, h: nat, off: nat, n: nat, i: Inode, bytes: Bytes)
    requires Step(x, roots, s, t) && ReadDone(x, h, off, n) && n > 0 && Holds(s.files, h, i, bytes)
    ensures x.resp.payload == Some(Clip(bytes, off, n))
  {
    assert ReadStep(x.raw[HEADER_SIZE..], s.files, t.files, x.resp, x.why);
  }

  lemma WriteAt(roots: set<Root>, states: seq<State>, xs: seq<Exchange>, a: nat, h: nat, off: nat, data: Bytes)
    requires Trace(roots, states, xs) && a < |xs| && data != [] && WriteDone(xs[a], h, off, data)
    ensures var was := states[a].files;
            && h in was.open
            && Holds(states[a + 1].files, h, was.open[h], Spliced(was.cache.Contents(was.open[h]), off, data))
  {
    assert StepAt(roots, states, xs, a);
    WriteEffect(xs[a], roots, states[a], states[a + 1], h, off, data);
  }

  /** What is written is held until something concerns the file again. */
  lemma WriteHolds(roots: set<Root>, states: seq<State>, xs: seq<Exchange>, a: nat, b: nat,
                   h: nat, off: nat, data: Bytes, i: Inode)
    requires Trace(roots, states, xs) && a < b <= |xs| && data != [] && WriteDone(xs[a], h, off, data)
    requires h in states[a].files.open && i == states[a].files.open[h]
    requires forall j :: a < j < b ==> HarmlessMessage(xs[j].raw, states[j].files, h, i)
    ensures Holds(states[b].files, h, i, Spliced(states[a].files.cache.Contents(i), off, data))
  {
    WriteAt(roots, states, xs, a, h, off, data);
    Bystanders(roots, states, xs, a + 1, b, h, i, Spliced(states[a].files.cache.Contents(i), off, data));
  }

  /**
   Read your writes, over any run: when a range is written and later read through the same
   handle, both with success, and everything in between is harmless to that file, the answer
   carries the data, however many other files were opened, written, resized, deleted or
   closed meanwhile, whatever failed or was turned away, and even if the file's own name
   was deleted or reused.
   */
  lemma ReadYourWrites(roots: set<Root>, states: seq<State>, xs: seq<Exchange>, a: nat, b: nat,
                       h: nat, off: nat, data: Bytes)
    requires Trace(roots, states, xs) && a < b < |xs| && data != []
    requires WriteDone(xs[a], h, off, data) && ReadDone(xs[b], h, off, |data|)
    requires h in states[a].files.open ==>
               forall j :: a < j < b ==> HarmlessMessage(xs[j].raw, states[j].files, h, states[a].files.open[h])
    ensures xs[b].resp.payload == Some(data)
  {
    WriteAt(roots, states, xs, a, h, off, data);
    var i := states[a].files.open[h];
    var was := states[a].files.cache.Contents(i);
    WriteHolds(roots, states, xs, a, b, h, off, data, i);
    assert xs[b].resp.payload == Some(Clip(Spliced(was, off, data), off, |data|)) by {
      assert StepAt(roots, states, xs, b);
      ReadAnswer(xs[b], roots, states[b], states[b + 1], h, off, |data|, i, Spliced(was, off, data));
    }
    ReadBack(was, off, data);
  }

  // ----- surviving a crash

  /** The exchange is a close of file `i` that was answered with an error. */
  ghost predicate VainClose(x: Exchange, was: Files, i: Inode) {
    |x.raw| >= HEADER_SIZE && ClosedInVain(Header(x.raw).cmd, x.raw[HEADER_SIZE..], was, x.resp, i)
  }

  /** The exchange is a commit that had to miss file `i`. */
  ghost predicate VainCommit(x: Exchange, roots: set<Root>, before: Persisted, i: Inode) {
    |x.raw| >= HEADER_SIZE && CommitsFirst(Header(x.raw)) && Missed(roots, before, i)
  }

  /** The two ways in which a file can come adrift. */
  ghost predicate Cause(x: Exchange, roots: set<Root>, s: State, i: Inode) {
    VainClose(x, s.files, i) || VainCommit(x, roots, s.kept, i)
  }

  /** The last state before `n` in which a file that is adrift at `n` was not. */
  lemma {:induction false} LastCovered(states: seq<State>, n: nat, i: Inode) returns (j: nat)
    requires n < |states| && i in states[n].kept.adrift && i !in states[0].kept.adrift
    ensures j < n && i !in states[j].kept.adrift && forall k :: j < k <= n ==> i in states[k].kept.adrift
  {
    j := n - 1;
    if i in states[j].kept.adrift {
      j := LastCovered(states, n - 1, i);
    }
  }

  /**
   In every reachable state the flags account for every unsynced file, but for those whose latest
   close failed or that a commit had to miss, and that no flag has named since.
   */
  lemma AdriftHasCause(roots: set<Root>, states: seq<State>, xs: seq<Exchange>, n: nat, i: Inode)
    requires Trace(roots, states, xs) && n <= |xs|
    requires i in states[n].kept.adrift && i !in states[0].kept.adrift
    ensures exists j :: 0 <= j < n && Cause(xs[j], roots, states[j], i) &&
                        forall k :: j < k <= n ==> i in states[k].kept.adrift
  {
    var j := LastCovered(states, n, i);
    assert StepAt(roots, states, xs, j) && Cause(xs[j], roots, states[j], i);
  }

  /** A file that is written to is not adrift then, and stays so as long as no close of it fails. */
  lemma {:induction false} WrittenStaysCovered(roots: set<Root>, states: seq<State>, xs: seq<Exchange>, a: nat, b: nat,
                                               h: nat, off: nat, data: Bytes, i: Inode)
    requires Trace(roots, states, xs) && a < b <= |xs| && data != [] && WriteDone(xs[a], h, off, data)
    requires h in states[a].files.open && i == states[a].files.open[h] && i.root in roots
    requires forall j :: a < j < b ==> !VainClose(xs[j], states[j].files, i)
    ensures i !in states[b].kept.adrift
    decreases b
  {
    assert StepAt(roots, states, xs, b - 1);
    if a + 1 < b {
      WrittenStaysCovered(roots, states, xs, a, b - 1, h, off, data, i);
      assert !VainClose(xs[b - 1], states[b - 1].files, i);
    } else {
      WriteEffect(xs[a], roots, states[a], states[b], h, off, data);
    }
  }

  /** What is on disk and does not change stays on disk. */
  lemma {:induction false} StaysOnDisk(roots: set<Root>, states: seq<State>, xs: seq<Exchange>, b: nat, c: nat,
                                       h: nat, i: Inode, bytes: Bytes)
    requires Trace(roots, states, xs) && b <= c <= |xs| && Holds(states[b].files, h, i, bytes)
    requires states[b].kept.disk.Contents(i) == bytes
    requires forall j :: b <= j < c ==> HarmlessMessage(xs[j].raw, states[j].files, h, i)
    ensures states[c].kept.disk.Contents(i) == bytes
    decreases c - b
  {
    if b < c {
      assert StepAt(roots, states, xs, b);
      BystanderStep(xs[b], roots, states[b], states[b + 1], h, i, bytes);
      StaysOnDisk(roots, states, xs, b + 1, c, h, i, bytes);
    }
  }

  /** A message that asks for a commit, answered with success. */
  ghost predicate CommitAnswered(x: Exchange) {
    |x.raw| >= HEADER_SIZE && CommitsFirst(Header(x.raw)) && x.resp.msg.result == NO_ERROR
  }

  /**
   A commit answered with success has happened before its request was handled: the directories that clients
   saw were on disk then, and so was every file that was not adrift.
   */
  lemma CommitDone(x: Exchange, roots: set<Root>, s: State, t: State, i: Inode)
    requires Step(x, roots, s, t) && CommitAnswered(x) && i.root in roots
    ensures i !in s.kept.adrift ==> x.entry.disk.Contents(i) == s.files.cache.Contents(i)
    ensures i !in s.kept.adrift && !WritesTo(Header(x.raw).cmd, x.raw[HEADER_SIZE..], s.files, i) ==>
              t.kept.disk.Contents(i) == s.files.cache.Contents(i)
    ensures x.entry.disk.Dir(i.root) == s.files.cache.Dir(i.root) == t.kept.disk.Dir(i.root)
  {
    assert x.served;
    BarrierHolds(Header(x.raw), x.raw[HEADER_SIZE..], x.resp, roots, s.files, s.kept, x.entry, t.kept);
  }

  /** The commit puts on disk what was written before, and leaves it in place. */
  lemma CommitReaches(roots: set<Root>, states: seq<State>, xs: seq<Exchange>, b: nat, h: nat, i: Inode, bytes: Bytes)
    requires Trace(roots, states, xs) && b < |xs| && CommitAnswered(xs[b])
    requires HarmlessMessage(xs[b].raw, states[b].files, h, i)
    requires Holds(states[b].files, h, i, bytes) && i !in states[b].kept.adrift && i.root in roots
    ensures Holds(states[b + 1].files, h, i, bytes) && states[b + 1].kept.disk.Contents(i) == bytes
  {
    assert StepAt(roots, states, xs, b);
    CommitDone(xs[b], roots, states[b], states[b + 1], i);
    BystanderStep(xs[b], roots, states[b], states[b + 1], h, i, bytes);
  }

  /**
   Committed writes survive: a file written with success at exchange `a` is on disk after every exchange
   from `b` on, with all its changes of before, where `b` is a later request that asks for a commit and is
   answered with success. This holds for every run and every pattern of failures, as long as nothing else
   concerns the file and no close of it failed before the commit.
   */
  lemma CommittedWritesSurvive(roots: set<Root>, states: seq<State>, xs: seq<Exchange>, a: nat, b: nat, c: nat,
                               h: nat, off: nat, data: Bytes, i: Inode)
    requires Trace(roots, states, xs) && a < b < c <= |xs| && data != [] && WriteDone(xs[a], h, off, data)
    requires h in states[a].files.open && i == states[a].files.open[h] && i.root in roots
    requires CommitAnswered(xs[b])
    requires forall j :: a < j < c ==> HarmlessMessage(xs[j].raw, states[j].files, h, i)
    requires forall j :: a < j < b ==> !VainClose(xs[j], states[j].files, i)
    ensures states[c].kept.disk.Contents(i) == Spliced(states[a].files.cache.Contents(i), off, data)
  {
    var file := Spliced(states[a].files.cache.Contents(i), off, data);
    WriteHolds(roots, states, xs, a, b, h, off, data, i);
    WrittenStaysCovered(roots, states, xs, a, b, h, off, data, i);
    CommitReaches(roots, states, xs, b, h, i, file);
    StaysOnDisk(roots, states, xs, b + 1, c, h, i, file);
  }

  // ----- writes that go through

  /** The file holds `data` at `off` on disk. */
  ghost predicate RangeOnDisk(k: Persisted, i: Inode, off: nat, data: Bytes) {
    Clip(k.disk.Contents(i), off, |data|) == data
  }

  /** A write answered with success has gone through to the disk. */
  lemma WriteThrough(roots: set<Root>, states: seq<State>, xs: seq<Exchange>, a: nat, h: nat, off: nat, data: Bytes,
                     i: Inode)
    requires Trace(roots, states, xs) && a < |xs| && data != [] && WriteDone(xs[a], h, off, data)
    requires h in states[a].files.open && i == states[a].files.open[h]
    ensures RangeOnDisk(states[a + 1].kept, i, off, data)
  {
    assert StepAt(roots, states, xs, a);
    WriteEffect(xs[a], roots, states[a], states[a + 1], h, off, data);
    ThroughHolds(xs[a].raw[HEADER_SIZE..], xs[a].resp, states[a].files, xs[a].entry, states[a + 1].kept, i);
  }

  lemma ThroughHolds(req: Bytes, r: Response, was: Files, before: Persisted, after: Persisted, i: Inode)
    requires |req| >= 16 && Through(req, r, was, before, after, i) && r.msg.result == NO_ERROR
    ensures RangeOnDisk(after, i, Word64(req, 0), req[16..])
  {
    var off, data := Word64(req, 0), req[16..];
    assert ThroughTo(req, was, before, after, i, |data|) && data[..|data|] == data;
    ReadBack(before.disk.Contents(i), off, data);
    ReadBack(was.cache.Contents(i), off, data);
  }

  /** What the file holds in a range, on disk and for clients, stays there while nothing concerns the file. */
  lemma {:induction false} RangeStays(roots: set<Root>, states: seq<State>, xs: seq<Exchange>, b: nat, c: nat,
                                      h: nat, i: Inode, bytes: Bytes, off: nat, data: Bytes)
    requires Trace(roots, states, xs) && b <= c <= |xs| && Holds(states[b].files, h, i, bytes)
    requires Clip(bytes, off, |data|) == data && RangeOnDisk(states[b].kept, i, off, data)
    requires forall j :: b <= j < c ==> HarmlessMessage(xs[j].raw, states[j].files, h, i)
    ensures RangeOnDisk(states[c].kept, i, off, data)
    decreases c - b
  {
    if b < c {
      assert StepAt(roots, states, xs, b);
      BystanderStep(xs[b], roots, states[b], states[b + 1], h, i, bytes);
      RangeStays(roots, states, xs, b + 1, c, h, i, bytes, off, data);
    }
  }

  /**
   Written data survives even without a commit, since every file is opened for synchronous writes: data
   written with success at exchange `a` is on disk after every later exchange, whatever fails, as long as
   nothing else concerns the file.
   */
  lemma WrittenRangeSurvives(roots: set<Root>, states: seq<State>, xs: seq<Exchange>, a: nat, c: nat,
                             h: nat, off: nat, data: Bytes, i: Inode)
    requires Trace(roots, states, xs) && a < c <= |xs| && data != [] && WriteDone(xs[a], h, off, data)
    requires h in states[a].files.open && i == states[a].files.open[h]
    requires forall j :: a < j < c ==> HarmlessMessage(xs[j].raw, states[j].files, h, i)
    ensures RangeOnDisk(states[c].kept, i, off, data)
  {
    var was := states[a].files.cache.Contents(i);
    WriteThrough(roots, states, xs, a, h, off, data, i);
    WriteAt(roots, states, xs, a, h, off, data);
    ReadBack(was, off, data);
    RangeStays(roots, states, xs, a + 1, c, h, i, Spliced(was, off, data), off, data);
  }

  // ----- names

  function LookUp(v: Volume, root: Root, name: Name): Option<Inode> {
    if name in v.Dir(root) then Some(v.Dir(root)[name]) else None
  }

  /** The request neither deletes the name nor may create it. */
  predicate SparesName(cmd: nat, req: Bytes, root: Root, name: Name) {
    && (cmd == FILE_DELETE && |req| >= 4 ==> !(root == DataRoot && req[4..] == name))
    && (cmd == FILE_OPEN && |req| >= 4 && Has(Word32(req, 0), OPEN_CREATE) ==>
          !(RootOf(Word32(req, 0)) == root && PathOf(Word32(req, 0), req[4..]) == name))
  }

  predicate NameSpared(raw: Bytes, root: Root, name: Name) {
    |raw| >= HEADER_SIZE ==> SparesName(Header(raw).cmd, raw[HEADER_SIZE..], root, name)
  }

  /** A request that spares the name, whatever its outcome, leaves what it stands for alone. */
  lemma NameBystander(cmd: nat, req: Bytes, was: Files, now: Files, r: Response, why: Cause, root: Root, name: Name)
    requires Served(cmd, req, was, now, r, why) && SparesName(cmd, req, root, name)
    ensures LookUp(now.cache, root, name) == LookUp(was.cache, root, name)
  {
    if cmd == FILE_WRITE && |req| >= 16 {
      var n :| 0 <= n <= |req| - 16 && Wrote(was, now, Word32(req, 8), Word64(req, 0), req[16..][..n]);
    }
  }

  lemma NameStep(x: Exchange, roots: set<Root>, s: State, t: State, root: Root, name: Name)
    requires Step(x, roots, s, t) && NameSpared(x.raw, root, name)
    ensures LookUp(t.files.cache, root, name) == LookUp(s.files.cache, root, name)
    ensures || LookUp(t.kept.disk, root, name) == LookUp(s.kept.disk, root, name)
            || LookUp(t.kept.disk, root, name) == LookUp(s.files.cache, root, name)
  {
    if x.served {
      NameBystander(Header(x.raw).cmd, x.raw[HEADER_SIZE..], s.files, t.files, x.resp, x.why, root, name);
    }
  }

  lemma {:induction false} NameKept(roots: set<Root>, states: seq<State>, xs: seq<Exchange>, a: nat, b: nat,
                                    root: Root, name: Name)
    requires Trace(roots, states, xs) && a <= b <= |xs|
    requires forall j :: a <= j < b ==> NameSpared(xs[j].raw, root, name)
    ensures LookUp(states[b].files.cache, root, name) == LookUp(states[a].files.cache, root, name)
    decreases b - a
  {
    if a < b {
      assert StepAt(roots, states, xs, a);
      NameStep(xs[a], roots, states[a], states[a + 1], root, name);
      NameKept(roots, states, xs, a + 1, b, root, name);
    }
  }

  lemma {:induction false} NameStaysOnDisk(roots: set<Root>, states: seq<State>, xs: seq<Exchange>, b: nat, c: nat,
                                           root: Root, name: Name)
    requires Trace(roots, states, xs) && b <= c <= |xs|
    requires LookUp(states[b].kept.disk, root, name) == LookUp(states[b].files.cache, root, name)
    requires forall j :: b <= j < c ==> NameSpared(xs[j].raw, root, name)
    ensures LookUp(states[c].kept.disk, root, name) == LookUp(states[b].files.cache, root, name)
    decreases c - b
  {
    if b < c {
      assert StepAt(roots, states, xs, b);
      NameStep(xs[b], roots, states[b], states[b + 1], root, name);
      NameStaysOnDisk(roots, states, xs, b + 1, c, root, name);
    }
  }

  /**
   Committed names survive: what a name stands for after exchange `a`, which may have created or deleted
   it, is on disk after every exchange from the commit `b` on, until a request deletes or may create that name
   again.
   */
  lemma CommittedNamesSurvive(roots: set<Root>, states: seq<State>, xs: seq<Exchange>, a: nat, b: nat, c: nat,
                              root: Root, name: Name)
    requires Trace(roots, states, xs) && a < b < c <= |xs| && CommitAnswered(xs[b]) && root in roots
    requires forall j :: a < j < c ==> NameSpared(xs[j].raw, root, name)
    ensures LookUp(states[c].kept.disk, root, name) == LookUp(states[a + 1].files.cache, root, name)
  {
    NameKept(roots, states, xs, a + 1, b, root, name);
    CommitAt(roots, states, xs, b, root, name);
    NameStaysOnDisk(roots, states, xs, b + 1, c, root, name);
  }

  lemma CommitAt(roots: set<Root>, states: seq<State>, xs: seq<Exchange>, b: nat, root: Root, name: Name)
    requires Trace(roots, states, xs) && b < |xs| && CommitAnswered(xs[b]) && root in roots
    requires NameSpared(xs[b].raw, root, name)
    ensures LookUp(states[b + 1].kept.disk, root, name) == LookUp(states[b].files.cache, root, name)
    ensures LookUp(states[b + 1].files.cache, root, name) == LookUp(states[b].files.cache, root, name)
  {
    assert StepAt(roots, states, xs, b);
    CommitDone(xs[b], roots, states[b], states[b + 1], Inode(root, 0));
    NameStep(xs[b], roots, states[b], states[b + 1], root, name);
  }

  /** An open answered with success: the name stands for the file behind the new handle. */
  lemma OpenEffect(x: Exchange, roots: set<Root>, s: State, t: State, req: Bytes)
    requires Step(x, roots, s, t) && req == x.raw[HEADER_SIZE..]
    requires Header(x.raw).cmd == FILE_OPEN && x.resp.msg.result == NO_ERROR
    ensures |req| >= 4 && x.resp.payload.Some? && |x.resp.payload.value| == 4
    ensures var flags, h := Word32(req, 0), Word32(x.resp.payload.value, 0);
            && h !in s.files.open && h in t.files.open
            && LookUp(t.files.cache, RootOf(flags), PathOf(flags, req[4..])) == Some(t.files.open[h])
  {
    OpenedIsFound(req, s.files, t.files, x.resp, x.why);
  }

  lemma OpenedIsFound(req: Bytes, was: Files, now: Files, r: Response, why: Cause)
    requires OpenStep(req, was, now, r, why) && r.msg.result == NO_ERROR
    ensures |req| >= 4 && r.payload.Some? && |r.payload.value| == 4
    ensures var flags, h := Word32(req, 0), Word32(r.payload.value, 0);
            && h !in was.open && h in now.open
            && LookUp(now.cache, RootOf(flags), PathOf(flags, req[4..])) == Some(now.open[h])
  {
  }

  /** An open of a missing file without the create flag, or of a present one to be created, is refused by name. */
  lemma OpenRefused(x: Exchange, roots: set<Root>, s: State, t: State, req: Bytes)
    requires Step(x, roots, s, t) && req == x.raw[HEADER_SIZE..] && |req| >= 4 && 0 !in req[4..]
    requires Header(x.raw).cmd == FILE_OPEN && x.served && x.why != OutOfMemory
    ensures var flags := Word32(req, 0);
            var there := LookUp(s.files.cache, RootOf(flags), PathOf(flags, req[4..]));
            && (there == None && !Has(flags, OPEN_CREATE) ==> x.resp.msg.result == ERR_NOT_FOUND)
            && (there != None && Has(flags, OPEN_CREATE) && Has(flags, OPEN_EXCLUSIVE) ==>
                  x.resp.msg.result == ERR_EXIST)
            && (x.resp.msg.result == NO_ERROR <==> t.failure == None)
  {
    assert OpenStep(req, s.files, t.files, x.resp, x.why);
  }

  /** A delete answered with success: the name stands for nothing. */
  lemma DeleteEffect(x: Exchange, roots: set<Root>, s: State, t: State, req: Bytes)
    requires Step(x, roots, s, t) && req == x.raw[HEADER_SIZE..]
    requires Header(x.raw).cmd == FILE_DELETE && x.resp.msg.result == NO_ERROR
    ensures |req| >= 4 && LookUp(t.files.cache, DataRoot, req[4..]) == None
  {
    assert DeleteStep(req, s.files, t.files, x.resp, x.why);
  }

  /**
   After a crash the file is found: if a name stands for the file a write goes to, and a commit follows, then
   after every later exchange the name leads, on disk, to that file with the data in it.
   */
  lemma FoundAfterCrash(roots: set<Root>, states: seq<State>, xs: seq<Exchange>, a: nat, b: nat, c: nat,
                        h: nat, off: nat, data: Bytes, i: Inode, name: Name)
    requires Trace(roots, states, xs) && a < b < c <= |xs| && data != [] && WriteDone(xs[a], h, off, data)
    requires h in states[a].files.open && i == states[a].files.open[h] && i.root in roots
    requires CommitAnswered(xs[b]) && LookUp(states[a].files.cache, i.root, name) == Some(i)
    requires forall j :: a < j < c ==> HarmlessMessage(xs[j].raw, states[j].files, h, i)
    requires forall j :: a < j < c ==> NameSpared(xs[j].raw, i.root, name)
    requires forall j :: a < j < b ==> !VainClose(xs[j], states[j].files, i)
    ensures var disk := states[c].kept.disk;
            && name in disk.Dir(i.root)
            && disk.Contents(disk.Dir(i.root)[name]) == Spliced(states[a].files.cache.Contents(i), off, data)
  {
    assert NameSpared(xs[a].raw, i.root, name);
    NameKept(roots, states, xs, a, a + 1, i.root, name);
    CommittedNamesSurvive(roots, states, xs, a, b, c, i.root, name);
    CommittedWritesSurvive(roots, states, xs, a, b, c, h, off, data, i);
  }
}
