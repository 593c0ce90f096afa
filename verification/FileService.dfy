/**
 The file service the proxy offers, as a relation between the files before a
 request, the files after it and the response. It speaks of names, contents and
 handles only: nothing here knows about retries, short transfers, dirty flags or
 commit flags.
 */
module FileService {
  import opened Octets
  import opened Wrappers
  import opened KernelModel
  import opened Ipc

  const FILE_DELETE: nat := 2
  const FILE_OPEN: nat := 4
  const FILE_CLOSE: nat := 6
  const FILE_READ: nat := 8
  const FILE_WRITE: nat := 10
  const FILE_GET_SIZE: nat := 12
  const FILE_SET_SIZE: nat := 14

  const MAX_READ_SIZE: nat := 4096

  const OPEN_CREATE: nat := 1
  const OPEN_EXCLUSIVE: nat := 2
  const OPEN_TRUNCATE: nat := 4
  const OPEN_PERSISTENT: nat := 8
  const OPEN_PROINFO: nat := 16

  /** Flag `bit`, a power of two, is set in `flags`. */
  predicate Has(flags: nat, bit: nat)
    requires bit > 0
  {
    flags / bit % 2 == 1
  }

  function RootOf(flags: nat): Root {
    if Has(flags, OPEN_PERSISTENT) then PersistRoot else if Has(flags, OPEN_PROINFO) then ProinfoRoot else DataRoot
  }

  /** The key of an opened file under its root: the proinfo root is a single node, whatever the name. */
  function PathOf(flags: nat, name: Name): Name {
    if RootOf(flags) == ProinfoRoot then [] else name
  }

  /** Where the flags of an open are in its request, and what they choose: a root, and a name under it. */
  lemma OpenBits(req: Bytes)
    requires |req| >= 8
    ensures var flags, b := Word32(req, 0), req[0] as int;
            && (Has(flags, OPEN_CREATE) <==> b % 2 == 1) && (Has(flags, OPEN_EXCLUSIVE) <==> b / 2 % 2 == 1)
            && (Has(flags, OPEN_TRUNCATE) <==> b / 4 % 2 == 1)
            && (RootOf(flags) == PersistRoot <==> b / 8 % 2 == 1)
            && (RootOf(flags) == ProinfoRoot <==> b / 8 % 2 == 0 && b / 16 % 2 == 1)
            && (RootOf(flags) != ProinfoRoot ==> PathOf(flags, req[4..]) == req[4..])
  {
    LittleEndian(req, 0);
    LowBit(Word32(req, 0), OPEN_CREATE);
    LowBit(Word32(req, 0), OPEN_EXCLUSIVE);
    LowBit(Word32(req, 0), OPEN_TRUNCATE);
    LowBit(Word32(req, 0), OPEN_PERSISTENT);
    LowBit(Word32(req, 0), OPEN_PROINFO);
  }

  /** The lower bits of a word are those of its lowest byte. */
  lemma LowBit(f: nat, bit: nat)
    requires bit in {1, 2, 4, 8, 16}
    ensures Has(f, bit) == Has(f % 0x100, bit)
  {
    match bit
    case 1 => LowBit1(f);
    case 2 => LowBit2(f);
    case 4 => LowBit4(f);
    case 8 => LowBit8(f);
    case _ => LowBit16(f);
  }

  lemma EvenPlus(k: int, h: int)
    ensures (2 * k + h) % 2 == h % 2
  {
  }

  lemma LowBit1(f: nat)
    ensures Has(f, 1) == Has(f % 0x100, 1)
  {
    var q, h := f / 0x100, f % 0x100 / 1;
    assert f == 1 * (2 * (128 * q) + h) + f % 0x100 % 1;
    assert f / 1 == 2 * (128 * q) + h;
    EvenPlus(128 * q, h);
  }

  lemma LowBit2(f: nat)
    ensures Has(f, 2) == Has(f % 0x100, 2)
  {
    var q, h := f / 0x100, f % 0x100 / 2;
    assert f == 2 * (2 * (64 * q) + h) + f % 0x100 % 2;
    assert f / 2 == 2 * (64 * q) + h;
    EvenPlus(64 * q, h);
  }

  lemma LowBit4(f: nat)
    ensures Has(f, 4) == Has(f % 0x100, 4)
  {
    var q, h := f / 0x100, f % 0x100 / 4;
    assert f == 4 * (2 * (32 * q) + h) + f % 0x100 % 4;
    assert f / 4 == 2 * (32 * q) + h;
    EvenPlus(32 * q, h);
  }

  lemma LowBit8(f: nat)
    ensures Has(f, 8) == Has(f % 0x100, 8)
  {
    var q, h := f / 0x100, f % 0x100 / 8;
    assert f == 8 * (2 * (16 * q) + h) + f % 0x100 % 8;
    assert f / 8 == 2 * (16 * q) + h;
    EvenPlus(16 * q, h);
  }

  lemma LowBit16(f: nat)
    ensures Has(f, 16) == Has(f % 0x100, 16)
  {
    var q, h := f / 0x100, f % 0x100 / 16;
    assert f == 16 * (2 * (8 * q) + h) + f % 0x100 % 16;
    assert f / 16 == 2 * (8 * q) + h;
    EvenPlus(8 * q, h);
  }

  /** What clients of the service can see: the current files, and which handle stands for which file. */
  datatype Files = Files(cache: Volume, open: map<nat, Inode>)

  /** `now` is `was` after a file at `path` under `root` was opened as `i`, in the way the open flags ask for. */
  ghost predicate Opened(was: Volume, now: Volume, root: Root, path: Name, flags: nat, i: Inode) {
    && path in now.Dir(root) && i == now.Dir(root)[path]
    && if path in was.Dir(root)
       then && !(Has(flags, OPEN_CREATE) && Has(flags, OPEN_EXCLUSIVE))
            && now == if Has(flags, OPEN_TRUNCATE) then was.WithData(i, []) else was
       else && Has(flags, OPEN_CREATE) && now.Contents(i) == []
            && now == was.WithDir(root, was.Dir(root)[path := i])
  }

  /** `data` reached the file open as `h` at offset `off`, and nothing else changed. */
  ghost predicate Wrote(was: Files, now: Files, h: nat, off: nat, data: Bytes) {
    && now.open == was.open
    && (data != [] ==> h in was.open)
    && (forall q :: now.cache.Dir(q) == was.cache.Dir(q))
    && (forall i :: now.cache.Contents(i) ==
                    if data != [] && i == was.open[h] then Spliced(was.cache.Contents(i), off, data)
                    else was.cache.Contents(i))
  }

  /** Every failure is reported as one, and the two failures clients tell apart by name keep theirs. */
  function TranslateErrno(e: Errno): (r: StorageErr)
    ensures r != NO_ERROR && r != ERR_UNIMPLEMENTED
    ensures r == ERR_NOT_FOUND <==> e == ENOENT
    ensures r == ERR_EXIST <==> e == EEXIST
    ensures r == ERR_ACCESS <==> e in {EPERM, EACCES}
    ensures r == ERR_GENERIC <==> e == EOTHER
  {
    match e
    case EBADF | EINVAL | ENOTDIR | EISDIR | ENAMETOOLONG => ERR_NOT_VALID
    case ENOENT => ERR_NOT_FOUND
    case EEXIST => ERR_EXIST
    case EPERM | EACCES => ERR_ACCESS
    case EOTHER => ERR_GENERIC
  }

  /** Why a request got its answer: memory ran out, or what the last system call made for it reported. */
  datatype Cause = OutOfMemory | Ran(failure: Option<Errno>)

  /** The answer to a well-formed request: success exactly if the last system call succeeded. */
  function ResultOf(why: Cause): (r: StorageErr)
    ensures r == NO_ERROR <==> why == Ran(None)
    ensures r == ERR_NOT_FOUND <==> why == Ran(Some(ENOENT))
    ensures r == ERR_EXIST <==> why == Ran(Some(EEXIST))
    ensures r == ERR_ACCESS <==> why in {Ran(Some(EPERM)), Ran(Some(EACCES))}
    ensures r == ERR_GENERIC <==> why in {OutOfMemory, Ran(Some(EOTHER))}
    ensures r != ERR_UNIMPLEMENTED
  {
    match why
    case OutOfMemory => ERR_GENERIC
    case Ran(None) => NO_ERROR
    case Ran(Some(e)) => TranslateErrno(e)
  }

  function ErrorOf<T>(r: Result<T>): (e: StorageErr)
    ensures e == ResultOf(Ran(Failure(r)))
  {
    if r.Ok? then NO_ERROR else TranslateErrno(r.errno)
  }

  ghost predicate DeleteStep(req: Bytes, was: Files, now: Files, r: Response, why: Cause) {
    && (|req| < 4 || 0 in req[4..] ==> r.msg.result == ERR_NOT_VALID)
    && (|req| >= 4 && 0 !in req[4..] ==>
          && r.msg.result == ResultOf(why)
          && (req[4..] !in was.cache.Dir(DataRoot) && why.Ran? ==> r.msg.result == ERR_NOT_FOUND))
    && r.payload == None
    && if r.msg.result == NO_ERROR
       then |req| >= 4 && req[4..] in was.cache.Dir(DataRoot) &&
            now == was.(cache := was.cache.WithDir(DataRoot, was.cache.Dir(DataRoot) - {req[4..]}))
       else now == was
  }

  /**
   An open call as the flags ask for it: on the right file, exclusive and truncating as asked, and creating where
   that was asked for and the file is missing or must be.
   */
  ghost predicate Asked(root: Root, path: Name, flags: nat, was: Volume, call: OpenCall) {
    && call.root == root && call.name == path && call.trunc == Has(flags, OPEN_TRUNCATE)
    && call.excl == (Has(flags, OPEN_CREATE) && Has(flags, OPEN_EXCLUSIVE))
    && (call.creat ==> Has(flags, OPEN_CREATE))
    && (Has(flags, OPEN_CREATE) && (call.excl || path !in was.Dir(root)) ==> call.creat)
  }

  ghost predicate OpensAsAsked(req: Bytes, was: Files, call: OpenCall)
    requires |req| >= 4
  {
    var flags := Word32(req, 0);
    Asked(RootOf(flags), PathOf(flags, req[4..]), flags, was.cache, call)
  }

  ghost predicate OpenStep(req: Bytes, was: Files, now: Files, r: Response, why: Cause) {
    && (|req| < 4 || 0 in req[4..] ==> r.msg.result == ERR_NOT_VALID)
    && (|req| >= 4 && 0 !in req[4..] ==>
          var flags := Word32(req, 0);
          var present := PathOf(flags, req[4..]) in was.cache.Dir(RootOf(flags));
          && r.msg.result == ResultOf(why)
          && (present && Has(flags, OPEN_CREATE) && Has(flags, OPEN_EXCLUSIVE) && why.Ran? ==>
                r.msg.result == ERR_EXIST)
          && (!present && !Has(flags, OPEN_CREATE) && why.Ran? ==> r.msg.result == ERR_NOT_FOUND))
    && if r.msg.result == NO_ERROR
       then && |req| >= 4 && r.payload.Some? && |r.payload.value| == 4
            && var flags, fd := Word32(req, 0), Word32(r.payload.value, 0);
            && fd !in was.open && now.open.Keys == was.open.Keys + {fd}
            && (forall h :: h in was.open ==> now.open[h] == was.open[h])
            && Opened(was.cache, now.cache, RootOf(flags), PathOf(flags, req[4..]), flags, now.open[fd])
       else now == was && r.payload == None
  }

  /** A close that reports an error may or may not have given up the handle. */
  ghost predicate CloseStep(req: Bytes, was: Files, now: Files, r: Response, why: Cause) {
    && (|req| != 4 ==> r.msg.result == ERR_NOT_VALID && now == was)
    && r.payload == None
    && (|req| == 4 ==>
          var h := Word32(req, 0);
          && why.Ran? && r.msg.result == ResultOf(why)
          && (h !in was.open ==> r.msg.result == ERR_NOT_VALID)
          && if r.msg.result == NO_ERROR then h in was.open && now == was.(open := was.open - {h})
             else now == was || now == was.(open := was.open - {h}))
  }

  /** A success puts the whole payload in the file; a failure leaves a part of it there, from the start. */
  ghost predicate WriteStep(req: Bytes, was: Files, now: Files, r: Response, why: Cause) {
    && r.payload == None
    && if |req| < 16 then r.msg.result == ERR_NOT_VALID && now == was
       else var h, off, data := Word32(req, 8), Word64(req, 0), req[16..];
            && why.Ran? && r.msg.result == ResultOf(why)
            && (h !in was.open && data != [] ==> r.msg.result == ERR_NOT_VALID)
            && exists n :: 0 <= n <= |data| && (r.msg.result == NO_ERROR ==> n == |data|) &&
                           Wrote(was, now, h, off, data[..n])
  }

  ghost predicate ReadStep(req: Bytes, was: Files, now: Files, r: Response, why: Cause) {
    && now == was
    && (|req| != 16 || Word32(req, 4) > MAX_READ_SIZE ==> r.msg.result == ERR_NOT_VALID)
    && (|req| == 16 && Word32(req, 4) <= MAX_READ_SIZE ==> why.Ran? && r.msg.result == ResultOf(why))
    && (|req| == 16 && Word32(req, 4) > 0 && Word32(req, 0) !in was.open ==> r.msg.result == ERR_NOT_VALID)
    && (r.msg.result == NO_ERROR ==>
          && |req| == 16 && r.payload.Some?
          && var h, size := Word32(req, 0), Word32(req, 4);
          if size == 0 then r.payload.value == []
          else h in was.open && r.payload.value == Clip(was.cache.Contents(was.open[h]), Word64(req, 8), size))
  }

  ghost predicate GetSizeStep(req: Bytes, was: Files, now: Files, r: Response, why: Cause) {
    && now == was
    && (|req| != 4 || Word32(req, 0) !in was.open ==> r.msg.result == ERR_NOT_VALID)
    && (|req| == 4 ==> why.Ran? && r.msg.result == ResultOf(why))
    && (r.msg.result == NO_ERROR ==>
          && |req| == 4 && Word32(req, 0) in was.open
          && r.payload == Some(Le64(|was.cache.Contents(was.open[Word32(req, 0)])|)))
  }

  ghost predicate SetSizeStep(req: Bytes, was: Files, now: Files, r: Response, why: Cause) {
    && (|req| != 16 || Word32(req, 8) !in was.open ==> r.msg.result == ERR_NOT_VALID)
    && (|req| == 16 ==> why.Ran? && r.msg.result == ResultOf(why))
    && r.payload == None
    && if r.msg.result == NO_ERROR
       then && |req| == 16 && Word32(req, 8) in was.open
            && var i := was.open[Word32(req, 8)];
            now == was.(cache := was.cache.WithData(i, Resized(was.cache.Contents(i), Word64(req, 0))))
       else now == was
  }

  /** One served request. Commands that are not about files change none. */
  ghost predicate Served(cmd: nat, req: Bytes, was: Files, now: Files, r: Response, why: Cause) {
    if cmd == FILE_DELETE then DeleteStep(req, was, now, r, why)
    else if cmd == FILE_OPEN then OpenStep(req, was, now, r, why)
    else if cmd == FILE_CLOSE then CloseStep(req, was, now, r, why)
    else if cmd == FILE_READ then ReadStep(req, was, now, r, why)
    else if cmd == FILE_WRITE then WriteStep(req, was, now, r, why)
    else if cmd == FILE_GET_SIZE then GetSizeStep(req, was, now, r, why)
    else if cmd == FILE_SET_SIZE then SetSizeStep(req, was, now, r, why)
    else now == was
  }
}
