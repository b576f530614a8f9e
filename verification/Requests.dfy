/** The request handlers of src/source/worker/ run one at a time: what each of
    them does to the server state and what it answers. */
module Requests {
  import opened Basics
  import opened Slots
  import opened Table
  import opened ServerState
  import opened Eviction

  /** `create` and `lock` are the O_CREATE and O_LOCK flags of an open. */
  datatype Request =
    | OpenFile(name: Name, create: bool, lock: bool)
    | CloseFile(name: Name)
    | ReadFile(name: Name)
    | ReadN(n: int)
    | WriteFile(name: Name, payload: Bytes)
    | AppendFile(name: Name, payload: Bytes)
    | LockFile(name: Name)
    | UnlockFile(name: Name)
    | RemoveFile(name: Name)
    | CloseConnection
    | Unknown

  /** The flag a reply carries besides the cache-miss one. */
  datatype Status = NoFlag | Success | AlreadyExists | NotExists | NotLocked | NotOwner | MaxFiles | NotOpen

  /** `bytes` answers a read, `files` a read of n files; `shipped` are the files
      evicted on the way, which set the cache-miss flag when there are any. */
  datatype Reply = Reply(status: Status, bytes: Bytes, files: seq<Frame>, shipped: seq<Frame>)

  function Answer(status: Status): Reply {
    Reply(status, [], [], [])
  }

  /** `failed` is a handler returning -1; Spinning is a handler still in its
      eviction loop after all the given clock readings. */
  datatype Outcome = Returned(st: State, reply: Reply, failed: bool) | Spinning(st: State)

  /** What time(NULL) returns: to a creation, and to the turns of the eviction loop. */
  datatype Clock = Clock(now: int, turns: seq<int>)

  // ------------------------------------------------------------ client table

  function ClientFrom(clients: seq<Client>, fd: int, i: nat): (r: Option<nat>)
    requires i <= |clients|
    ensures r.Some? ==> i <= r.value < |clients| && clients[r.value].fd == fd &&
                        forall j :: i <= j < r.value ==> clients[j].fd != fd
    ensures r.None? ==> forall j :: i <= j < |clients| ==> clients[j].fd != fd
    decreases |clients| - i
  {
    if i == |clients| then None
    else if clients[i].fd == fd then Some(i)
    else ClientFrom(clients, fd, i + 1)
  }

  function FindClient(clients: seq<Client>, fd: int): Option<nat> {
    ClientFrom(clients, fd, 0)
  }

  /** add_client: the first free entry, if the limit allows one more. */
  function AddClient(cfg: Config, st: State, fd: int): (State, bool) {
    if fd < 0 || st.nconns >= cfg.maxConns then (st, false)
    else
      match FindClient(st.clients, -1)
      case None => (st, false)
      case Some(k) =>
        (st.(clients := st.clients[k := Client(fd, [])], nconns := st.nconns + 1,
             peakConns := Max(st.peakConns, st.nconns + 1)), true)
  }

  function RemoveClient(st: State, fd: int): (State, bool) {
    if fd < 0 || st.nconns <= 0 then (st, false)
    else
      match FindClient(st.clients, fd)
      case None => (st, false)
      case Some(k) =>
        (st.(clients := st.clients[k := st.clients[k].(fd := -1)], nconns := st.nconns - 1), true)
  }

  function SetLastop(st: State, k: nat, name: Name): State
    requires k < |st.clients|
  {
    st.(clients := st.clients[k := st.clients[k].(lastop := name)])
  }

  // ---------------------------------------------------------------- handlers

  function DoOpen(st: State, k: nat, c: int, name: Name, create: bool, lock: bool, now: int): Outcome
    requires k < |st.clients|
  {
    var st1 := SetLastop(st, k, []);
    var owner := if lock then c else OWNER_NULL;
    if create then DoCreate(st1, k, name, owner, lock, now) else DoOpenExisting(st1, name, owner)
  }

  function DoCreate(st: State, k: nat, name: Name, owner: int, lock: bool, now: int): Outcome
    requires k < |st.clients|
  {
    if Find(st.slots, name).Some? then Returned(st, Answer(AlreadyExists), false)
    else
      match FreeFrom(st.slots, 0)
      case None => Returned(st, Answer(MaxFiles), false)
      case Some(f) => CreateAt(st, k, f, name, owner, lock, now)
  }

  function CreateAt(st: State, k: nat, f: nat, name: Name, owner: int, lock: bool, now: int): Outcome
    requires k < |st.clients| && f < |st.slots|
  {
    var (s1, e1) := Create(st.slots[f], name, owner, now);
    if e1 == EEXIST then Returned(st, Answer(AlreadyExists), false)
    else if e1 != OK then Returned(st, Answer(NoFlag), true)
    else
      var (s2, e2) := Open(s1, owner);
      var st2 := st.(slots := st.slots[f := s2], nfiles := st.nfiles + 1,
                     peakFiles := Max(st.peakFiles, st.nfiles + 1));
      if e2 != OK then Returned(st2, Answer(NoFlag), true)
      else Returned(if lock then SetLastop(st2, k, name) else st2, Answer(Success), false)
  }

  function DoOpenExisting(st: State, name: Name, owner: int): Outcome {
    match Find(st.slots, name)
    case None => Returned(st, Answer(NotExists), false)
    case Some(f) =>
      var (s, e) := Open(st.slots[f], owner);
      Returned(st.(slots := st.slots[f := s]), Answer(StatusOf(e, NotOwner)), e == EINVAL || e == EPERM)
  }

  /** The flag for an error; a refusal is reported as NotOwner or NotLocked
      depending on the request.  Anything unexpected carries no flag. */
  function StatusOf(e: Errno, refused: Status): Status {
    match e
    case OK => Success
    case ENOENT => NotExists
    case EAGAIN => refused
    case EPERM => NotOpen
    case EEXIST => AlreadyExists
    case EINVAL => NoFlag
  }

  function DoClose(st: State, c: int, name: Name): Outcome {
    match Find(st.slots, name)
    case None => Returned(st, Answer(NotExists), false)
    case Some(f) =>
      var (s, e, diff) := Close(st.slots[f], c);
      Returned(st.(slots := st.slots[f := s], storage := st.storage - diff), Answer(StatusOf(e, NotOwner)), e == EINVAL)
  }

  function DoRead(st: State, c: int, name: Name): Outcome {
    match Find(st.slots, name)
    case None => Returned(st, Answer(NotExists), false)
    case Some(f) =>
      var (s, e, bytes) := Read(st.slots[f], c);
      Returned(st.(slots := st.slots[f := s]), Answer(StatusOf(e, NotOwner)).(bytes := bytes), e == EINVAL)
  }

  /** What do_readn_files does to one slot: open, read and, if the file was closed,
      close again.  A file that was already open stays open and now belongs to the
      reader.  None if the slot would not open; the last component is the size
      difference reported by the close. */
  function ReadNSlot(s: Slot, c: int): (Slot, Option<Bytes>, int) {
    var (s1, e1) := Open(s, c);
    if e1 != OK then (s1, None, 0)
    else
      var (s2, e2, bytes) := Read(s1, c);
      var (s3, e3, diff) := if s.working.None? then Close(s2, c) else (s2, OK, 0);
      (s3, if e2 == OK then Some(bytes) else None, diff)
  }

  /** The loop over the slots from i on, until n files have been read if n > 0. */
  function ReadNFrom(slots: seq<Slot>, c: int, n: int, i: nat, files: seq<Frame>, diff: int)
    : (seq<Slot>, seq<Frame>, int)
    requires i <= |slots|
    decreases |slots| - i
  {
    if i == |slots| || !(n <= 0 || |files| < n) then (slots, files, diff)
    else
      var (s, bytes, d) := ReadNSlot(slots[i], c);
      var more := if bytes.Some? then files + [Frame(s.name, bytes.value)] else files;
      ReadNFrom(slots[i := s], c, n, i + 1, more, diff + d)
  }

  function DoReadN(st: State, c: int, n: int): Outcome {
    var (slots, files, diff) := ReadNFrom(st.slots, c, n, 0, [], 0);
    Returned(st.(slots := slots, storage := st.storage - diff), Answer(Success).(files := files), false)
  }

  /** reserve_storage, then the write or append itself, then the release if that
      failed. */
  function Store(st: State, c: int, payload: Bytes, f: nat, append: bool): (State, Errno)
    requires f < |st.slots|
  {
    var reserved := st.storage + |payload|;
    var peak := if reserved >= st.peakStorage then reserved else st.peakStorage;
    var (s, e) := if append then Append(st.slots[f], c, payload) else Write(st.slots[f], c, payload);
    var storage := if e == OK then reserved else reserved - |payload|;
    (st.(slots := st.slots[f := s], storage := storage, peakStorage := peak), e)
  }

  /** The common end of a write and an append once the target slot is known. */
  function DoStore(
    cfg: Config, st: State, c: int, name: Name, payload: Bytes, f: nat, append: bool, turns: seq<int>): Outcome
    requires f < |st.slots| && st.lruPos < |st.slots|
  {
    if |payload| > cfg.maxStorage then Returned(st, Answer(NoFlag), false)
    else
      var out := EvictLoop(cfg, st, name, |payload|, turns, 0, []);
      if out.StillFull? then Spinning(out.st)
      else
        var (st2, e) := Store(out.st, c, payload, f, append);
        Returned(st2, Answer(StatusOf(e, NotLocked)).(shipped := out.shipped), e == EINVAL || (append && e == EEXIST))
  }

  function DoWrite(cfg: Config, st: State, k: nat, c: int, name: Name, payload: Bytes, turns: seq<int>): Outcome
    requires k < |st.clients| && st.lruPos < |st.slots|
  {
    if st.clients[k].lastop != name then Returned(st, Answer(NoFlag), false)
    else
      var st1 := SetLastop(st, k, []);
      match Find(st1.slots, name)
      case None => Returned(st1, Answer(NotExists), false)
      case Some(f) => DoStore(cfg, st1, c, name, payload, f, false, turns)
  }

  function DoAppend(cfg: Config, st: State, c: int, name: Name, payload: Bytes, turns: seq<int>): Outcome
    requires st.lruPos < |st.slots|
  {
    match Find(st.slots, name)
    case None => Returned(st, Answer(NotExists), false)
    case Some(f) => DoStore(cfg, st, c, name, payload, f, true, turns)
  }

  function DoLock(st: State, c: int, name: Name): Outcome {
    match Find(st.slots, name)
    case None => Returned(st, Answer(NotExists), false)
    case Some(f) =>
      var (s, e) := Lock(st.slots[f], c);
      Returned(st.(slots := st.slots[f := s]), Answer(StatusOf(e, NotOwner)), e == EINVAL)
  }

  function DoUnlock(st: State, c: int, name: Name): Outcome {
    match Find(st.slots, name)
    case None => Returned(st, Answer(NotExists), false)
    case Some(f) =>
      var (s, e) := Unlock(st.slots[f], c);
      Returned(st.(slots := st.slots[f := s]), Answer(StatusOf(e, NotOwner)), e == EINVAL)
  }

  function DoRemove(st: State, c: int, name: Name): Outcome {
    match Find(st.slots, name)
    case None => Returned(st, Answer(NotExists), false)
    case Some(f) =>
      if st.slots[f].owner == OWNER_NULL then Returned(st, Answer(NotLocked), false)
      else
        var (s, e, size) := Remove(st.slots[f], c);
        var gone := if e == OK then 1 else 0;
        Returned(st.(slots := st.slots[f := s], nfiles := st.nfiles - gone, storage := st.storage - size),
                 Answer(StatusOf(e, NotOwner)), e == EINVAL)
  }

  /** The loop of do_close_connection from slot i on: close whatever the client owns. */
  function ReleaseFrom(slots: seq<Slot>, c: int, i: nat, diff: int): (seq<Slot>, int)
    requires i <= |slots|
    decreases |slots| - i
  {
    if i == |slots| then (slots, diff)
    else if Exists(slots[i]) && slots[i].owner == c then
      var (s, e, d) := Close(slots[i], c);
      ReleaseFrom(slots[i := s], c, i + 1, diff + d)
    else ReleaseFrom(slots, c, i + 1, diff)
  }

  /** Requests that name a file, or a number of files, and never evict. */
  predicate Simple(req: Request) {
    req.CloseFile? || req.ReadFile? || req.ReadN? || req.LockFile? || req.UnlockFile? || req.RemoveFile?
  }

  function DoSimple(st: State, c: int, req: Request): Outcome
    requires Simple(req)
  {
    match req
    case CloseFile(name) => DoClose(st, c, name)
    case ReadFile(name) => DoRead(st, c, name)
    case ReadN(n) => DoReadN(st, c, n)
    case LockFile(name) => DoLock(st, c, name)
    case UnlockFile(name) => DoUnlock(st, c, name)
    case RemoveFile(name) => DoRemove(st, c, name)
  }

  function DoDisconnect(st: State, c: int): Outcome {
    var (slots, diff) := ReleaseFrom(st.slots, c, 0, 0);
    var (st1, removed) := RemoveClient(st.(slots := slots, storage := st.storage - diff), c);
    Returned(st1, Answer(NoFlag), !removed)
  }

  /** worker_do for a message of connection c: look the client up, dispatch.
      Every request but a write, a disconnect or an unknown one first forgets the
      client's last operation. */
  function Handle(cfg: Config, st: State, c: int, req: Request, clock: Clock): Outcome
    requires st.lruPos < |st.slots|
  {
    if c < 0 || FindClient(st.clients, c).None? then Returned(st, Answer(NoFlag), true)
    else
      var k := FindClient(st.clients, c).value;
      var st1 := SetLastop(st, k, []);
      match req
      case OpenFile(name, create, lock) => DoOpen(st, k, c, name, create, lock, clock.now)
      case WriteFile(name, payload) => DoWrite(cfg, st, k, c, name, payload, clock.turns)
      case AppendFile(name, payload) => DoAppend(cfg, st1, c, name, payload, clock.turns)
      case CloseConnection => DoDisconnect(st, c)
      case Unknown => Returned(st, Answer(NoFlag), false)
      case _ => DoSimple(st1, c, req)
  }

  /** do_acceptor for a client that introduces itself properly on connection fd. */
  function Connect(cfg: Config, st: State, fd: int): (State, bool) {
    if st.nconns >= cfg.maxConns then (st, false) else AddClient(cfg, st, fd)
  }
}
