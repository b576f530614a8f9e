/** Several workers at once.  Every LOCK..UNLOCK section of the source, on a slot's
    mutex or on state_mux, is one action; between two of its actions a worker
    carries what it has already taken off, or not yet put on, the shared totals.
    The search for the name of a file to be created is modelled slot by slot.  All
    other read-only searches are left to chance: by the time their answer is used
    it may be stale anyway, so the model lets them answer anything. */
module Interleaved {
  import opened Basics
  import opened Slots
  import opened Table

  /** A write or append on its way: who, into which slot, what, and the files
      evicted for it so far. */
  datatype Job = Job(client: int, slot: nat, payload: Bytes, append: bool, shipped: seq<Frame>)

  datatype Phase = Claimed | Opened | ReadOut | Named

  /** Where a worker is between two critical sections.
      Idle carries nothing: it stands for every point of every handler at which no
      amount is in flight.  `name` and `bytes` of Evicting are the model's memory
      of the file at the claim; `got` is what the worker's own buffers hold. */
  datatype Worker =
    | Idle
    | Searching(name: Name, next: nat)
    | Absent(name: Name)
    | Created(slot: nat, owner: int)
    | Counted(slot: nat, owner: int)
    | Closed(diff: int)
    | RemovedOwn(size: int)
    | Checking(job: Job)
    | Scanning(job: Job)
    | Claiming(job: Job, victim: nat)
    | Evicting(job: Job, victim: nat, phase: Phase, name: Name, bytes: Bytes, got: Frame)
    | RemovedVictim(job: Job, size: int, got: Frame)
    | Checked(job: Job)
    | Reserved(job: Job)
    | Failed(amount: nat)

  datatype World = World(
    slots: seq<Slot>,
    storage: int,
    nfiles: int,
    peakStorage: int,
    peakFiles: int,
    workers: seq<Worker>)

  function Start(files: nat, workers: nat): World {
    World(seq(files, _ => FREE), 0, 0, 0, 0, seq(workers, _ => Idle))
  }

  datatype Touching = OpenIt(who: int) | ReadIt(who: int) | LockIt(who: int) | UnlockIt(who: int)

  datatype Action =
    // sections with nothing in flight before or after
    | TouchSlot(slot: nat, op: Touching)
    // creating a file: search for its name, fill a slot, count it, open it
    | Seek(name: Name)
    | LookAt
    | SearchEnds
    | TableFull
    | CreateAt(slot: nat, owner: int, now: int)
    | CountFile
    | OpenNew
    // closing and removing: change the slot, then settle the totals
    | CloseAt(slot: nat, who: int)
    | SettleClose
    | RemoveAt(slot: nat, who: int)
    | SettleRemove
    // storing: check, evict while it does not fit, reserve, store, or release
    | Begin(client: int, slot: nat, payload: Bytes, append: bool)
    | Check
    | ClearBit(slot: nat)
    | Choose(victim: Option<nat>)
    | ClaimVictim
    | OpenVictim
    | ReadVictim
    | NameVictim
    | RemoveVictim
    | SettleEviction
    | Reserve
    | StoreBytes
    | Release

  /** The effect of one action of one worker: at most one slot, the worker itself,
      and the two totals change. */
  datatype Effect = Effect(slot: nat, to: Slot, worker: Worker, storage: int, files: int)

  predicate ClientId(c: int) {
    c > OWNER_NULL && c != OWNER_ADMIN
  }

  predicate OwnerArg(c: int) {
    c == OWNER_NULL || ClientId(c)
  }

  function Touched(s: Slot, op: Touching): Slot {
    match op
    case OpenIt(who) => Open(s, who).0
    case ReadIt(who) => Read(s, who).0
    case LockIt(who) => Lock(s, who).0
    case UnlockIt(who) => Unlock(s, who).0
  }

  /** What a worker with nothing in flight may do. */
  function FromIdle(capacity: nat, w: World, a: Action): (r: Option<Effect>)
    requires |w.slots| > 0
    ensures r.Some? ==> r.value.slot < |w.slots|
  {
    match a
    case TouchSlot(i, op) =>
      if i < |w.slots| && OwnerArg(op.who) then Some(Effect(i, Touched(w.slots[i], op), Idle, 0, 0)) else None
    case Seek(name) => Some(Stay(w, Searching(name, 0), 0, 0))
    case CloseAt(i, who) =>
      if i < |w.slots| && ClientId(who) then
        var (s, e, diff) := Close(w.slots[i], who);
        Some(Effect(i, s, if e == OK then Closed(diff) else Idle, 0, 0))
      else None
    case RemoveAt(i, who) =>
      if i < |w.slots| && ClientId(who) then
        var (s, e, size) := Remove(w.slots[i], who);
        Some(Effect(i, s, if e == OK then RemovedOwn(size) else Idle, 0, 0))
      else None
    case Begin(c, f, payload, append) =>
      if ClientId(c) && f < |w.slots| && |payload| <= capacity then
        Some(Stay(w, Checking(Job(c, f, payload, append, [])), 0, 0))
      else None
    case _ => None
  }

  /** A worker on its way to creating a file. */
  function FromCreating(w: World, p: Worker, a: Action): (r: Option<Effect>)
    requires |w.slots| > 0
    ensures r.Some? ==> r.value.slot < |w.slots|
  {
    match p
    case Searching(name, i) =>
      if a == LookAt && i < |w.slots| then
        Some(Stay(w, if Holds(w.slots[i], name) then Idle else Searching(name, i + 1), 0, 0))
      else if a == SearchEnds && i >= |w.slots| then Some(Stay(w, Absent(name), 0, 0))
      else None
    case Absent(name) =>
      if a == TableFull then Some(Stay(w, Idle, 0, 0))
      else if a.CreateAt? && a.slot < |w.slots| && OwnerArg(a.owner) then
        var (s, e) := Create(w.slots[a.slot], name, a.owner, a.now);
        Some(Effect(a.slot, s, if e == OK then Created(a.slot, a.owner) else Idle, 0, 0))
      else None
    case Created(i, owner) => if a == CountFile then Some(Stay(w, Counted(i, owner), 0, 1)) else None
    case Counted(i, owner) =>
      if a == OpenNew && i < |w.slots| then Some(Effect(i, Open(w.slots[i], owner).0, Idle, 0, 0)) else None
    case _ => None
  }

  /** A worker that has to settle the totals. */
  function FromSettling(w: World, p: Worker, a: Action): (r: Option<Effect>)
    requires |w.slots| > 0
    ensures r.Some? ==> r.value.slot < |w.slots|
  {
    match p
    case Closed(diff) => if a == SettleClose then Some(Stay(w, Idle, -diff, 0)) else None
    case RemovedOwn(size) => if a == SettleRemove then Some(Stay(w, Idle, -size, -1)) else None
    case Failed(amount) => if a == Release then Some(Stay(w, Idle, 0 - amount, 0)) else None
    case _ => None
  }

  /** A worker with a payload on its way, outside an eviction. */
  function FromJob(capacity: nat, w: World, p: Worker, a: Action): (r: Option<Effect>)
    requires |w.slots| > 0
    ensures r.Some? ==> r.value.slot < |w.slots|
  {
    match p
    case Checking(job) =>
      if a != Check then None
      else Some(Stay(w, if w.storage + |job.payload| <= capacity then Checked(job) else Scanning(job), 0, 0))
    case Scanning(job) =>
      if a.ClearBit? && a.slot < |w.slots| && Exists(w.slots[a.slot]) then
        Some(Effect(a.slot, w.slots[a.slot].(used := false), p, 0, 0))
      else if a == Choose(None) then Some(Stay(w, Checking(job), 0, 0))
      else if a.Choose? && a.victim.Some? && a.victim.value < |w.slots| then
        Some(Stay(w, Claiming(job, a.victim.value), 0, 0))
      else None
    case Checked(job) => if a == Reserve then Some(Stay(w, Reserved(job), |job.payload|, 0)) else None
    case Reserved(job) =>
      if a == StoreBytes && job.slot < |w.slots| then
        var (s, e) := if job.append then Append(w.slots[job.slot], job.client, job.payload)
                      else Write(w.slots[job.slot], job.client, job.payload);
        Some(Effect(job.slot, s, if e == OK then Idle else Failed(|job.payload|), 0, 0))
      else None
    case _ => None
  }

  /** A worker evicting a file, from the claim to the settling. */
  function FromEvicting(w: World, p: Worker, a: Action): (r: Option<Effect>)
    requires |w.slots| > 0
    ensures r.Some? ==> r.value.slot < |w.slots|
  {
    match p
    case Claiming(job, v) =>
      if a == ClaimVictim && v < |w.slots| then
        var (s, e) := Claim(w.slots[v]);
        var next := if e == OK then Evicting(job, v, Claimed, s.name, Contents(s), Frame([], [])) else Checking(job);
        Some(Effect(v, s, next, 0, 0))
      else None
    case Evicting(job, v, phase, name, bytes, got) =>
      if v >= |w.slots| then None
      else if phase == Claimed && a == OpenVictim then
        var (s, e) := Open(w.slots[v], OWNER_ADMIN);
        Some(Effect(v, s, if e == OK then p.(phase := Opened) else Idle, 0, 0))
      else if phase == Opened && a == ReadVictim then
        var (s, e, out) := Read(w.slots[v], OWNER_ADMIN);
        Some(Effect(v, s, if e == OK then p.(phase := ReadOut, got := got.(bytes := out)) else Idle, 0, 0))
      else if phase == ReadOut && a == NameVictim then
        var named := p.(phase := Named, got := got.(name := w.slots[v].name));
        Some(Stay(w, if Exists(w.slots[v]) then named else Idle, 0, 0))
      else if phase == Named && a == RemoveVictim then
        var (s, e, size) := Remove(w.slots[v], OWNER_ADMIN);
        Some(Effect(v, s, if e == OK then RemovedVictim(job, size, got) else Idle, 0, 0))
      else None
    case RemovedVictim(job, size, got) =>
      if a == SettleEviction then
        var shipped := if got.bytes == [] then job.shipped else job.shipped + [got];
        Some(Stay(w, Checking(job.(shipped := shipped)), -size, -1))
      else None
    case _ => None
  }

  /** What action `a` of a worker at `p` does, or None where it cannot happen. */
  function EffectOf(capacity: nat, w: World, p: Worker, a: Action): (r: Option<Effect>)
    ensures r.Some? ==> r.value.slot < |w.slots|
  {
    if |w.slots| == 0 then None
    else if p.Idle? then FromIdle(capacity, w, a)
    else if p.Searching? || p.Absent? || p.Created? || p.Counted? then FromCreating(w, p, a)
    else if p.Closed? || p.RemovedOwn? || p.Failed? then FromSettling(w, p, a)
    else if p.Claiming? || p.Evicting? || p.RemovedVictim? then FromEvicting(w, p, a)
    else FromJob(capacity, w, p, a)
  }

  function Stay(w: World, worker: Worker, storage: int, files: int): Effect
    requires |w.slots| > 0
  {
    Effect(0, w.slots[0], worker, storage, files)
  }

  /** The world after worker t did action a with effect e.  The high-water marks are
      only looked at where the source does so: after reserving, and after counting a
      new file. */
  function After(w: World, t: nat, a: Action, e: Effect): World
    requires t < |w.workers| && e.slot < |w.slots|
  {
    var storage, nfiles := w.storage + e.storage, w.nfiles + e.files;
    World(
      w.slots[e.slot := e.to], storage, nfiles,
      if a == Reserve && storage >= w.peakStorage then storage else w.peakStorage,
      if a == CountFile && nfiles > w.peakFiles then nfiles else w.peakFiles,
      w.workers[t := e.worker])
  }

  /** One step of worker t. */
  function Step(capacity: nat, w: World, t: nat, a: Action): Option<World> {
    if t >= |w.workers| then None
    else
      match EffectOf(capacity, w, w.workers[t], a)
      case None => None
      case Some(e) => Some(After(w, t, a, e))
  }

  datatype Move = Move(worker: nat, action: Action)

  /** The world after a schedule: any interleaving of any actions. */
  function Play(capacity: nat, w: World, moves: seq<Move>): Option<World> {
    if |moves| == 0 then Some(w)
    else
      match Play(capacity, w, moves[..|moves| - 1])
      case None => None
      case Some(v) => var m := moves[|moves| - 1]; Step(capacity, v, m.worker, m.action)
  }
}
