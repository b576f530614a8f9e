/** What holds in every reachable state of any number of workers, under every
    schedule of their critical sections. */
module InterleavedProofs {
  import opened Basics
  import opened Slots
  import opened Table
  import opened Interleaved

  // ------------------------------------------------ what workers have in flight

  /** Bytes current_storage counts that no slot holds: reserved and not yet
      stored or released, or removed and not yet deducted. */
  function BytesInFlight(p: Worker): int {
    match p
    case Reserved(job) => |job.payload|
    case Failed(amount) => amount
    case RemovedOwn(size) => size
    case RemovedVictim(_, size, _) => size
    case Closed(diff) => diff
    case _ => 0
  }

  /** Files current_files counts that are not there, less files it does not count yet. */
  function FilesInFlight(p: Worker): int {
    match p
    case Created(_, _) => -1
    case RemovedOwn(_) => 1
    case RemovedVictim(_, _, _) => 1
    case _ => 0
  }

  /** Bytes that passed the capacity check but are not reserved yet. */
  function Promised(p: Worker): int {
    if p.Checked? then |p.job.payload| else 0
  }

  predicate HasJob(p: Worker) {
    p.Checking? || p.Scanning? || p.Claiming? || p.Evicting? || p.RemovedVictim? || p.Checked? || p.Reserved?
  }

  /** Slot s is under eviction by a worker at p: claimed, and still the file that
      was claimed; what the worker has copied of it so far is right. */
  predicate ClaimGood(s: Slot, p: Worker)
    requires p.Evicting?
  {
    && s.owner == OWNER_ADMIN && s.name == p.name && Contents(s) == p.bytes
    && (p.phase != Claimed ==> s.working == Some(p.bytes))
    && (p.phase == ReadOut || p.phase == Named ==> p.got.bytes == p.bytes)
    && (p.phase == Named ==> p.got.name == p.name)
  }

  predicate WorkerGood(capacity: nat, slots: seq<Slot>, p: Worker) {
    && (HasJob(p) ==> ClientId(p.job.client) && |p.job.payload| <= capacity)
    && (p.Created? || p.Counted? ==> OwnerArg(p.owner))
    && (p.Evicting? ==> p.victim < |slots| && ClaimGood(slots[p.victim], p))
    && (p.Closed? ==> p.diff == 0)
    && (p.RemovedOwn? || p.RemovedVictim? ==> p.size >= 0)
  }

  ghost predicate Conserved(w: World) {
    && w.storage == Total(w.slots) + Sum(w.workers, BytesInFlight)
    && w.nfiles == Count(w.slots) + Sum(w.workers, FilesInFlight)
  }

  /** No two workers evict the same slot. */
  ghost predicate VictimsApart(workers: seq<Worker>) {
    forall t, u ::
      (0 <= t < |workers| && 0 <= u < |workers| && t != u && workers[t].Evicting? && workers[u].Evicting?) ==>
        workers[t].victim != workers[u].victim
  }

  ghost predicate ClaimedBySome(workers: seq<Worker>, i: nat) {
    exists t :: 0 <= t < |workers| && workers[t].Evicting? && workers[t].victim == i
  }

  /** A slot that belongs to the administrator is being evicted. */
  ghost predicate AllClaimed(w: World) {
    forall i: nat :: i < |w.slots| && w.slots[i].owner == OWNER_ADMIN ==> ClaimedBySome(w.workers, i)
  }

  ghost predicate Inv(capacity: nat, w: World) {
    && |w.slots| > 0
    && AllCoherent(w.slots)
    && Conserved(w)
    && VictimsApart(w.workers) && AllClaimed(w)
    && (forall t :: 0 <= t < |w.workers| ==> WorkerGood(capacity, w.slots, w.workers[t]))
    && w.storage + Sum(w.workers, Promised) <= |w.workers| * capacity
  }

  // ------------------------------------------------------- one action, locally

  /** Nothing but its reference bit and use count may have changed. */
  predicate Untouched(s: Slot, t: Slot) {
    s.owner == t.owner && s.name == t.name && s.data == t.data && s.working == t.working && s.added == t.added
  }

  /** The change of the totals is exactly the change of the slot and of what the
      worker carries, the worker's own claims stay right, and a slot claimed by
      somebody is left alone unless the action is the claimant's own. */
  ghost predicate LocallyGood(capacity: nat, w: World, p: Worker, e: Effect)
    requires e.slot < |w.slots|
  {
    var s := w.slots[e.slot];
    && Coherent(e.to)
    && e.storage == SizeOf(e.to) - SizeOf(s) + BytesInFlight(e.worker) - BytesInFlight(p)
    && e.files == One(e.to) - One(s) + FilesInFlight(e.worker) - FilesInFlight(p)
    && WorkerGood(capacity, w.slots[e.slot := e.to], e.worker)
    && (s.owner == OWNER_ADMIN && !(p.Evicting? && p.victim == e.slot) ==> Untouched(s, e.to))
    && (e.to.owner == OWNER_ADMIN ==>
          s.owner == OWNER_ADMIN || (e.worker.Evicting? && e.worker.victim == e.slot && !p.Evicting?))
    && (p.Evicting? && !(e.worker.Evicting? && e.worker.victim == p.victim) ==>
          e.slot == p.victim && e.to.owner != OWNER_ADMIN)
    && (e.worker.Evicting? && p.Evicting? ==> e.worker.victim == p.victim)
    && (e.worker.Evicting? && !p.Evicting? ==> s.owner != OWNER_ADMIN && e.slot == e.worker.victim)
    && e.storage + Promised(e.worker) - Promised(p) <= (if e.worker.Checked? then |e.worker.job.payload| else 0)
    && (e.worker.Checked? ==> w.storage + |e.worker.job.payload| <= capacity && e.storage == 0 && Promised(p) == 0)
  }

  /** Only reserving adds to current_storage, and only counting to current_files. */
  predicate RaisesOnly(a: Action, e: Effect) {
    (a != Reserve ==> e.storage <= 0) && (a != CountFile ==> e.files <= 0)
  }

  ghost predicate Good(capacity: nat, w: World, p: Worker, a: Action, e: Option<Effect>) {
    e.Some? ==> e.value.slot < |w.slots| && LocallyGood(capacity, w, p, e.value) && RaisesOnly(a, e.value)
  }

  lemma IdleActionGood(capacity: nat, w: World, a: Action)
    requires |w.slots| > 0 && AllCoherent(w.slots)
    ensures Good(capacity, w, Idle, a, FromIdle(capacity, w, a))
  {
    if FromIdle(capacity, w, a).Some? {
      var s := w.slots[FromIdle(capacity, w, a).value.slot];
      assert Coherent(s) && Coherent(w.slots[0]);
      match a
      case TouchSlot(i, op) => TouchGood(s, op);
      case CloseAt(i, who) => CloseQuiet(s, who);
      case _ =>
    }
  }

  lemma TouchGood(s: Slot, op: Touching)
    requires Coherent(s) && OwnerArg(op.who)
    ensures SameFile(s, Touched(s, op)) && One(s) == One(Touched(s, op))
    ensures if s.owner == OWNER_ADMIN then Touched(s, op) == s else Touched(s, op).owner != OWNER_ADMIN
  {
    QuietOperations(s, op.who);
  }

  lemma CreatingActionGood(capacity: nat, w: World, p: Worker, a: Action)
    requires |w.slots| > 0 && AllCoherent(w.slots) && WorkerGood(capacity, w.slots, p)
    ensures Good(capacity, w, p, a, FromCreating(w, p, a))
  {
    if FromCreating(w, p, a).Some? {
      var s := w.slots[FromCreating(w, p, a).value.slot];
      assert Coherent(s) && Coherent(w.slots[0]);
      if p.Counted? {
        OpenQuiet(s, p.owner);
      }
    }
  }

  lemma SettlingActionGood(capacity: nat, w: World, p: Worker, a: Action)
    requires |w.slots| > 0 && AllCoherent(w.slots) && WorkerGood(capacity, w.slots, p)
    ensures Good(capacity, w, p, a, FromSettling(w, p, a))
  {
    assert Coherent(w.slots[0]);
  }

  lemma JobActionGood(capacity: nat, w: World, p: Worker, a: Action)
    requires |w.slots| > 0 && AllCoherent(w.slots) && WorkerGood(capacity, w.slots, p) && !p.Reserved?
    ensures Good(capacity, w, p, a, FromJob(capacity, w, p, a))
  {
    assert Coherent(w.slots[0]);
    if p.Scanning? && a.ClearBit? && a.slot < |w.slots| {
      assert Coherent(w.slots[a.slot]);
    }
  }

  lemma StoreActionGood(capacity: nat, w: World, p: Worker, a: Action)
    requires |w.slots| > 0 && AllCoherent(w.slots) && WorkerGood(capacity, w.slots, p) && p.Reserved?
    ensures Good(capacity, w, p, a, FromJob(capacity, w, p, a))
  {
    if p.job.slot < |w.slots| {
      assert Coherent(w.slots[p.job.slot]);
      GrowingOperations(w.slots[p.job.slot], p.job.client, p.job.payload);
    }
  }

  lemma ClaimingActionGood(capacity: nat, w: World, p: Worker, a: Action)
    requires |w.slots| > 0 && AllCoherent(w.slots) && WorkerGood(capacity, w.slots, p) && !p.Evicting?
    ensures Good(capacity, w, p, a, FromEvicting(w, p, a))
  {
    assert Coherent(w.slots[0]);
    if p.Claiming? && p.victim < |w.slots| {
      assert Coherent(w.slots[p.victim]);
    }
  }

  /** What the administrator's operations do to a slot of his own. */
  lemma AdministratorsOwn(s: Slot)
    requires Coherent(s) && s.owner == OWNER_ADMIN
    ensures var (t, e) := Open(s, OWNER_ADMIN);
            e == OK && SameFile(s, t) && t.owner == OWNER_ADMIN && t.working == Some(Contents(s))
    ensures Remove(s, OWNER_ADMIN) == (FREE, OK, SizeOf(s))
    ensures s.working.Some? ==> Read(s, OWNER_ADMIN) == (Touch(s), OK, Contents(s)) && Coherent(Touch(s))
  {
    OpenQuiet(s, OWNER_ADMIN);
  }

  lemma EvictingActionGood(capacity: nat, w: World, p: Worker, a: Action)
    requires |w.slots| > 0 && AllCoherent(w.slots) && WorkerGood(capacity, w.slots, p) && p.Evicting?
    ensures Good(capacity, w, p, a, FromEvicting(w, p, a))
  {
    assert Coherent(w.slots[0]) && Coherent(w.slots[p.victim]);
    AdministratorsOwn(w.slots[p.victim]);
    if p.phase == Named {
      LastSectionGood(capacity, w, p, a);
    } else {
      CopyingActionGood(capacity, w, p, a);
    }
  }

  lemma LastSectionGood(capacity: nat, w: World, p: Worker, a: Action)
    requires |w.slots| > 0 && WorkerGood(capacity, w.slots, p) && p.Evicting? && p.phase == Named
    requires Coherent(w.slots[p.victim])
    requires Remove(w.slots[p.victim], OWNER_ADMIN) == (FREE, OK, SizeOf(w.slots[p.victim]))
    ensures Good(capacity, w, p, a, FromEvicting(w, p, a))
  {
  }

  lemma CopyingActionGood(capacity: nat, w: World, p: Worker, a: Action)
    requires |w.slots| > 0 && WorkerGood(capacity, w.slots, p) && p.Evicting? && p.phase != Named
    requires Coherent(w.slots[p.victim]) && Coherent(w.slots[0])
    ensures Good(capacity, w, p, a, FromEvicting(w, p, a))
  {
    AdministratorsOwn(w.slots[p.victim]);
  }

  // -------------------------------------------------------- one step, globally

  lemma {:induction false} SumAtMost(s: seq<Worker>, capacity: nat, t: nat)
    requires forall i :: 0 <= i < |s| ==> Promised(s[i]) <= capacity
    requires t < |s| && Promised(s[t]) == 0
    ensures Sum(s, Promised) + capacity <= |s| * capacity
  {
    var n := |s| - 1;
    assert n * capacity + capacity == |s| * capacity;
    if t < n {
      SumAtMost(s[..n], capacity, t);
    } else {
      AllAtMost(s[..n], capacity);
    }
  }

  lemma {:induction false} AllAtMost(s: seq<Worker>, capacity: nat)
    requires forall i :: 0 <= i < |s| ==> Promised(s[i]) <= capacity
    ensures Sum(s, Promised) <= |s| * capacity
  {
    if |s| > 0 {
      AllAtMost(s[..|s| - 1], capacity);
      assert (|s| - 1) * capacity + capacity == |s| * capacity;
    }
  }

  lemma ActionGood(capacity: nat, w: World, t: nat, a: Action)
    requires Inv(capacity, w) && t < |w.workers|
    ensures Good(capacity, w, w.workers[t], a, EffectOf(capacity, w, w.workers[t], a))
  {
    var p := w.workers[t];
    assert WorkerGood(capacity, w.slots, p);
    IdleActionGood(capacity, w, a);
    CreatingActionGood(capacity, w, p, a);
    SettlingActionGood(capacity, w, p, a);
    if p.Evicting? {
      EvictingActionGood(capacity, w, p, a);
    } else {
      ClaimingActionGood(capacity, w, p, a);
    }
    if p.Reserved? {
      StoreActionGood(capacity, w, p, a);
    } else {
      JobActionGood(capacity, w, p, a);
    }
  }

  /** v is w after worker t had effect e. */
  predicate Applied(w: World, v: World, t: nat, e: Effect) {
    && e.slot < |w.slots| && t < |w.workers|
    && v.slots == w.slots[e.slot := e.to] && v.workers == w.workers[t := e.worker]
    && v.storage == w.storage + e.storage && v.nfiles == w.nfiles + e.files
  }

  lemma StepApplied(capacity: nat, w: World, t: nat, a: Action) returns (e: Effect)
    requires Inv(capacity, w) && Step(capacity, w, t, a).Some?
    ensures t < |w.workers| && EffectOf(capacity, w, w.workers[t], a) == Some(e)
    ensures Applied(w, Step(capacity, w, t, a).value, t, e)
    ensures LocallyGood(capacity, w, w.workers[t], e) && RaisesOnly(a, e)
  {
    e := EffectOf(capacity, w, w.workers[t], a).value;
    ActionGood(capacity, w, t, a);
  }

  lemma AppliedConserves(capacity: nat, w: World, v: World, t: nat, e: Effect)
    requires AllCoherent(w.slots) && Conserved(w) && Applied(w, v, t, e) && LocallyGood(capacity, w, w.workers[t], e)
    ensures Conserved(v) && AllCoherent(v.slots)
  {
    TotalsUpdate(w.slots, e.slot, e.to);
    SumUpdate(w.workers, t, e.worker, BytesInFlight);
    SumUpdate(w.workers, t, e.worker, FilesInFlight);
  }

  lemma AppliedBounded(capacity: nat, w: World, v: World, t: nat, e: Effect)
    requires Inv(capacity, w) && Applied(w, v, t, e) && LocallyGood(capacity, w, w.workers[t], e)
    ensures v.storage + Sum(v.workers, Promised) <= |v.workers| * capacity
  {
    SumUpdate(w.workers, t, e.worker, Promised);
    if e.worker.Checked? {
      forall i | 0 <= i < |w.workers| ensures Promised(w.workers[i]) <= capacity {
        assert WorkerGood(capacity, w.slots, w.workers[i]);
      }
      SumAtMost(w.workers, capacity, t);
    }
  }

  lemma AppliedKeepsWorkers(capacity: nat, w: World, v: World, t: nat, e: Effect)
    requires Inv(capacity, w) && Applied(w, v, t, e) && LocallyGood(capacity, w, w.workers[t], e)
    ensures forall u :: 0 <= u < |v.workers| ==> WorkerGood(capacity, v.slots, v.workers[u])
  {
    forall u | 0 <= u < |v.workers| ensures WorkerGood(capacity, v.slots, v.workers[u]) {
      assert WorkerGood(capacity, w.slots, w.workers[u]);
      if u != t && w.workers[u].Evicting? && w.workers[u].victim == e.slot {
        assert !(w.workers[t].Evicting? && w.workers[t].victim == e.slot);
      }
    }
  }

  lemma AppliedKeepsApart(capacity: nat, w: World, v: World, t: nat, e: Effect)
    requires Inv(capacity, w) && Applied(w, v, t, e) && LocallyGood(capacity, w, w.workers[t], e)
    ensures VictimsApart(v.workers)
  {
    forall u | 0 <= u < |v.workers| && u != t && v.workers[u].Evicting? && e.worker.Evicting?
      ensures v.workers[u].victim != e.worker.victim
    {
      assert WorkerGood(capacity, w.slots, w.workers[u]);
    }
  }

  lemma AppliedKeepsClaimants(capacity: nat, w: World, v: World, t: nat, e: Effect)
    requires AllClaimed(w) && Applied(w, v, t, e) && LocallyGood(capacity, w, w.workers[t], e)
    ensures AllClaimed(v)
  {
    forall i | 0 <= i < |v.slots| && v.slots[i].owner == OWNER_ADMIN ensures ClaimedBySome(v.workers, i) {
      if w.slots[i].owner == OWNER_ADMIN {
        assert ClaimedBySome(w.workers, i);
        var u :| 0 <= u < |w.workers| && w.workers[u].Evicting? && w.workers[u].victim == i;
        assert v.workers[u].Evicting? && v.workers[u].victim == i;
      } else {
        assert v.workers[t] == e.worker;
      }
    }
  }

  lemma StepKeepsInv(capacity: nat, w: World, t: nat, a: Action)
    requires Inv(capacity, w) && Step(capacity, w, t, a).Some?
    ensures var v := Step(capacity, w, t, a).value;
            Inv(capacity, v) && |v.workers| == |w.workers| && |v.slots| == |w.slots|
  {
    var v := Step(capacity, w, t, a).value;
    var e := StepApplied(capacity, w, t, a);
    AppliedConserves(capacity, w, v, t, e);
    AppliedBounded(capacity, w, v, t, e);
    AppliedKeepsWorkers(capacity, w, v, t, e);
    AppliedKeepsApart(capacity, w, v, t, e);
    AppliedKeepsClaimants(capacity, w, v, t, e);
  }

  // ------------------------------------------------------------- every schedule

  lemma StartInv(capacity: nat, files: nat, workers: nat)
    requires files > 0
    ensures Inv(capacity, Start(files, workers))
  {
    var w := Start(files, workers);
    SumZero(w.slots, Size);
    SumZero(w.slots, One);
    SumZero(w.workers, BytesInFlight);
    SumZero(w.workers, FilesInFlight);
    SumZero(w.workers, Promised);
  }

  ghost predicate Reachable(capacity: nat, files: nat, workers: nat, moves: seq<Move>, w: World) {
    files > 0 && Play(capacity, Start(files, workers), moves) == Some(w)
  }

  lemma {:induction false} ReachableInv(capacity: nat, files: nat, workers: nat, moves: seq<Move>, w: World)
    requires Reachable(capacity, files, workers, moves, w)
    ensures Inv(capacity, w) && |w.workers| == workers && |w.slots| == files
  {
    StartInv(capacity, files, workers);
    if |moves| > 0 {
      var before := Play(capacity, Start(files, workers), moves[..|moves| - 1]).value;
      ReachableInv(capacity, files, workers, moves[..|moves| - 1], before);
      StepKeepsInv(capacity, before, moves[|moves| - 1].worker, moves[|moves| - 1].action);
    }
  }

  /** Conservation: under every schedule the two totals are exactly what the slots
      hold plus what the workers have in flight, and neither total of bytes is ever
      negative. */
  lemma TotalsConserved(capacity: nat, files: nat, workers: nat, moves: seq<Move>, w: World)
    requires Reachable(capacity, files, workers, moves, w)
    ensures w.storage == Total(w.slots) + Sum(w.workers, BytesInFlight) >= 0
    ensures w.nfiles == Count(w.slots) + Sum(w.workers, FilesInFlight)
  {
    ReachableInv(capacity, files, workers, moves, w);
    NeverNegative(capacity, w);
  }

  lemma NeverNegative(capacity: nat, w: World)
    requires forall t :: 0 <= t < |w.workers| ==> WorkerGood(capacity, w.slots, w.workers[t])
    ensures Total(w.slots) >= 0 && Sum(w.workers, BytesInFlight) >= 0 && Sum(w.workers, Promised) >= 0
  {
    forall t | 0 <= t < |w.workers| ensures BytesInFlight(w.workers[t]) >= 0 {
      assert WorkerGood(capacity, w.slots, w.workers[t]);
    }
    SumNonNegative(w.workers, BytesInFlight);
    SumNonNegative(w.workers, Promised);
    SumNonNegative(w.slots, Size);
  }

  /** ... so whenever no worker is in the middle of something they are exactly the
      bytes and files in the table. */
  lemma TotalsExactAtRest(capacity: nat, files: nat, workers: nat, moves: seq<Move>, w: World)
    requires Reachable(capacity, files, workers, moves, w)
    requires forall t :: 0 <= t < |w.workers| ==> w.workers[t] == Idle
    ensures w.storage == Total(w.slots) && w.nfiles == Count(w.slots)
  {
    ReachableInv(capacity, files, workers, moves, w);
    NothingInFlight(w.workers);
  }

  lemma NothingInFlight(workers: seq<Worker>)
    requires forall t :: 0 <= t < |workers| ==> workers[t] == Idle
    ensures Sum(workers, BytesInFlight) == 0 && Sum(workers, FilesInFlight) == 0
  {
    SumZero(workers, BytesInFlight);
    SumZero(workers, FilesInFlight);
  }

  /** The capacity bound: bytes counted plus bytes promised by a passed check never
      exceed workers * capacity; so a single worker never exceeds the capacity. */
  lemma CapacityBound(capacity: nat, files: nat, workers: nat, moves: seq<Move>, w: World)
    requires Reachable(capacity, files, workers, moves, w)
    ensures 0 <= Sum(w.workers, Promised)
    ensures w.storage + Sum(w.workers, Promised) <= workers * capacity
    ensures workers == 1 ==> w.storage + Sum(w.workers, Promised) <= capacity
  {
    assert 0 <= Sum(w.workers, Promised) && Bounded(capacity, workers, w) by {
      ReachableInv(capacity, files, workers, moves, w);
      NeverNegative(capacity, w);
    }
    BoundOfOne(capacity, workers, w);
  }

  predicate Bounded(capacity: nat, workers: nat, w: World) {
    w.storage + Sum(w.workers, Promised) <= workers * capacity
  }

  lemma BoundOfOne(capacity: nat, workers: nat, w: World)
    requires Bounded(capacity, workers, w)
    ensures workers == 1 ==> w.storage + Sum(w.workers, Promised) <= capacity
  {
  }

  // --------------------------------------------------------------- high-water marks

  /** The largest value current_storage, or current_files, has had so far. */
  function MostStorage(capacity: nat, w: World, moves: seq<Move>): int
    decreases |moves|
  {
    var now := match Play(capacity, w, moves) case Some(v) => v.storage case None => 0;
    if |moves| == 0 then now else Max(MostStorage(capacity, w, moves[..|moves| - 1]), now)
  }

  function MostFiles(capacity: nat, w: World, moves: seq<Move>): int
    decreases |moves|
  {
    var now := match Play(capacity, w, moves) case Some(v) => v.nfiles case None => 0;
    if |moves| == 0 then now else Max(MostFiles(capacity, w, moves[..|moves| - 1]), now)
  }

  /** Only reserving raises current_storage, and only counting raises current_files. */
  lemma OnlyTheseRaise(capacity: nat, w: World, t: nat, a: Action)
    requires Inv(capacity, w) && Step(capacity, w, t, a).Some?
    ensures var v := Step(capacity, w, t, a).value;
            (a != Reserve ==> v.storage <= w.storage) && (a != CountFile ==> v.nfiles <= w.nfiles)
  {
    var e := StepApplied(capacity, w, t, a);
  }

  /** The marks the server reports at shutdown are the true maxima of the run. */
  lemma {:induction false} PeaksAreTrueMaxima(capacity: nat, files: nat, workers: nat, moves: seq<Move>, w: World)
    requires Reachable(capacity, files, workers, moves, w)
    ensures w.peakStorage == MostStorage(capacity, Start(files, workers), moves)
    ensures w.peakFiles == MostFiles(capacity, Start(files, workers), moves)
    ensures w.peakStorage >= w.storage && w.peakFiles >= w.nfiles
  {
    if |moves| > 0 {
      var past, m := moves[..|moves| - 1], moves[|moves| - 1];
      var before := Play(capacity, Start(files, workers), past).value;
      PeaksAreTrueMaxima(capacity, files, workers, past, before);
      ReachableInv(capacity, files, workers, past, before);
      OnlyTheseRaise(capacity, before, m.worker, m.action);
    }
  }

  // ------------------------------------------------------------ eviction claims

  /** In every reachable state a slot of the administrator's is being evicted by
      exactly one worker, and is still the file that worker claimed. */
  lemma ClaimantUnique(capacity: nat, files: nat, workers: nat, moves: seq<Move>, w: World, i: nat)
    requires Reachable(capacity, files, workers, moves, w) && i < |w.slots|
    ensures w.slots[i].owner == OWNER_ADMIN <==> ClaimedBySome(w.workers, i)
    ensures forall t, u :: 0 <= t < |w.workers| && 0 <= u < |w.workers| ==>
              w.workers[t].Evicting? && w.workers[t].victim == i &&
              w.workers[u].Evicting? && w.workers[u].victim == i ==>
              t == u
    ensures forall t :: 0 <= t < |w.workers| && w.workers[t].Evicting? && w.workers[t].victim == i ==>
              ClaimGood(w.slots[i], w.workers[t])
  {
    ReachableInv(capacity, files, workers, moves, w);
    forall t | 0 <= t < |w.workers| && w.workers[t].Evicting? && w.workers[t].victim == i
      ensures ClaimGood(w.slots[i], w.workers[t])
    {
      assert WorkerGood(capacity, w.slots, w.workers[t]);
    }
  }

  /** While worker t has slot v claimed, no other worker changes whose it is, what
      it is called or what it holds. */
  lemma ClaimExcludesOthers(capacity: nat, w: World, t: nat, u: nat, a: Action)
    requires Inv(capacity, w) && t < |w.workers| && w.workers[t].Evicting? && u != t
    requires Step(capacity, w, u, a).Some?
    ensures var x, v := Step(capacity, w, u, a).value, w.workers[t].victim;
            && |x.workers| == |w.workers| && x.workers[t] == w.workers[t]
            && v < |w.slots| == |x.slots| && Untouched(w.slots[v], x.slots[v])
  {
    assert WorkerGood(capacity, w.slots, w.workers[t]);
    var e := StepApplied(capacity, w, u, a);
  }

  /** Worker t has not moved between the two ends of a schedule. */
  predicate Without(moves: seq<Move>, t: nat) {
    forall i :: 0 <= i < |moves| ==> moves[i].worker != t
  }

  /** ... over any stretch of any schedule in which the claimant itself rests. */
  lemma {:induction false} ClaimHolds(capacity: nat, w: World, t: nat, moves: seq<Move>, x: World)
    requires Inv(capacity, w) && t < |w.workers| && w.workers[t].Evicting?
    requires Without(moves, t) && Play(capacity, w, moves) == Some(x)
    ensures Inv(capacity, x) && |x.workers| == |w.workers| && |x.slots| == |w.slots|
    ensures x.workers[t] == w.workers[t]
    ensures w.workers[t].victim < |w.slots| && Untouched(w.slots[w.workers[t].victim], x.slots[w.workers[t].victim])
  {
    assert WorkerGood(capacity, w.slots, w.workers[t]);
    if |moves| > 0 {
      var past, m := moves[..|moves| - 1], moves[|moves| - 1];
      var before := Play(capacity, w, past).value;
      ClaimHolds(capacity, w, t, past, before);
      StepKeepsInv(capacity, before, m.worker, m.action);
      ClaimExcludesOthers(capacity, before, t, m.worker, m.action);
    }
  }

  /** What the settling of an eviction adds to the files on their way: the file that
      was removed, whole, if and only if it was not empty. */
  function ShippedWith(shipped: seq<Frame>, f: Frame): seq<Frame> {
    if f.bytes == [] then shipped else shipped + [f]
  }

  /** From the last copy to the removal. */
  lemma RemovalKeepsCopy(capacity: nat, w: World, t: nat)
    requires Inv(capacity, w) && t < |w.workers| && w.workers[t].Evicting? && w.workers[t].phase == Named
    ensures var p := w.workers[t];
            && p.victim < |w.slots| && Exists(w.slots[p.victim])
            && p.got == Frame(w.slots[p.victim].name, Contents(w.slots[p.victim])) == Frame(p.name, p.bytes)
            && Step(capacity, w, t, RemoveVictim).Some?
            && var x := Step(capacity, w, t, RemoveVictim).value;
               && x.slots == w.slots[p.victim := FREE]
               && x.workers == w.workers[t := RemovedVictim(p.job, |p.bytes|, p.got)]
  {
    var p := w.workers[t];
    assert WorkerGood(capacity, w.slots, p);
    assert Coherent(w.slots[p.victim]);
    AdministratorsOwn(w.slots[p.victim]);
  }

  lemma StepOfOther(capacity: nat, w: World, t: nat, u: nat, a: Action)
    requires t < |w.workers| && u != t && Step(capacity, w, u, a).Some?
    ensures var x := Step(capacity, w, u, a).value;
            |x.workers| == |w.workers| && |x.slots| == |w.slots| && x.workers[t] == w.workers[t]
  {
  }

  /** Only worker t changes what worker t is at. */
  lemma {:induction false} OthersMove(capacity: nat, w: World, t: nat, moves: seq<Move>, x: World)
    requires t < |w.workers| && |w.slots| > 0 && Without(moves, t) && Play(capacity, w, moves) == Some(x)
    ensures |x.workers| == |w.workers| && |x.slots| == |w.slots| && x.workers[t] == w.workers[t]
  {
    if |moves| > 0 {
      var past, m := moves[..|moves| - 1], moves[|moves| - 1];
      var before := Play(capacity, w, past).value;
      OthersMove(capacity, w, t, past, before);
      StepOfOther(capacity, before, t, m.worker, m.action);
    }
  }

  /** From the removal to the reply: worker t removes the file it claimed, and
      whatever the others do before it settles, it then has shipped exactly the file
      it removed if that file was not empty, and nothing if it was; and it takes
      exactly that file off the totals. */
  lemma EvictionShipsWhatItRemoves(capacity: nat, w: World, t: nat, moves: seq<Move>, y: World)
    requires Inv(capacity, w) && t < |w.workers| && w.workers[t].Evicting? && w.workers[t].phase == Named
    requires Step(capacity, w, t, RemoveVictim).Some?
    requires Without(moves, t) && Play(capacity, Step(capacity, w, t, RemoveVictim).value, moves) == Some(y)
    ensures var p := w.workers[t];
            && p.victim < |w.slots| && Exists(w.slots[p.victim])
            && Step(capacity, w, t, RemoveVictim).value.slots == w.slots[p.victim := FREE]
            && Step(capacity, y, t, SettleEviction).Some?
            && var file := Frame(w.slots[p.victim].name, Contents(w.slots[p.victim]));
               var z := Step(capacity, y, t, SettleEviction).value;
               && z.slots == y.slots && z.storage == y.storage - |file.bytes| && z.nfiles == y.nfiles - 1
               && z.workers == y.workers[t := Checking(p.job.(shipped := ShippedWith(p.job.shipped, file)))]
  {
    RemovalKeepsCopy(capacity, w, t);
    OthersMove(capacity, Step(capacity, w, t, RemoveVictim).value, t, moves, y);
    assert y.slots[0 := y.slots[0]] == y.slots;
  }
}
