/** The capacity bound of InterleavedProofs.dfy is the best possible: n workers can
    pass the check one after the other before any of them reserves, and then
    current_storage does reach n times the capacity. */
module CapacityTight {
  import opened Basics
  import opened Slots
  import opened Interleaved
  import opened Schedules
  import opened InterleavedProofs

  /** A different client for every worker, none of them the administrator. */
  function ClientOf(t: nat): int {
    if t + 1 < OWNER_ADMIN then t + 1 else t + 2
  }

  function AppendAll(capacity: nat, t: nat): Job {
    Job(ClientOf(t), 0, seq(capacity, _ => 0), true, [])
  }

  function Shared(files: nat): seq<Slot>
    requires files > 0
  {
    seq(files, _ => FREE)[0 := NewFile([1], OWNER_NULL, 0)]
  }

  /** The first k workers are at p, the others at q. */
  function Split(workers: nat, k: nat, p: nat -> Worker, q: nat -> Worker): (r: seq<Worker>)
    ensures |r| == workers && forall t :: 0 <= t < workers ==> r[t] == if t < k then p(t) else q(t)
  {
    seq(workers, t requires t >= 0 => if t < k then p(t) else q(t))
  }

  lemma SplitMore(workers: nat, k: nat, p: nat -> Worker, q: nat -> Worker)
    requires k < workers
    ensures Split(workers, k, p, q)[k := p(k)] == Split(workers, k + 1, p, q)
  {
  }

  function Past(capacity: nat): nat -> Worker {
    (t: nat) => Checked(AppendAll(capacity, t))
  }

  function Reserving(capacity: nat): nat -> Worker {
    (t: nat) => Reserved(AppendAll(capacity, t))
  }

  function Resting(): nat -> Worker {
    (t: nat) => Idle
  }

  /** k workers have passed the check for a payload of the whole capacity. */
  function PassedCheck(capacity: nat, files: nat, workers: nat, k: nat): World
    requires files > 0
  {
    World(Shared(files), 0, 1, 0, 1, Split(workers, k, Past(capacity), Resting()))
  }

  function Times(k: nat, capacity: nat): nat {
    if k == 0 then 0 else Times(k - 1, capacity) + capacity
  }

  /** ... and k of them have reserved it. */
  function HaveReserved(capacity: nat, files: nat, workers: nat, k: nat): World
    requires files > 0
  {
    var total := Times(k, capacity);
    World(Shared(files), total, 1, total, 1, Split(workers, k, Reserving(capacity), Past(capacity)))
  }

  /** All the workers. */
  function Everybody(capacity: nat, workers: nat): Game {
    Game(capacity, Below(workers))
  }

  lemma FileCreated(capacity: nat, files: nat, workers: nat)
    requires files > 0 && workers > 0
    ensures Leads(Everybody(capacity, workers), Start(files, workers), PassedCheck(capacity, files, workers, 0))
  {
    var w := Start(files, workers);
    var sought := At(w, 0, Absent([1]));
    Sought(Everybody(capacity, workers), w, 0, [1]);
    Creating(Everybody(capacity, workers), sought, 0, [1], 0, OWNER_NULL, 0);
    assert sought.workers[0 := Idle] == PassedCheck(capacity, files, workers, 0).workers;
    LeadsOn(Everybody(capacity, workers), w, sought, PassedCheck(capacity, files, workers, 0));
  }

  /** The next worker begins its append, and passes the check. */
  lemma OneChecks(capacity: nat, files: nat, workers: nat, k: nat)
    requires files > 0 && k < workers
    ensures Leads(Everybody(capacity, workers), PassedCheck(capacity, files, workers, k),
                  PassedCheck(capacity, files, workers, k + 1))
  {
    var job, w := AppendAll(capacity, k), PassedCheck(capacity, files, workers, k);
    var begun, end := At(w, k, Checking(job)), PassedCheck(capacity, files, workers, k + 1);
    Pass(Everybody(capacity, workers), w, k, Begin(job.client, 0, job.payload, true), Checking(job));
    Pass(Everybody(capacity, workers), begun, k, Check, Checked(job));
    assert At(begun, k, Checked(job)).workers == end.workers;
    LeadsOn(Everybody(capacity, workers), w, begun, end);
  }

  lemma ChecksPass(capacity: nat, files: nat, workers: nat)
    requires files > 0
    ensures Leads(Everybody(capacity, workers), PassedCheck(capacity, files, workers, 0),
                  PassedCheck(capacity, files, workers, workers))
  {
    var f := (k: nat) => PassedCheck(capacity, files, workers, k);
    forall k: nat | k < workers ensures Linked(Everybody(capacity, workers), f, k) {
      OneChecks(capacity, files, workers, k);
    }
    LeadsAlong(Everybody(capacity, workers), f, workers);
  }

  lemma OneReserves(capacity: nat, files: nat, workers: nat, k: nat)
    requires files > 0 && k < workers
    ensures Leads(Everybody(capacity, workers), HaveReserved(capacity, files, workers, k),
                  HaveReserved(capacity, files, workers, k + 1))
  {
    var w, job := HaveReserved(capacity, files, workers, k), AppendAll(capacity, k);
    Act(Everybody(capacity, workers), w, k, Reserve, Stay(w, Reserved(job), capacity, 0));
    assert w.slots[0 := w.slots[0]] == w.slots;
    SplitMore(workers, k, Reserving(capacity), Past(capacity));
  }

  lemma AllReserve(capacity: nat, files: nat, workers: nat)
    requires files > 0
    ensures Leads(Everybody(capacity, workers), HaveReserved(capacity, files, workers, 0),
                  HaveReserved(capacity, files, workers, workers))
  {
    var f := (k: nat) => HaveReserved(capacity, files, workers, k);
    forall k: nat | k < workers ensures Linked(Everybody(capacity, workers), f, k) {
      OneReserves(capacity, files, workers, k);
    }
    LeadsAlong(Everybody(capacity, workers), f, workers);
  }

  lemma {:induction false} TimesIs(k: nat, capacity: nat)
    ensures Times(k, capacity) == k * capacity
  {
    if k > 0 {
      TimesIs(k - 1, capacity);
    }
  }

  /** With n workers, current_storage can be exactly n times the capacity. */
  lemma BoundIsReached(capacity: nat, files: nat, workers: nat) returns (moves: seq<Move>, w: World)
    requires files > 0 && workers > 0
    ensures Reachable(capacity, files, workers, moves, w) && w.storage == workers * capacity
  {
    var start, passed := Start(files, workers), PassedCheck(capacity, files, workers, workers);
    w := HaveReserved(capacity, files, workers, workers);
    FileCreated(capacity, files, workers);
    ChecksPass(capacity, files, workers);
    LeadsOn(Everybody(capacity, workers), start, PassedCheck(capacity, files, workers, 0), passed);
    assert passed.workers == HaveReserved(capacity, files, workers, 0).workers;
    AllReserve(capacity, files, workers);
    LeadsOn(Everybody(capacity, workers), start, passed, w);
    TimesIs(workers, capacity);
    moves := LeadsPlays(Everybody(capacity, workers), start, w);
  }

  lemma TimesAtMostOne(n: nat, capacity: nat)
    requires n <= 1 || capacity == 0
    ensures n * capacity <= capacity
  {
    assert n == 0 || n == 1 || capacity == 0;
  }

  lemma TimesAtLeastTwo(n: nat, capacity: nat)
    requires n >= 2
    ensures n * capacity >= 2 * capacity
  {
    assert (n - 2) * capacity >= 0;
  }

  ghost predicate NeverOverCapacity(capacity: nat, files: nat, workers: nat) {
    forall moves, w :: Reachable(capacity, files, workers, moves, w) ==> w.storage <= capacity
  }

  /** So the configured capacity is respected under every schedule exactly by a
      server with at most one worker (or with no capacity at all). */
  lemma CapacityRespectedExactly(capacity: nat, files: nat, workers: nat)
    requires files > 0
    ensures NeverOverCapacity(capacity, files, workers) <==> workers <= 1 || capacity == 0
  {
    if workers <= 1 || capacity == 0 {
      forall moves, w | Reachable(capacity, files, workers, moves, w) ensures w.storage <= capacity {
        CapacityBound(capacity, files, workers, moves, w);
        TimesAtMostOne(workers, capacity);
      }
    } else {
      var moves, w := BoundIsReached(capacity, files, workers);
      TimesAtLeastTwo(workers, capacity);
    }
  }
}
