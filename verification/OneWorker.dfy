/** The server that runs one request at a time is one of the schedules of the server
    with many workers: every request that returns is a sequence of critical sections
    of one worker while the others rest, and so is every run. */
module OneWorker {
  import opened Basics
  import opened Slots
  import opened Table
  import opened ServerState
  import opened Eviction
  import opened EvictionProofs
  import opened Requests
  import opened Refinement
  import Runs
  import opened Interleaved
  import opened InterleavedProofs
  import opened Schedules

  /** The part of a state that the interleaved model has too. */
  function Lift(st: State, workers: seq<Worker>): World {
    World(st.slots, st.storage, st.nfiles, st.peakStorage, st.peakFiles, workers)
  }

  /** Worker t alone gets from the one state to the other, and is idle at both ends. */
  ghost predicate Alone(capacity: nat, t: nat, workers: seq<Worker>, st: State, st': State) {
    Leads(Game(capacity, {t}), Lift(st, workers), Lift(st', workers))
  }

  predicate Rests(workers: seq<Worker>, t: nat) {
    t < |workers| && workers[t] == Idle
  }

  // ------------------------------------------------- requests that never evict

  lemma CloseAlone(cfg: Config, st: State, c: int, name: Name, workers: seq<Worker>, t: nat)
    requires AllCoherent(st.slots) && ClientId(c) && Rests(workers, t)
    ensures Alone(cfg.maxStorage, t, workers, st, DoClose(st, c, name).st)
  {
    var g, w := Game(cfg.maxStorage, {t}), Lift(st, workers);
    var f := Find(st.slots, name);
    if f.Some? {
      assert Coherent(st.slots[f.value]);
      CloseQuiet(st.slots[f.value], c);
      CloseOnce(g, w, t, f.value, c);
    } else {
      LeadsNowhere(g, w);
    }
  }

  /** Opening without creating, reading, locking and unlocking are one section each. */
  lemma TouchAlone(cfg: Config, st: State, f: nat, op: Touching, workers: seq<Worker>, t: nat)
    requires f < |st.slots| && OwnerArg(op.who) && Rests(workers, t)
    ensures Alone(cfg.maxStorage, t, workers, st, st.(slots := st.slots[f := Touched(st.slots[f], op)]))
  {
    TouchOnce(Game(cfg.maxStorage, {t}), Lift(st, workers), t, f, op);
  }

  /** ... on the file of this name, if there is one. */
  lemma NamedTouchAlone(cfg: Config, st: State, name: Name, op: Touching, workers: seq<Worker>, t: nat)
    requires OwnerArg(op.who) && Rests(workers, t)
    ensures match Find(st.slots, name)
            case None => Alone(cfg.maxStorage, t, workers, st, st)
            case Some(f) => Alone(cfg.maxStorage, t, workers, st, st.(slots := st.slots[f := Touched(st.slots[f], op)]))
  {
    if Find(st.slots, name).Some? {
      TouchAlone(cfg, st, Find(st.slots, name).value, op, workers, t);
    } else {
      LeadsNowhere(Game(cfg.maxStorage, {t}), Lift(st, workers));
    }
  }

  lemma RemoveAlone(cfg: Config, st: State, c: int, name: Name, workers: seq<Worker>, t: nat)
    requires ClientId(c) && Rests(workers, t)
    ensures Alone(cfg.maxStorage, t, workers, st, DoRemove(st, c, name).st)
  {
    var g, w := Game(cfg.maxStorage, {t}), Lift(st, workers);
    var f := Find(st.slots, name);
    if f.Some? && st.slots[f.value].owner != OWNER_NULL {
      RemoveOnce(g, w, t, f.value, c);
    } else {
      LeadsNowhere(g, w);
    }
  }

  lemma CreateAlone(
    cfg: Config, st: State, k: nat, name: Name, owner: int, lock: bool, now: int, workers: seq<Worker>, t: nat)
    requires AllCoherent(st.slots) && k < |st.clients| && OwnerArg(owner) && Rests(workers, t)
    ensures Alone(cfg.maxStorage, t, workers, st, DoCreate(st, k, name, owner, lock, now).st)
  {
    var g, w := Game(cfg.maxStorage, {t}), Lift(st, workers);
    var f := FreeFrom(st.slots, 0);
    if Find(st.slots, name).None? && f.Some? {
      assert Coherent(st.slots[f.value]) && st.slots[f.value] == FREE;
      Creation(g, w, Lift(DoCreate(st, k, name, owner, lock, now).st, workers), t, name, f.value, owner, now);
    } else {
      LeadsNowhere(g, w);
    }
  }

  /** What readN does to one slot. */
  lemma ReadNSlotAlone(cfg: Config, st: State, c: int, i: nat, workers: seq<Worker>, t: nat)
    requires AllCoherent(st.slots) && ClientId(c) && i < |st.slots| && Rests(workers, t)
    ensures Alone(cfg.maxStorage, t, workers, st, st.(slots := st.slots[i := ReadNSlot(st.slots[i], c).0]))
  {
    var g, s := Game(cfg.maxStorage, {t}), st.slots[i];
    var copy := Open(s, c).0;
    var st1 := st.(slots := st.slots[i := copy]);
    TouchAlone(cfg, st, i, OpenIt(c), workers, t);
    assert Coherent(s);
    OpenQuiet(s, c);
    if Open(s, c).1 == OK {
      var read := Read(copy, c).0;
      var st2 := st.(slots := st.slots[i := read]);
      TouchAlone(cfg, st1, i, ReadIt(c), workers, t);
      assert st1.(slots := st1.slots[i := read]) == st2;
      LeadsOn(g, Lift(st, workers), Lift(st1, workers), Lift(st2, workers));
      if s.working.None? {
        QuietOperations(copy, c);
        CloseOnce(g, Lift(st2, workers), t, i, c);
        var st3 := st.(slots := st.slots[i := Close(read, c).0]);
        assert st2.(slots := st2.slots[i := Close(read, c).0]) == st3;
        LeadsOn(g, Lift(st, workers), Lift(st2, workers), Lift(st3, workers));
      }
    }
  }

  lemma ReadNSlotQuiet(s: Slot, c: int)
    requires Coherent(s) && c > 0
    ensures SameFile(s, ReadNSlot(s, c).0) && ReadNSlot(s, c).2 == 0
  {
    OpenQuiet(s, c);
    var s1 := Open(s, c).0;
    QuietOperations(s1, c);
    CloseQuiet(Read(s1, c).0, c);
  }

  lemma {:induction false} ReadNAlone(
    cfg: Config, st: State, c: int, n: int, i: nat, files: seq<Frame>, diff: int, workers: seq<Worker>, t: nat)
    requires AllCoherent(st.slots) && ClientId(c) && i <= |st.slots| && Rests(workers, t)
    ensures var (after, sent, d) := ReadNFrom(st.slots, c, n, i, files, diff);
            d == diff && Alone(cfg.maxStorage, t, workers, st, st.(slots := after))
    decreases |st.slots| - i
  {
    var g := Game(cfg.maxStorage, {t});
    if i < |st.slots| && (n <= 0 || |files| < n) {
      var (s, bytes, d) := ReadNSlot(st.slots[i], c);
      var next := st.(slots := st.slots[i := s]);
      assert Coherent(st.slots[i]);
      ReadNSlotQuiet(st.slots[i], c);
      ReadNSlotAlone(cfg, st, c, i, workers, t);
      var more := if bytes.Some? then files + [Frame(s.name, bytes.value)] else files;
      ReadNAlone(cfg, next, c, n, i + 1, more, diff + d, workers, t);
      var end := st.(slots := ReadNFrom(st.slots, c, n, i, files, diff).0);
      LeadsOn(g, Lift(st, workers), Lift(next, workers), Lift(end, workers));
    } else {
      LeadsNowhere(g, Lift(st, workers));
    }
  }

  lemma {:induction false} ReleaseAlone(cfg: Config, st: State, c: int, i: nat, diff: int, workers: seq<Worker>, t: nat)
    requires AllCoherent(st.slots) && ClientId(c) && i <= |st.slots| && Rests(workers, t)
    ensures var (after, d) := ReleaseFrom(st.slots, c, i, diff);
            d == diff && Alone(cfg.maxStorage, t, workers, st, st.(slots := after))
    decreases |st.slots| - i
  {
    var g := Game(cfg.maxStorage, {t});
    if i == |st.slots| {
      LeadsNowhere(g, Lift(st, workers));
    } else if Exists(st.slots[i]) && st.slots[i].owner == c {
      var next := st.(slots := st.slots[i := Close(st.slots[i], c).0]);
      assert Coherent(st.slots[i]);
      CloseQuiet(st.slots[i], c);
      CloseOnce(g, Lift(st, workers), t, i, c);
      ReleaseAlone(cfg, next, c, i + 1, diff, workers, t);
      var end := st.(slots := ReleaseFrom(st.slots, c, i, diff).0);
      LeadsOn(g, Lift(st, workers), Lift(next, workers), Lift(end, workers));
    } else {
      ReleaseAlone(cfg, st, c, i + 1, diff, workers, t);
    }
  }

  lemma SimpleAlone(cfg: Config, st: State, c: int, req: Request, workers: seq<Worker>, t: nat)
    requires AllCoherent(st.slots) && ClientId(c) && Simple(req) && Rests(workers, t)
    ensures Alone(cfg.maxStorage, t, workers, st, DoSimple(st, c, req).st)
  {
    var g, w := Game(cfg.maxStorage, {t}), Lift(st, workers);
    match req
    case CloseFile(name) => CloseAlone(cfg, st, c, name, workers, t);
    case RemoveFile(name) => RemoveAlone(cfg, st, c, name, workers, t);
    case ReadN(n) => ReadNAlone(cfg, st, c, n, 0, [], 0, workers, t);
    case ReadFile(name) => NamedTouchAlone(cfg, st, name, ReadIt(c), workers, t);
    case LockFile(name) => NamedTouchAlone(cfg, st, name, LockIt(c), workers, t);
    case UnlockFile(name) => NamedTouchAlone(cfg, st, name, UnlockIt(c), workers, t);
  }

  // ------------------------------------------------------- eviction and storing

  /** The sweep of the clock: worker t clears bits and goes on scanning. */
  lemma {:induction false} SweepAlone(
    g: Game, w: World, t: nat, job: Job, prot: Name, pos: nat, k: nat)
    requires t in g.who && t < |w.workers| && w.workers[t] == Scanning(job) && pos < |w.slots|
    ensures Leads(g, w, w.(slots := Sweep(w.slots, prot, pos, k).0))
    decreases k
  {
    if k == 0 || (Eligible(w.slots[pos], prot) && !w.slots[pos].used) {
      LeadsNowhere(g, w);
    } else if !Eligible(w.slots[pos], prot) {
      SweepAlone(g, w, t, job, prot, Next(pos, |w.slots|), k - 1);
    } else {
      var s := w.slots[pos].(used := false);
      var next := w.(slots := w.slots[pos := s]);
      Change(g, w, t, ClearBit(pos), pos, s, Scanning(job));
      assert SlotAt(w, t, pos, s, Scanning(job)) == next by {
        assert w.workers[t := Scanning(job)] == w.workers;
      }
      SweepAlone(g, next, t, job, prot, Next(pos, |w.slots|), k - 1);
      LeadsOn(g, w, next, w.(slots := Sweep(w.slots, prot, pos, k).0));
    }
  }

  lemma VictimAlone(g: Game, w: World, t: nat, job: Job, cfg: Config, prot: Name, pos: nat, now: int)
    requires t in g.who && t < |w.workers| && w.workers[t] == Scanning(job) && pos < |w.slots|
    ensures Leads(g, w, w.(slots := Victim(cfg.algo, w.slots, prot, pos, now).0))
  {
    if cfg.algo == LRU {
      SweepAlone(g, w, t, job, prot, pos, |w.slots|);
    } else {
      LeadsNowhere(g, w);
    }
  }

  /** A state with worker t at p. */
  function With(st: State, workers: seq<Worker>, t: nat, p: Worker): World
    requires t < |workers|
  {
    Lift(st, workers[t := p])
  }

  lemma MoveOn(g: Game, st: State, workers: seq<Worker>, t: nat, p: Worker, a: Action, q: Worker)
    requires t in g.who && t < |workers| && |st.slots| > 0 && a != Reserve && a != CountFile
    requires var w := With(st, workers, t, p);
             EffectOf(g.capacity, w, p, a) == Some(Effect(0, w.slots[0], q, 0, 0))
    ensures Leads(g, With(st, workers, t, p), With(st, workers, t, q))
  {
    var w := With(st, workers, t, p);
    Pass(g, w, t, a, q);
    assert w.workers[t := q] == workers[t := q];
  }

  function ShippedAfter(shipped: seq<Frame>, frame: Option<Frame>): seq<Frame> {
    if frame.Some? then shipped + [frame.value] else shipped
  }

  /** The eviction of a victim already chosen. */
  lemma EvictAlone(cfg: Config, st: State, v: nat, job: Job, workers: seq<Worker>, t: nat)
    requires Tidy(st) && v < |st.slots| && Exists(st.slots[v]) && t < |workers|
    ensures var (st', frame) := EvictAt(cfg, st, v);
            Leads(Game(cfg.maxStorage, {t}), With(st, workers, t, Claiming(job, v)),
                  With(st', workers, t, Checking(job.(shipped := ShippedAfter(job.shipped, frame)))))
  {
    var g, w := Game(cfg.maxStorage, {t}), With(st, workers, t, Claiming(job, v));
    var (st', frame) := EvictAt(cfg, st, v);
    var q := Checking(job.(shipped := ShippedAfter(job.shipped, frame)));
    assert Coherent(st.slots[v]);
    Expelling(g, w, t, job, v);
    assert w.workers[t := q] == workers[t := q];
  }

  /** One cache miss, from a failed check to the next check. */
  lemma CacheMissAlone(cfg: Config, st: State, prot: Name, now: int, job: Job, workers: seq<Worker>, t: nat)
    requires Tidy(st) && t < |workers| && st.storage + |job.payload| > cfg.maxStorage
    ensures var (st', frame) := CacheMiss(cfg, st, prot, now);
            Leads(Game(cfg.maxStorage, {t}), With(st, workers, t, Checking(job)),
                  With(st', workers, t, Checking(job.(shipped := ShippedAfter(job.shipped, frame)))))
  {
    var g := Game(cfg.maxStorage, {t});
    var (slots, victim) := Victim(cfg.algo, st.slots, prot, st.lruPos, now);
    var scanned := st.(slots := slots);
    var w, scanning := With(st, workers, t, Checking(job)), With(st, workers, t, Scanning(job));
    MoveOn(g, st, workers, t, Checking(job), Check, Scanning(job));
    VictimAlone(g, scanning, t, job, cfg, prot, st.lruPos, now);
    LeadsOn(g, w, scanning, With(scanned, workers, t, Scanning(job)));
    ScannedTidy(cfg, st, prot, now);
    if victim.None? {
      MoveOn(g, scanned, workers, t, Scanning(job), Choose(None), Checking(job));
      LeadsOn(g, w, With(scanned, workers, t, Scanning(job)), With(scanned, workers, t, Checking(job)));
      assert job.(shipped := job.shipped) == job;
    } else {
      var v := victim.value;
      MoveOn(g, scanned, workers, t, Scanning(job), Choose(victim), Claiming(job, v));
      LeadsOn(g, w, With(scanned, workers, t, Scanning(job)), With(scanned, workers, t, Claiming(job, v)));
      EvictAlone(cfg, scanned, v, job, workers, t);
      var (st', frame) := EvictAt(cfg, scanned, v);
      LeadsOn(g, w, With(scanned, workers, t, Claiming(job, v)),
        With(st', workers, t, Checking(job.(shipped := ShippedAfter(job.shipped, frame)))));
    }
  }

  lemma ScannedTidy(cfg: Config, st: State, prot: Name, now: int)
    requires Tidy(st)
    ensures var (slots, victim) := Victim(cfg.algo, st.slots, prot, st.lruPos, now);
            Tidy(st.(slots := slots)) && (victim.Some? ==> Exists(slots[victim.value]))
  {
    VictimSound(cfg.algo, st.slots, prot, st.lruPos, now);
    KeptSameFiles(st.slots, Victim(cfg.algo, st.slots, prot, st.lruPos, now).0);
    SameFilesKeep(st.slots, Victim(cfg.algo, st.slots, prot, st.lruPos, now).0);
  }

  lemma {:induction false} LoopAlone(
    cfg: Config, st: State, prot: Name, times: seq<int>, i: nat, job: Job, workers: seq<Worker>, t: nat)
    requires Tidy(st) && i <= |times| && t < |workers|
    ensures var out := EvictLoop(cfg, st, prot, |job.payload|, times, i, job.shipped);
            Leads(Game(cfg.maxStorage, {t}), With(st, workers, t, Checking(job)),
                  With(out.st, workers, t, Checking(job.(shipped := out.shipped))))
    decreases |times| - i
  {
    var g, w := Game(cfg.maxStorage, {t}), With(st, workers, t, Checking(job));
    if st.storage + |job.payload| <= cfg.maxStorage || i == |times| {
      LeadsNowhere(g, w);
      assert job.(shipped := job.shipped) == job;
    } else {
      var (st', frame) := CacheMiss(cfg, st, prot, times[i]);
      var next := job.(shipped := ShippedAfter(job.shipped, frame));
      CacheMissAlone(cfg, st, prot, times[i], job, workers, t);
      CacheMissEffect(cfg, st, prot, times[i]);
      LoopAlone(cfg, st', prot, times, i + 1, next, workers, t);
      var out := EvictLoop(cfg, st, prot, |job.payload|, times, i, job.shipped);
      assert next.(shipped := out.shipped) == job.(shipped := out.shipped);
      LeadsOn(g, w, With(st', workers, t, Checking(next)),
        With(out.st, workers, t, Checking(job.(shipped := out.shipped))));
    }
  }

  lemma StoreAlone(
    cfg: Config, st: State, c: int, name: Name, payload: Bytes, f: nat, append: bool, turns: seq<int>,
    workers: seq<Worker>, t: nat)
    requires Tidy(st) && ClientId(c) && f < |st.slots| && Rests(workers, t)
    requires DoStore(cfg, st, c, name, payload, f, append, turns).Returned?
    ensures Alone(cfg.maxStorage, t, workers, st, DoStore(cfg, st, c, name, payload, f, append, turns).st)
  {
    var g, w := Game(cfg.maxStorage, {t}), Lift(st, workers);
    if |payload| > cfg.maxStorage {
      LeadsNowhere(g, w);
    } else {
      var job := Job(c, f, payload, append, []);
      var out := EvictLoop(cfg, st, name, |payload|, turns, 0, []);
      var done := job.(shipped := out.shipped);
      assert workers[t := Idle] == workers;
      MoveOn(g, st, workers, t, Idle, Begin(c, f, payload, append), Checking(job));
      LoopAlone(cfg, st, name, turns, 0, job, workers, t);
      LeadsOn(g, w, With(st, workers, t, Checking(job)), With(out.st, workers, t, Checking(done)));
      EvictLoopCorrect(cfg, st, name, |payload|, turns);
      PayloadAlone(cfg, out.st, done, workers, t);
      LeadsOn(g, w, With(out.st, workers, t, Checking(done)), Lift(Store(out.st, c, payload, f, append).0, workers));
    }
  }

  lemma PayloadAlone(cfg: Config, st: State, job: Job, workers: seq<Worker>, t: nat)
    requires job.slot < |st.slots| && Rests(workers, t) && st.storage + |job.payload| <= cfg.maxStorage
    ensures Leads(Game(cfg.maxStorage, {t}), With(st, workers, t, Checking(job)),
                  Lift(Store(st, job.client, job.payload, job.slot, job.append).0, workers))
  {
    var w := With(st, workers, t, Checking(job));
    assert w.workers[t := Idle] == workers;
    FittingStore(Game(cfg.maxStorage, {t}), w,
      Lift(Store(st, job.client, job.payload, job.slot, job.append).0, workers), t, job);
  }

  // ------------------------------------------------------------- every request

  /** Every request that returns is a schedule of one worker's own sections, from a
      world in which it is idle to one in which it is idle again, whatever the others
      are in the middle of. */
  lemma HandleIsSchedule(
    cfg: Config, st: State, c: int, req: Request, clock: Clock, workers: seq<Worker>, t: nat)
    requires Tidy(st) && ClientId(c) && Rests(workers, t) && Handle(cfg, st, c, req, clock).Returned?
    ensures Alone(cfg.maxStorage, t, workers, st, Handle(cfg, st, c, req, clock).st)
  {
    LeadsNowhere(Game(cfg.maxStorage, {t}), Lift(st, workers));
    if FindClient(st.clients, c).Some? {
      var k := FindClient(st.clients, c).value;
      var st1 := SetLastop(st, k, []);
      assert Lift(st1, workers) == Lift(st, workers);
      match req {
        case OpenFile(name, create, lock) =>
          var owner := if lock then c else OWNER_NULL;
          if create {
            CreateAlone(cfg, st1, k, name, owner, lock, clock.now, workers, t);
          } else {
            NamedTouchAlone(cfg, st1, name, OpenIt(owner), workers, t);
          }
        case WriteFile(name, payload) =>
          if st.clients[k].lastop == name && Find(st.slots, name).Some? {
            StoreAlone(cfg, st1, c, name, payload, Find(st.slots, name).value, false, clock.turns, workers, t);
          }
        case AppendFile(name, payload) =>
          if Find(st.slots, name).Some? {
            StoreAlone(cfg, st1, c, name, payload, Find(st.slots, name).value, true, clock.turns, workers, t);
          }
        case CloseConnection => ReleaseAlone(cfg, st, c, 0, 0, workers, t);
        case Unknown =>
        case _ => SimpleAlone(cfg, st1, c, req, workers, t);
      }
    }
  }

  /** Every run of the server that serves one request at a time is a schedule of the
      server with any number of workers, in which worker 0 does everything. */
  lemma {:induction false} RunIsSchedule(
    cfg: Config, files: nat, workers: nat, tr: Runs.Trace, st: State, log: seq<Runs.Entry>)
    requires files > 0 && workers > 0 && Runs.Run(cfg, files, tr, st, log)
    ensures Leads(Game(cfg.maxStorage, {0}), Start(files, workers), Lift(st, seq(workers, _ => Idle)))
  {
    var g, idle := Game(cfg.maxStorage, {0}), seq(workers, _ => Idle);
    match tr
    case Start =>
      LeadsNowhere(g, Start(files, workers));
    case Then(before, e) =>
      var prior: State, past: seq<Runs.Entry> :|
        Runs.Run(cfg, files, before, prior, past) && Runs.StepTo(cfg, prior, e, st, past, log);
      RunIsSchedule(cfg, files, workers, before, prior, past);
      Runs.RunInvariant(cfg, files, before, prior, past);
      if e.Ask? {
        HandleIsSchedule(cfg, prior, e.c, e.req, e.clock, idle, 0);
        LeadsOn(g, Start(files, workers), Lift(prior, idle), Lift(st, idle));
      } else {
        assert Lift(st, idle) == Lift(prior, idle);
      }
  }

  /** ... so whatever holds under every schedule holds at the end of every such run. */
  lemma RunIsReachable(
    cfg: Config, files: nat, workers: nat, tr: Runs.Trace, st: State, log: seq<Runs.Entry>) returns (moves: seq<Move>)
    requires files > 0 && workers > 0 && Runs.Run(cfg, files, tr, st, log)
    ensures MovedBy({0}, moves)
    ensures Reachable(cfg.maxStorage, files, workers, moves, Lift(st, seq(workers, _ => Idle)))
  {
    RunIsSchedule(cfg, files, workers, tr, st, log);
    moves := LeadsPlays(Game(cfg.maxStorage, {0}), Start(files, workers), Lift(st, seq(workers, _ => Idle)));
  }
}
