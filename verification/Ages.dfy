/** How old a file is.  Over whole runs the time a slot remembers is the clock of the
    acknowledged creation of its file, so what FIFO evicts is the file that was created
    first. */
module Ages {
  import opened Basics
  import opened Slots
  import opened Table
  import opened ServerState
  import opened Eviction
  import opened EvictionProofs
  import opened Requests
  import opened Refinement
  import opened Outcomes
  import opened Runs

  /** When the file called n was created, going by the replies; None if there is none. */
  function Born(log: seq<Entry>, n: Name): Option<int> {
    if |log| == 0 then None
    else
      var before, last := Born(log[..|log| - 1], n), log[|log| - 1];
      if last.event.Arrive? then before
      else BornAfter(before, n, last.event.req, last.event.clock, last.reply)
  }

  function BornAfter(before: Option<int>, n: Name, req: Request, clock: Clock, reply: Reply): Option<int> {
    if Shipped(reply.shipped, n) then None
    else if reply.status != Success then before
    else if req.OpenFile? && req.create && req.name == n then Some(clock.now)
    else if req.RemoveFile? && req.name == n then None
    else before
  }

  /** A successful creation. */
  predicate Creates(req: Request, reply: Reply) {
    req.OpenFile? && req.create && reply.status == Success
  }

  /** What was free stays free. */
  ghost predicate NobodyNew(a: seq<Slot>, b: seq<Slot>) {
    |a| == |b| && forall i :: 0 <= i < |a| && !Exists(a[i]) ==> !Exists(b[i])
  }

  lemma StoreBringsNobody(
    cfg: Config, st: State, c: int, name: Name, payload: Bytes, f: nat, append: bool, turns: seq<int>)
    requires SlotsOk(cfg, st) && c > 0 && c != OWNER_ADMIN && Find(st.slots, name) == Some(f)
    requires DoStore(cfg, st, c, name, payload, f, append, turns).Returned?
    ensures var out := DoStore(cfg, st, c, name, payload, f, append, turns);
            NobodyNew(st.slots, out.st.slots) && !Shipped(out.reply.shipped, name)
  {
    if |payload| <= cfg.maxStorage {
      var loop := EvictLoop(cfg, st, name, |payload|, turns, 0, []);
      EvictLoopCorrect(cfg, st, name, |payload|, turns);
      SurvivorsFiles(st.slots, loop.st.slots, name, loop.shipped, name);
      forall i | 0 <= i < |st.slots| && !Exists(st.slots[i]) ensures !Exists(loop.st.slots[i]) {
        assert Kept(st.slots[i], loop.st.slots[i]) || Left(st.slots[i], loop.st.slots[i], name, loop.shipped);
      }
    }
  }

  predicate OwnStays(req: Request, reply: Reply) {
    req.WriteFile? || req.AppendFile? ==> !Shipped(reply.shipped, req.name)
  }

  /** Only a successful creation brings a file, and no request ships the file it names. */
  lemma BringsNobody(cfg: Config, st: State, c: int, req: Request, clock: Clock)
    requires SlotsOk(cfg, st) && ClientId(c) && Handle(cfg, st, c, req, clock).Returned?
    requires !Creates(req, Handle(cfg, st, c, req, clock).reply)
    ensures NobodyNew(st.slots, Handle(cfg, st, c, req, clock).st.slots)
    ensures OwnStays(req, Handle(cfg, st, c, req, clock).reply)
  {
    if FindClient(st.clients, c).Some? {
      var k := FindClient(st.clients, c).value;
      var st1 := SetLastop(st, k, []);
      assert SlotsOk(cfg, st1);
      if AboutOne(req) {
        HandleOneExactly(cfg, st, c, req, clock, k);
      } else {
        match req {
          case OpenFile(name, _, lock) => CreateSound(cfg, st1, k, c, name, lock, clock.now);
          case ReadN(n) => ReadNSound(cfg, st1, c, n);
          case WriteFile(name, payload) =>
            if st.clients[k].lastop == name && Find(st.slots, name).Some? {
              StoreBringsNobody(cfg, st1, c, name, payload, Find(st.slots, name).value, false, clock.turns);
            }
          case AppendFile(name, payload) =>
            if Find(st.slots, name).Some? {
              StoreBringsNobody(cfg, st1, c, name, payload, Find(st.slots, name).value, true, clock.turns);
            }
          case CloseConnection => DisconnectSound(cfg, st, c);
          case Unknown =>
        }
      }
    }
  }

  /** The slots remember what the replies say. */
  ghost predicate AgesKnown(slots: seq<Slot>, log: seq<Entry>) {
    forall i :: 0 <= i < |slots| && Exists(slots[i]) ==> Born(log, slots[i].name) == Some(slots[i].created)
  }

  /** A file that is still there was neither shipped nor removed by the request. */
  lemma StillThere(cfg: Config, st: State, c: int, req: Request, out: Outcome, i: nat)
    requires SlotsOk(cfg, st) && Sound(cfg, c, st, req, out) && out.Returned? && NobodyNew(st.slots, out.st.slots)
    requires OwnStays(req, out.reply) && !Creates(req, out.reply) && i < |out.st.slots| && Exists(out.st.slots[i])
    ensures Exists(st.slots[i]) && SameBirth(st.slots[i], out.st.slots[i])
    ensures !Shipped(out.reply.shipped, st.slots[i].name)
    ensures out.reply.status == Success && req.RemoveFile? ==> req.name != st.slots[i].name
  {
    var n := out.st.slots[i].name;
    assert Allowed(c, st.slots[i], out.st.slots[i], out.reply.shipped);
    FindUnique(out.st.slots, i);
    assert FileAt(out.st.slots, n).Some?;
    assert FileAt(out.st.slots, n) == After(FileAt(st.slots, n), n, req, out.reply);
  }

  lemma OldFilesKeepTheirAge(
    cfg: Config, st: State, c: int, req: Request, clock: Clock, log: seq<Entry>, more: seq<Entry>)
    requires SlotsOk(cfg, st) && ClientId(c) && Handle(cfg, st, c, req, clock).Returned? && AgesKnown(st.slots, log)
    requires more == log + [Entry(Ask(c, req, clock), Handle(cfg, st, c, req, clock).reply)]
    requires !Creates(req, Handle(cfg, st, c, req, clock).reply)
    ensures AgesKnown(Handle(cfg, st, c, req, clock).st.slots, more)
  {
    var out := Handle(cfg, st, c, req, clock);
    HandleSound(cfg, st, c, req, clock);
    BringsNobody(cfg, st, c, req, clock);
    assert more[..|more| - 1] == log;
    forall i | 0 <= i < |out.st.slots| && Exists(out.st.slots[i])
      ensures Born(more, out.st.slots[i].name) == Some(out.st.slots[i].created)
    {
      StillThere(cfg, st, c, req, out, i);
    }
  }

  lemma NewFileIsNew(
    cfg: Config, st: State, c: int, req: Request, clock: Clock, log: seq<Entry>, more: seq<Entry>)
    requires SlotsOk(cfg, st) && ClientId(c) && Handle(cfg, st, c, req, clock).Returned? && AgesKnown(st.slots, log)
    requires more == log + [Entry(Ask(c, req, clock), Handle(cfg, st, c, req, clock).reply)]
    requires Creates(req, Handle(cfg, st, c, req, clock).reply)
    ensures AgesKnown(Handle(cfg, st, c, req, clock).st.slots, more)
  {
    var k, f := FindClient(st.clients, c).value, FreeFrom(st.slots, 0).value;
    var out := Handle(cfg, st, c, req, clock);
    assert SlotsOk(cfg, SetLastop(st, k, []));
    CreateSound(cfg, SetLastop(st, k, []), k, c, req.name, req.lock, clock.now);
    assert more[..|more| - 1] == log && out.reply.shipped == [];
    forall i | 0 <= i < |out.st.slots| && Exists(out.st.slots[i])
      ensures Born(more, out.st.slots[i].name) == Some(out.st.slots[i].created)
    {
      if i != f {
        assert out.st.slots[i] == st.slots[i] && !Holds(st.slots[i], req.name);
      }
    }
  }

  /** At the end of every run every slot remembers the time of the acknowledged
      creation its file goes back to. */
  lemma {:induction false} RunKnowsAges(cfg: Config, files: nat, tr: Trace, st: State, log: seq<Entry>)
    requires files > 0 && Run(cfg, files, tr, st, log)
    ensures AgesKnown(st.slots, log)
  {
    match tr
    case Start =>
    case Then(before, e) =>
      var prior: State, past: seq<Entry> :|
        Run(cfg, files, before, prior, past) && StepTo(cfg, prior, e, st, past, log);
      RunKnowsAges(cfg, files, before, prior, past);
      RunInvariant(cfg, files, before, prior, past);
      StepKnowsAges(cfg, prior, e, st, past, log);
  }

  lemma StepKnowsAges(cfg: Config, prior: State, e: Event, st: State, past: seq<Entry>, log: seq<Entry>)
    requires Inv(cfg, prior) && StepTo(cfg, prior, e, st, past, log) && AgesKnown(prior.slots, past)
    ensures AgesKnown(st.slots, log)
  {
    if e.Arrive? {
      ConnectKeepsInv(cfg, prior, e.fd);
      assert log[..|log| - 1] == past;
    } else if Creates(e.req, log[|past|].reply) {
      NewFileIsNew(cfg, prior, e.c, e.req, e.clock, past, log);
    } else {
      OldFilesKeepTheirAge(cfg, prior, e.c, e.req, e.clock, past, log);
    }
  }

  /** The file is in the table, and an eviction for `prot` may take it. */
  ghost predicate Evictable(slots: seq<Slot>, prot: Name, n: Name) {
    exists i :: 0 <= i < |slots| && Eligible(slots[i], prot) && slots[i].name == n
  }

  /** First in, first out, told from the replies of the run alone: what a cache miss
      under FIFO ships is an evictable file, acknowledged as created before now, and no
      evictable file was acknowledged as created before it. */
  lemma FifoShipsFirstCreated(
    cfg: Config, files: nat, tr: Trace, st: State, log: seq<Entry>, prot: Name, now: int, n: Name)
    requires files > 0 && Run(cfg, files, tr, st, log) && cfg.algo == FIFO
    requires st.lruPos < |st.slots| && CacheMiss(cfg, st, prot, now).1.Some?
    ensures var f := CacheMiss(cfg, st, prot, now).1.value;
            && Evictable(st.slots, prot, f.name) && Born(log, f.name).Some? && Born(log, f.name).value < now
            && (Evictable(st.slots, prot, n) ==>
                  Born(log, n).Some? && Born(log, f.name).value <= Born(log, n).value)
  {
    RunInvariant(cfg, files, tr, st, log);
    RunKnowsAges(cfg, files, tr, st, log);
    FifoEvictsOldest(cfg, st, prot, now);
  }
}
