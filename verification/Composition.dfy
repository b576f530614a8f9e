/** Where the parts meet: the client's plan on the server, and the files a reply
    carries on their way back to the client. */
module Composition {
  import opened Basics
  import opened Slots
  import opened Table
  import opened ServerState
  import opened Eviction
  import opened EvictionProofs
  import opened Requests
  import opened Refinement
  import opened Outcomes
  import opened Runs
  import opened Guarantees
  import Planner
  import PlannerProofs
  import Framing

  // ------------------------------------------------- the plan on the server

  /** What the client sends for request r of its plan; `payload` is the local file. */
  function Sent(r: Planner.Req, payload: Bytes): Request
    requires r.name.Some?
  {
    var f := r.name.value;
    match r.kind
    case READ => ReadFile(f)
    case READN => ReadN(r.n)
    case WRITE => WriteFile(f, payload)
    case APPEND => AppendFile(f, payload)
    case LOCK => LockFile(f)
    case UNLOCK => UnlockFile(f)
    case REMOVE => RemoveFile(f)
    case OPEN => OpenFile(f, false, false)
    case OPEN_LOCK => OpenFile(f, false, true)
    case CREATE_LOCK => OpenFile(f, true, true)
    case CLOSE => CloseFile(f)
  }

  /** Client c's write of p is accepted with exactly this content, and does return
      given enough turns of a late enough clock. */
  ghost predicate WriteGoesThrough(cfg: Config, st: State, c: int, p: Name, payload: Bytes, clock: Clock)
    requires st.lruPos < |st.slots|
  {
    var out := Handle(cfg, st, c, WriteFile(p, payload), clock);
    var enough := Unsaturated(cfg.algo, st.slots) && |clock.turns| >= 2 * |st.slots| &&
                  LateFrom(cfg.algo, st.slots, clock.turns, 0);
    && (enough ==> out.Returned?)
    && (out.Returned? ==> !out.failed && out.reply.status == Success && FileAt(out.st.slots, p) == Some(payload))
  }

  lemma AcknowledgedThenWritten(
    cfg: Config, files: nat, c: int, p: Name, payload: Bytes,
    tr0: Trace, st0: State, log0: seq<Entry>, tr: Trace, st: State, log: seq<Entry>, clock: Clock)
    requires files > 0 && c > 0 && c != OWNER_ADMIN && p != [] && 0 < |payload| <= cfg.maxStorage
    requires Run(cfg, files, tr0, st0, log0) && Run(cfg, files, tr, st, log) && ContinuedWithout(tr0, tr, c)
    requires JustAcknowledged(tr0, log0, c, OpenFile(p, true, true))
    ensures st.lruPos < |st.slots| && WriteGoesThrough(cfg, st, c, p, payload, clock)
  {
    AcknowledgedCreate(cfg, files, tr0, st0, log0, c, p);
    CreatedThenWritten(cfg, files, tr0, st0, log0, tr, st, log, c, p);
    TokenWriteSucceeds(cfg, st, c, p, payload, clock);
  }

  /** Request k of the plan is a WRITE of p; something comes before it. */
  ghost predicate PlannedWrite(reqs: seq<Planner.Req>, k: nat, p: Name) {
    && Planner.Commands(reqs) && 0 < k < |Planner.Plan(reqs)|
    && Planner.Plan(reqs)[k].kind == Planner.WRITE && Planner.Plan(reqs)[k].name == Some(p)
    && Planner.Plan(reqs)[k - 1].name.Some?
  }

  /** What the plan sends around a WRITE: directly before it, a create-and-lock. */
  lemma PlannedWriteIsSent(reqs: seq<Planner.Req>, k: nat, p: Name, payload: Bytes)
    requires Planner.Commands(reqs) && k < |Planner.Plan(reqs)|
    requires Planner.Plan(reqs)[k].kind == Planner.WRITE && Planner.Plan(reqs)[k].name == Some(p)
    ensures PlannedWrite(reqs, k, p)
    ensures Sent(Planner.Plan(reqs)[k], payload) == WriteFile(p, payload)
    ensures Sent(Planner.Plan(reqs)[k - 1], payload) == OpenFile(p, true, true)
  {
    PlannerProofs.PlanLifecycle(reqs, k);
  }

  /** If the server acknowledged what the plan sends before a WRITE of p, then
      whatever other clients have asked since, the WRITE goes through, provided its
      payload is not empty and could fit at all. */
  lemma PlannedWriteSucceeds(
    reqs: seq<Planner.Req>, k: nat, cfg: Config, files: nat, c: int, p: Name, payload: Bytes,
    tr0: Trace, st0: State, log0: seq<Entry>, tr: Trace, st: State, log: seq<Entry>, clock: Clock)
    requires PlannedWrite(reqs, k, p)
    requires files > 0 && c > 0 && c != OWNER_ADMIN && p != [] && 0 < |payload| <= cfg.maxStorage
    requires Run(cfg, files, tr0, st0, log0) && Run(cfg, files, tr, st, log) && ContinuedWithout(tr0, tr, c)
    requires JustAcknowledged(tr0, log0, c, Sent(Planner.Plan(reqs)[k - 1], payload))
    ensures Sent(Planner.Plan(reqs)[k], payload) == WriteFile(p, payload)
    ensures st.lruPos < |st.slots| && WriteGoesThrough(cfg, st, c, p, payload, clock)
  {
    PlannedWriteIsSent(reqs, k, p, payload);
    AcknowledgedThenWritten(cfg, files, c, p, payload, tr0, st0, log0, tr, st, log, clock);
  }

  /** Request k of the plan is a REMOVE of p; something comes before it. */
  ghost predicate PlannedRemove(reqs: seq<Planner.Req>, k: nat, p: Name) {
    && Planner.Commands(reqs) && 0 < k < |Planner.Plan(reqs)|
    && Planner.Plan(reqs)[k].kind == Planner.REMOVE && Planner.Plan(reqs)[k].name == Some(p)
    && Planner.Plan(reqs)[k - 1].name.Some?
  }

  lemma PlannedRemoveIsSent(reqs: seq<Planner.Req>, k: nat, p: Name)
    requires PlannedRemove(reqs, k, p)
    ensures Sent(Planner.Plan(reqs)[k - 1], []) == OpenFile(p, false, true)
    ensures Sent(Planner.Plan(reqs)[k], []) == RemoveFile(p)
  {
    PlannerProofs.PlanLifecycle(reqs, k);
  }

  lemma AcknowledgedThenRemoved(
    cfg: Config, files: nat, c: int, p: Name,
    tr0: Trace, st0: State, log0: seq<Entry>, tr: Trace, st: State, log: seq<Entry>, clock: Clock)
    requires files > 0 && c > 0 && c != OWNER_ADMIN
    requires Run(cfg, files, tr0, st0, log0) && Run(cfg, files, tr, st, log) && ContinuedWithout(tr0, tr, c)
    requires JustAcknowledged(tr0, log0, c, OpenFile(p, false, true))
    ensures FileAt(st0.slots, p).Some? && st.lruPos < |st.slots|
    ensures EvictedSince(log0, log, p, FileAt(st0.slots, p).value) || RemoveGoesThrough(cfg, st, c, p, clock)
  {
    AcknowledgedLockHolds(cfg, files, c, p, OpenFile(p, false, true), tr0, st0, log0, tr, st, log);
    RunInvariant(cfg, files, tr, st, log);
    if !EvictedSince(log0, log, p, FileAt(st0.slots, p).value) {
      OwnerRemoves(cfg, st, c, p, FileAt(st0.slots, p).value, clock);
    }
  }

  /** If the server acknowledged what the plan sends before a REMOVE of p, which is an
      open with the lock, then whatever other clients have asked since, the REMOVE goes
      through and the file is gone, unless an eviction took it first and shipped it. */
  lemma PlannedRemoveSucceeds(
    reqs: seq<Planner.Req>, k: nat, cfg: Config, files: nat, c: int, p: Name,
    tr0: Trace, st0: State, log0: seq<Entry>, tr: Trace, st: State, log: seq<Entry>, clock: Clock)
    requires PlannedRemove(reqs, k, p) && files > 0 && c > 0 && c != OWNER_ADMIN
    requires Run(cfg, files, tr0, st0, log0) && Run(cfg, files, tr, st, log) && ContinuedWithout(tr0, tr, c)
    requires JustAcknowledged(tr0, log0, c, Sent(Planner.Plan(reqs)[k - 1], []))
    ensures Sent(Planner.Plan(reqs)[k], []) == RemoveFile(p)
    ensures FileAt(st0.slots, p).Some? && st.lruPos < |st.slots|
    ensures EvictedSince(log0, log, p, FileAt(st0.slots, p).value) || RemoveGoesThrough(cfg, st, c, p, clock)
  {
    PlannedRemoveIsSent(reqs, k, p);
    AcknowledgedThenRemoved(cfg, files, c, p, tr0, st0, log0, tr, st, log, clock);
  }

  ghost predicate RemoveGoesThrough(cfg: Config, st: State, c: int, p: Name, clock: Clock)
    requires st.lruPos < |st.slots|
  {
    var out := Handle(cfg, st, c, RemoveFile(p), clock);
    out.Returned? && !out.failed && out.reply == Answer(Success) && FileAt(out.st.slots, p) == None
  }

  lemma OwnerRemoves(cfg: Config, st: State, c: int, p: Name, bytes: Bytes, clock: Clock)
    requires Inv(cfg, st) && c > 0 && c != OWNER_ADMIN && OwnedBy(st.slots, p, c, bytes)
    ensures RemoveGoesThrough(cfg, st, c, p, clock)
  {
    var i: nat :| i < |st.slots| && Holds(st.slots[i], p) && st.slots[i].owner == c && Contents(st.slots[i]) == bytes;
    FindUnique(st.slots, i);
    var k := FindClient(st.clients, c).value;
    HandleOneExactly(cfg, st, c, RemoveFile(p), clock, k);
    RemovalUpdate(st.slots, i);
  }

  lemma AcknowledgedCreate(cfg: Config, files: nat, tr: Trace, st: State, log: seq<Entry>, c: int, p: Name)
    requires files > 0 && c > 0 && Run(cfg, files, tr, st, log)
    requires tr.Then? && tr.event.Ask? && tr.event.c == c && tr.event.req == OpenFile(p, true, true)
    requires |log| > 0 && log[|log| - 1].reply.status == Success
    ensures HasToken(st, c, p)
  {
    var prior: State, past: seq<Entry> :|
      Run(cfg, files, tr.before, prior, past) && StepTo(cfg, prior, tr.event, st, past, log);
    RunInvariant(cfg, files, tr.before, prior, past);
    CreateLockGivesToken(cfg, prior, c, p, tr.event.clock);
  }

  // -------------------------------------- what an acknowledgement of a step means

  /** File f, open, of this owner and with these contents. */
  predicate UpWith(s: Slot, owner: int, bytes: Bytes) {
    s.working == Some(bytes) && s.owner == owner
  }

  /** What the client may conclude about file f when request r of its plan has been
      acknowledged: `before` and `after` are the file then and now. */
  ghost predicate Means(
    r: Planner.Req, payload: Bytes, c: int, before: Option<Slot>, after: Option<Slot>, reply: Reply)
  {
    if r.kind == Planner.CREATE_LOCK then before.None? && after.Some? && UpWith(after.value, c, [])
    else if r.kind == Planner.REMOVE then before.Some? && before.value.owner == c && after.None?
    else before.Some? && after.Some? && StillMeans(r.kind, payload, c, before.value, after.value, reply)
  }

  /** ... for the requests that neither bring nor take the file. */
  predicate StillMeans(kind: Planner.Kind, payload: Bytes, c: int, s: Slot, t: Slot, reply: Reply) {
    var held := Contents(s);
    && (kind in {Planner.READ, Planner.APPEND, Planner.LOCK, Planner.UNLOCK, Planner.WRITE} ==> s.working.Some?)
    && (kind == Planner.OPEN ==> UpWith(t, OWNER_NULL, held))
    && (kind == Planner.OPEN_LOCK ==> UpWith(t, c, held))
    && (kind == Planner.CLOSE ==> t.working.None? && t.owner == OWNER_NULL && t.data == held)
    && (kind == Planner.LOCK ==> UpWith(t, c, held))
    && (kind == Planner.UNLOCK ==> s.owner == c && UpWith(t, OWNER_NULL, held))
    && (kind == Planner.READ ==> UpWith(t, s.owner, held) && reply.bytes == held)
    && (kind == Planner.APPEND ==> UpWith(t, s.owner, held + payload))
    && (kind == Planner.WRITE ==> held == [] && UpWith(t, s.owner, payload))
  }

  function FileIn(slots: seq<Slot>, f: Name): Option<Slot> {
    match Find(slots, f)
    case None => None
    case Some(i) => Some(slots[i])
  }

  /** A request that leaves the table but for slot i, which keeps its name. */
  lemma FileInKept(a: seq<Slot>, b: seq<Slot>, f: Name)
    requires |a| == |b| && WellFormed(b) && Find(a, f).Some? && Holds(b[Find(a, f).value], f)
    ensures FileIn(b, f) == Some(b[Find(a, f).value])
  {
    FindUnique(b, Find(a, f).value);
  }

  /** The slots of it. */
  lemma ServedMeans(r: Planner.Req, payload: Bytes, c: int, s: Slot)
    requires r.name.Some? && AboutOne(Sent(r, payload)) && r.kind != Planner.REMOVE && c > OWNER_NULL
    requires Coherent(s) && Settled(s) && Exists(s) && Verdict(Sent(r, payload), c, s) == Success
    ensures StillMeans(r.kind, payload, c, s, Served(Sent(r, payload), c, s), AnswerOf(Sent(r, payload), c, s))
  {
  }

  lemma TableStaysWellFormed(cfg: Config, st: State, c: int, req: Request, clock: Clock)
    requires Inv(cfg, st) && c > 0 && c != OWNER_ADMIN && Handle(cfg, st, c, req, clock).Returned?
    ensures WellFormed(Handle(cfg, st, c, req, clock).st.slots)
  {
    HandleSound(cfg, st, c, req, clock);
  }

  /** One slot was served, in a table that is otherwise as before. */
  lemma SlotMeans(
    a: seq<Slot>, b: seq<Slot>, r: Planner.Req, payload: Bytes, c: int, i: nat, reply: Reply)
    requires r.name.Some? && AboutOne(Sent(r, payload)) && c > OWNER_NULL
    requires WellFormed(a) && WellFormed(b) && Find(a, r.name.value) == Some(i) && Settled(a[i])
    requires Verdict(Sent(r, payload), c, a[i]) == Success && reply == AnswerOf(Sent(r, payload), c, a[i])
    requires b == a[i := Served(Sent(r, payload), c, a[i])]
    ensures Means(r, payload, c, FileIn(a, r.name.value), FileIn(b, r.name.value), reply)
  {
    if r.kind == Planner.REMOVE {
      RemovalUpdate(a, i);
    } else {
      ServedMeans(r, payload, c, a[i]);
      FileInKept(a, b, r.name.value);
    }
  }

  lemma AboutOneMeans(cfg: Config, st: State, c: int, r: Planner.Req, payload: Bytes, clock: Clock)
    requires Inv(cfg, st) && c > 0 && c != OWNER_ADMIN && r.name.Some? && AboutOne(Sent(r, payload))
    requires Handle(cfg, st, c, Sent(r, payload), clock).Returned?
    requires Handle(cfg, st, c, Sent(r, payload), clock).reply.status == Success
    ensures var out := Handle(cfg, st, c, Sent(r, payload), clock);
            Means(r, payload, c, FileIn(st.slots, r.name.value), FileIn(out.st.slots, r.name.value), out.reply)
  {
    var out := Handle(cfg, st, c, Sent(r, payload), clock);
    AcknowledgedServes(cfg, st, c, Sent(r, payload), clock, out);
    TableStaysWellFormed(cfg, st, c, Sent(r, payload), clock);
    var i := Find(st.slots, r.name.value).value;
    assert Settled(st.slots[i]);
    SlotMeans(st.slots, out.st.slots, r, payload, c, i, out.reply);
  }

  lemma CreateMeans(cfg: Config, st: State, c: int, r: Planner.Req, payload: Bytes, clock: Clock)
    requires Inv(cfg, st) && c > 0 && c != OWNER_ADMIN && r.name.Some? && r.kind == Planner.CREATE_LOCK
    requires Handle(cfg, st, c, Sent(r, payload), clock).Returned?
    requires Handle(cfg, st, c, Sent(r, payload), clock).reply.status == Success
    ensures var out := Handle(cfg, st, c, Sent(r, payload), clock);
            Means(r, payload, c, FileIn(st.slots, r.name.value), FileIn(out.st.slots, r.name.value), out.reply)
  {
    var f, k := r.name.value, FindClient(st.clients, c).value;
    var out, i := Handle(cfg, st, c, Sent(r, payload), clock), FreeFrom(st.slots, 0).value;
    assert SlotsOk(cfg, SetLastop(st, k, []));
    CreateSound(cfg, SetLastop(st, k, []), k, c, f, true, clock.now);
    HandleSound(cfg, st, c, Sent(r, payload), clock);
    FindUnique(out.st.slots, i);
  }

  lemma ExtendedMeans(kind: Planner.Kind, payload: Bytes, c: int, s: Slot, reply: Reply)
    requires kind == Planner.WRITE || kind == Planner.APPEND
    requires StoreVerdict(s, c, payload, kind == Planner.APPEND) == Success
    ensures StillMeans(kind, payload, c, s, Extended(s, payload), reply)
  {
    assert [] + payload == payload;
  }

  lemma StoreMeans(cfg: Config, st: State, c: int, r: Planner.Req, payload: Bytes, clock: Clock)
    requires Inv(cfg, st) && c > 0 && c != OWNER_ADMIN && r.name.Some?
    requires r.kind == Planner.WRITE || r.kind == Planner.APPEND
    requires Handle(cfg, st, c, Sent(r, payload), clock).Returned?
    requires Handle(cfg, st, c, Sent(r, payload), clock).reply.status == Success
    ensures var out := Handle(cfg, st, c, Sent(r, payload), clock);
            Means(r, payload, c, FileIn(st.slots, r.name.value), FileIn(out.st.slots, r.name.value), out.reply)
  {
    var f, k := r.name.value, FindClient(st.clients, c).value;
    var out, append := Handle(cfg, st, c, Sent(r, payload), clock), r.kind == Planner.APPEND;
    var st1 := SetLastop(st, k, []);
    assert SlotsOk(cfg, st1);
    if append {
      AppendSound(cfg, st1, c, f, payload, clock.turns);
    } else {
      WriteSound(cfg, st, k, c, f, payload, clock.turns);
    }
    var i := Find(st.slots, f).value;
    assert StoresExactly(cfg, st1, c, i, payload, append, out);
    ExtendedMeans(r.kind, payload, c, st.slots[i], out.reply);
    FileInKept(st.slots, out.st.slots, f);
  }

  /** Every acknowledgement of a request of a plan means what the user had in mind with
      it, on every state the server can be in. */
  lemma AcknowledgedMeans(cfg: Config, st: State, c: int, r: Planner.Req, payload: Bytes, clock: Clock)
    requires Inv(cfg, st) && c > 0 && c != OWNER_ADMIN && r.name.Some? && r.kind != Planner.READN
    requires Handle(cfg, st, c, Sent(r, payload), clock).Returned?
    requires Handle(cfg, st, c, Sent(r, payload), clock).reply.status == Success
    ensures var out := Handle(cfg, st, c, Sent(r, payload), clock);
            Means(r, payload, c, FileIn(st.slots, r.name.value), FileIn(out.st.slots, r.name.value), out.reply)
  {
    if r.kind == Planner.CREATE_LOCK {
      CreateMeans(cfg, st, c, r, payload, clock);
    } else if r.kind == Planner.WRITE || r.kind == Planner.APPEND {
      StoreMeans(cfg, st, c, r, payload, clock);
    } else {
      AboutOneMeans(cfg, st, c, r, payload, clock);
    }
  }

  // ------------------------------------------------------- evicted files, home

  /** What the file names and sizes of a real server look like on the wire. */
  ghost predicate Sendable(cfg: Config, st: State) {
    && cfg.maxStorage < Framing.SIZE_BOUND && |st.slots| < Framing.SIZE_BOUND
    && forall i :: 0 <= i < |st.slots| && Exists(st.slots[i]) ==> Framing.Proper(st.slots[i].name)
  }

  /** The files a write or append evicts come out of the client's pops whole, the
      one evicted last first, whatever became of the request itself. */
  lemma EvictedFilesArrive(
    cfg: Config, st: State, c: int, name: Name, payload: Bytes, f: nat, append: bool, turns: seq<int>)
    requires SlotsOk(cfg, st) && f < |st.slots| && Sendable(cfg, st)
    requires DoStore(cfg, st, c, name, payload, f, append, turns).Returned?
    ensures var shipped := DoStore(cfg, st, c, name, payload, f, append, turns).reply.shipped;
            var r := Framing.Decode(Framing.Encode(shipped));
            r.Some? && r.value.0 == [] && Framing.Backwards(shipped, [], r.value.1)
  {
    if |payload| <= cfg.maxStorage {
      var out := EvictLoop(cfg, st, name, |payload|, turns, 0, []);
      EvictLoopCorrect(cfg, st, name, |payload|, turns);
      CountBounds(st.slots);
      CountBounds(out.st.slots);
      forall s | s in out.shipped ensures Framing.Sendable(s) && s.bytes != [] {
        EvictedIsSendable(cfg, st, out.st, name, out.shipped, s);
      }
      Framing.PayloadRoundTrip(out.shipped);
    } else {
      Framing.PayloadRoundTrip([]);
    }
  }

  lemma EvictedIsSendable(cfg: Config, st: State, t: State, prot: Name, shipped: seq<Frame>, s: Frame)
    requires SlotsOk(cfg, st) && Sendable(cfg, st) && Survivors(st.slots, t.slots, prot, shipped) && s in shipped
    ensures Framing.Sendable(s) && s.bytes != []
  {
    var i :| 0 <= i < |st.slots| && Exists(st.slots[i]) && t.slots[i] == FREE && FrameOf(st.slots[i]) == s;
    assert Left(st.slots[i], t.slots[i], prot, shipped) && Coherent(st.slots[i]);
    SumNonNegative(st.slots, Size);
    assert Size(st.slots[i]) <= Total(st.slots);
  }

  lemma {:induction false} CountBounds(slots: seq<Slot>)
    ensures 0 <= Count(slots) <= |slots|
  {
    if |slots| > 0 {
      CountBounds(slots[..|slots| - 1]);
    }
  }

  // ------------------------------------------------------ readN, as it arrives

  /** The client can decode a readN reply if and only if it carries no file or the
      last of the files read is not empty; and then it gets them all, last one first. */
  lemma ReadNDecodesExactly(cfg: Config, st: State, c: int, n: int)
    requires SlotsOk(cfg, st) && Sendable(cfg, st) && c > 0 && c != OWNER_ADMIN
    ensures var sent := FirstReadable(st.slots, c, n);
            var r := Framing.Decode(Framing.Encode(sent));
            && DoReadN(st, c, n).reply.files == sent
            && (r.Some? <==> sent == [] || sent[|sent| - 1].bytes != [])
            && (r.Some? ==> r.value.0 == [] && Framing.Backwards(sent, [], r.value.1))
  {
    ReadNSound(cfg, st, c, n);
    var sent := FirstReadable(st.slots, c, n);
    ReadableCount(st.slots, c);
    forall f | f in sent ensures Framing.Sendable(f) {
      var i :| 0 <= i < |st.slots| && Exists(st.slots[i]) && Mine(c, st.slots[i]) && FrameOf(st.slots[i]) == f;
      assert Coherent(st.slots[i]);
      SumNonNegative(st.slots, Size);
      assert Size(st.slots[i]) <= Total(st.slots);
    }
    Framing.PayloadRoundTrip(sent);
  }

  lemma {:induction false} ReadableCount(slots: seq<Slot>, c: int)
    ensures |ReadableIn(slots, c)| <= |slots|
  {
    if |slots| > 0 {
      ReadableCount(slots[..|slots| - 1], c);
    }
  }
}
