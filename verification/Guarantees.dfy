/** What a client may rely on, whatever the others do: its locks exclude them, its
    write token keeps its word, and a disconnect gives everything back. */
module Guarantees {
  import opened Basics
  import opened Slots
  import opened Table
  import opened ServerState
  import opened Eviction
  import opened EvictionProofs
  import opened Requests
  import opened Refinement
  import opened Runs

  // ------------------------------------------------------------------ locking

  /** The file p exists, belongs to d and holds these bytes. */
  ghost predicate OwnedBy(slots: seq<Slot>, p: Name, d: int, bytes: Bytes) {
    exists i :: 0 <= i < |slots| && Holds(slots[i], p) && slots[i].owner == d && Contents(slots[i]) == bytes
  }

  predicate By(e: Event, c: int) {
    e.Ask? && e.c == c
  }

  /** While d owns a file, another client's request leaves its owner and its bytes
      alone, unless eviction takes the whole file, and then it goes out whole. */
  lemma LockExcludesStep(cfg: Config, st: State, e: Event, p: Name, d: int, bytes: Bytes)
    requires Inv(cfg, st) && EventOk(st, e) && Step(cfg, st, e).Returned?
    requires d > OWNER_NULL && !By(e, d) && OwnedBy(st.slots, p, d, bytes)
    ensures var out := Step(cfg, st, e);
            OwnedBy(out.st.slots, p, d, bytes) || Frame(p, bytes) in out.reply.shipped
  {
    if e.Arrive? {
      ConnectKeepsInv(cfg, st, e.fd);
    } else {
      HandleSound(cfg, st, e.c, e.req, e.clock);
      AllowedKeepsOwned(e.c, st.slots, Step(cfg, st, e).st.slots, Step(cfg, st, e).reply.shipped, p, d, bytes);
    }
  }

  lemma AllowedKeepsOwned(c: int, a: seq<Slot>, b: seq<Slot>, shipped: seq<Frame>, p: Name, d: int, bytes: Bytes)
    requires AllAllowed(c, a, b, shipped) && c != d && d > OWNER_NULL && OwnedBy(a, p, d, bytes)
    ensures OwnedBy(b, p, d, bytes) || Frame(p, bytes) in shipped
  {
    var i :| 0 <= i < |a| && Holds(a[i], p) && a[i].owner == d && Contents(a[i]) == bytes;
    assert Allowed(c, a[i], b[i], shipped);
    if Kept(a[i], b[i]) {
      assert Holds(b[i], p);
    }
  }

  /** ... nor does any other client get to read those bytes by asking for them. */
  lemma LockExcludesReading(cfg: Config, st: State, c: int, p: Name, d: int, bytes: Bytes, n: int)
    requires Inv(cfg, st) && c > 0 && c != OWNER_ADMIN && c != d && d > OWNER_NULL
    requires OwnedBy(st.slots, p, d, bytes)
    ensures DoRead(st, c, p).reply == Answer(NotOwner)
    ensures forall f :: f in DoReadN(st, c, n).reply.files ==> f.name != p
  {
    var i :| 0 <= i < |st.slots| && Holds(st.slots[i], p) && st.slots[i].owner == d && Contents(st.slots[i]) == bytes;
    FindUnique(st.slots, i);
    ReadNSound(cfg, st, c, n);
    forall f | f in DoReadN(st, c, n).reply.files ensures f.name != p {
      OtherName(st.slots, c, i, f);
    }
  }

  lemma OtherName(slots: seq<Slot>, c: int, i: nat, f: Frame)
    requires Distinct(slots) && i < |slots| && Exists(slots[i]) && !Mine(c, slots[i]) && Readable(slots, c, f)
    ensures f.name != slots[i].name
  {
    var j :| 0 <= j < |slots| && Exists(slots[j]) && Mine(c, slots[j]) && FrameOf(slots[j]) == f;
    assert i < j || j < i;
  }

  /** tr continues tr0 with events that client d has no part in. */
  predicate ContinuedWithout(tr0: Trace, tr: Trace, d: int) {
    tr == tr0 || (tr.Then? && !By(tr.event, d) && ContinuedWithout(tr0, tr.before, d))
  }

  ghost predicate EvictedSince(log0: seq<Entry>, log: seq<Entry>, p: Name, bytes: Bytes) {
    exists i :: |log0| <= i < |log| && Frame(p, bytes) in log[i].reply.shipped
  }

  lemma {:induction false} RunDeterministic(
    cfg: Config, files: nat, tr: Trace, st: State, log: seq<Entry>, st': State, log': seq<Entry>)
    requires Run(cfg, files, tr, st, log) && Run(cfg, files, tr, st', log')
    ensures st == st' && log == log'
  {
    match tr
    case Start =>
    case Then(before, e) =>
      var a: State, x: seq<Entry> :| Run(cfg, files, before, a, x) && StepTo(cfg, a, e, st, x, log);
      var b: State, y: seq<Entry> :| Run(cfg, files, before, b, y) && StepTo(cfg, b, e, st', y, log');
      RunDeterministic(cfg, files, before, a, x, b, y);
  }

  /** Over any stretch of a run in which the owner does nothing, its file stays its
      own and unchanged until an eviction ships it whole. */
  lemma {:induction false} LockExcludes(
    cfg: Config, files: nat, tr0: Trace, st0: State, log0: seq<Entry>, tr: Trace, st: State, log: seq<Entry>,
    p: Name, d: int, bytes: Bytes)
    requires files > 0 && Run(cfg, files, tr0, st0, log0) && Run(cfg, files, tr, st, log)
    requires ContinuedWithout(tr0, tr, d) && d > OWNER_NULL && OwnedBy(st0.slots, p, d, bytes)
    ensures |log0| <= |log|
    ensures OwnedBy(st.slots, p, d, bytes) || EvictedSince(log0, log, p, bytes)
    decreases tr
  {
    if tr == tr0 {
      RunDeterministic(cfg, files, tr, st, log, st0, log0);
    } else {
      var e := tr.event;
      var prior: State, past: seq<Entry> :|
        Run(cfg, files, tr.before, prior, past) && StepTo(cfg, prior, e, st, past, log);
      LockExcludes(cfg, files, tr0, st0, log0, tr.before, prior, past, p, d, bytes);
      RunInvariant(cfg, files, tr.before, prior, past);
      if OwnedBy(prior.slots, p, d, bytes) {
        LockExcludesStep(cfg, prior, e, p, d, bytes);
        if !OwnedBy(st.slots, p, d, bytes) {
          assert Frame(p, bytes) in log[|past|].reply.shipped;
        }
      } else {
        var i :| |log0| <= i < |past| && Frame(p, bytes) in past[i].reply.shipped;
        assert log[i] == past[i];
      }
    }
  }

  /** The last thing in the run is client c's request `req`, and it was acknowledged. */
  predicate JustAcknowledged(tr: Trace, log: seq<Entry>, c: int, req: Request) {
    && tr.Then? && tr.event.Ask? && tr.event.c == c && tr.event.req == req
    && |log| > 0 && log[|log| - 1].reply.status == Success
  }

  /** A request for the lock of p. */
  predicate AsksLock(req: Request, p: Name) {
    req == LockFile(p) || (req.OpenFile? && req.name == p && req.lock)
  }

  /** An acknowledged request for the lock makes the client the owner. */
  lemma LockGives(cfg: Config, st: State, c: int, p: Name, req: Request, clock: Clock)
    requires Inv(cfg, st) && c > 0 && c != OWNER_ADMIN && AsksLock(req, p)
    requires var out := Handle(cfg, st, c, req, clock);
             out.Returned? && out.reply.status == Success
    ensures var slots := Handle(cfg, st, c, req, clock).st.slots;
            FileAt(slots, p).Some? && OwnedBy(slots, p, c, FileAt(slots, p).value)
  {
    var k, t := FindClient(st.clients, c).value, Handle(cfg, st, c, req, clock).st;
    var st1 := SetLastop(st, k, []);
    HandleSound(cfg, st, c, req, clock);
    var i: nat;
    if req.OpenFile? && req.create {
      CreateGivesToken(st1, k, p, c, clock.now);
      i :| 0 <= i < |t.slots| && FreshlyCreated(t.slots[i], p, c);
    } else {
      i := Find(st.slots, p).value;
      if req.LockFile? {
        LockSound(cfg, st1, c, p);
      } else {
        OpenSound(cfg, st1, c, p, true, req);
      }
    }
    FindUnique(t.slots, i);
  }

  /** After an acknowledged lock, or open with the lock, the file stays the client's
      and unchanged over any stretch of others' events, until an eviction ships it. */
  lemma AcknowledgedLockHolds(
    cfg: Config, files: nat, c: int, p: Name, req: Request,
    tr0: Trace, st0: State, log0: seq<Entry>, tr: Trace, st: State, log: seq<Entry>)
    requires files > 0 && c > 0 && c != OWNER_ADMIN && AsksLock(req, p)
    requires Run(cfg, files, tr0, st0, log0) && Run(cfg, files, tr, st, log) && ContinuedWithout(tr0, tr, c)
    requires JustAcknowledged(tr0, log0, c, req)
    ensures FileAt(st0.slots, p).Some?
    ensures var bytes := FileAt(st0.slots, p).value;
            OwnedBy(st.slots, p, c, bytes) || EvictedSince(log0, log, p, bytes)
  {
    var prior: State, past: seq<Entry> :|
      Run(cfg, files, tr0.before, prior, past) && StepTo(cfg, prior, tr0.event, st0, past, log0);
    RunInvariant(cfg, files, tr0.before, prior, past);
    LockGives(cfg, prior, c, p, req, tr0.event.clock);
    LockExcludes(cfg, files, tr0, st0, log0, tr, st, log, p, c, FileAt(st0.slots, p).value);
  }

  // -------------------------------------------------------------- write token

  /** Client c's last operation was a successful create-and-lock of p. */
  predicate HasToken(st: State, c: int, p: Name) {
    FindClient(st.clients, c).Some? && st.clients[FindClient(st.clients, c).value].lastop == p
  }

  /** Whoever holds a token for p owns p, open and empty. */
  lemma TokenMeansFresh(cfg: Config, st: State, c: int, p: Name) returns (i: nat)
    requires Inv(cfg, st) && c > 0 && p != [] && HasToken(st, c, p)
    ensures i < |st.slots| && FreshlyCreated(st.slots[i], p, c) && Find(st.slots, p) == Some(i)
  {
    var k := FindClient(st.clients, c).value;
    assert TokenSound(st.slots, st.clients[k]);
    i :| 0 <= i < |st.slots| && FreshlyCreated(st.slots[i], p, c);
    FindUnique(st.slots, i);
  }

  /** A client's table entry is its own to change. */
  lemma EntryStep(cfg: Config, st: State, e: Event, k: nat)
    requires Inv(cfg, st) && EventOk(st, e) && Step(cfg, st, e).Returned?
    requires k < |st.clients| && st.clients[k].fd > 0 && !By(e, st.clients[k].fd)
    ensures var t := Step(cfg, st, e).st;
            k < |t.clients| && t.clients[k] == st.clients[k]
  {
    if e.Ask? && FindClient(st.clients, e.c).Some? {
      if e.req.CloseConnection? {
        assert Step(cfg, st, e) == DoDisconnect(st, e.c);
        DisconnectClients(cfg, st, e.c);
      } else {
        ServedEntry(cfg, st, e.c, e.req, e.clock, k);
      }
    }
  }

  lemma ServedEntry(cfg: Config, st: State, c: int, req: Request, clock: Clock, k: nat)
    requires Tidy(st) && c > 0 && FindClient(st.clients, c).Some? && !req.CloseConnection?
    requires Handle(cfg, st, c, req, clock).Returned? && k < |st.clients| && st.clients[k].fd != c
    ensures var t := Handle(cfg, st, c, req, clock).st;
            k < |t.clients| && t.clients[k] == st.clients[k]
  {
    HandleClients(cfg, st, c, req, clock);
  }

  /** Others cannot take the token away. */
  lemma TokenStep(cfg: Config, st: State, e: Event, c: int, p: Name)
    requires Inv(cfg, st) && EventOk(st, e) && Step(cfg, st, e).Returned? && c > 0
    requires HasToken(st, c, p) && !By(e, c)
    ensures HasToken(Step(cfg, st, e).st, c, p)
  {
    var k, t := FindClient(st.clients, c).value, Step(cfg, st, e).st;
    EntryStep(cfg, st, e, k);
    StepKeepsInv(cfg, st, e);
    FindClientUnique(cfg, t, k);
  }

  /** No use counter has reached INT_MAX, where LFU stops considering a file. */
  predicate Unsaturated(algo: Algorithm, slots: seq<Slot>) {
    algo == LFU ==> forall i :: 0 <= i < |slots| ==> slots[i].freq < INT_MAX
  }

  /** A write that passes the token gate with a payload that can fit at all is
      never turned down: it returns given enough turns of a late enough clock, and
      whenever it returns the file holds exactly the payload. */
  lemma TokenWriteSucceeds(cfg: Config, st: State, c: int, p: Name, payload: Bytes, clock: Clock)
    requires Inv(cfg, st) && c > 0 && c != OWNER_ADMIN && p != [] && HasToken(st, c, p)
    requires 0 < |payload| <= cfg.maxStorage
    ensures var out := Handle(cfg, st, c, WriteFile(p, payload), clock);
            out.Returned? ==> !out.failed && out.reply.status == Success && FileAt(out.st.slots, p) == Some(payload)
    ensures Unsaturated(cfg.algo, st.slots) && |clock.turns| >= 2 * |st.slots| &&
            LateFrom(cfg.algo, st.slots, clock.turns, 0) ==>
              Handle(cfg, st, c, WriteFile(p, payload), clock).Returned?
  {
    var f := TokenMeansFresh(cfg, st, c, p);
    var k := FindClient(st.clients, c).value;
    var st1 := SetLastop(st, k, []);
    var loop := EvictLoop(cfg, st1, p, |payload|, clock.turns, 0, []);
    EvictLoopCorrect(cfg, st1, p, |payload|, clock.turns);
    HandleSound(cfg, st, c, WriteFile(p, payload), clock);
    if loop.Fits? {
      TargetSurvives(st1, loop.st, p, loop.shipped, f);
    }
    if Unsaturated(cfg.algo, st.slots) {
      FreshStuckNothing(cfg.algo, st1.slots, p, f, c);
      EvictionReturnsExactly(cfg, st1, p, |payload|);
    }
  }

  /** Whenever a write comes back it has succeeded if and only if the client held the
      token for the file and the payload is neither empty nor over the capacity. */
  lemma WriteSucceedsExactly(cfg: Config, st: State, c: int, p: Name, payload: Bytes, clock: Clock)
    requires Inv(cfg, st) && c > 0 && c != OWNER_ADMIN && p != [] && FindClient(st.clients, c).Some?
    requires Handle(cfg, st, c, WriteFile(p, payload), clock).Returned?
    ensures Handle(cfg, st, c, WriteFile(p, payload), clock).reply.status == Success <==>
            HasToken(st, c, p) && 0 < |payload| <= cfg.maxStorage
  {
    var k := FindClient(st.clients, c).value;
    WriteSound(cfg, st, k, c, p, payload, clock.turns);
    if HasToken(st, c, p) {
      var f := TokenMeansFresh(cfg, st, c, p);
    }
  }

  /** An empty file of one's own takes no room from the payload. */
  lemma FreshStuckNothing(algo: Algorithm, slots: seq<Slot>, p: Name, f: nat, c: int)
    requires WellFormed(slots) && f < |slots| && FreshlyCreated(slots[f], p, c) && Unsaturated(algo, slots)
    ensures StuckBytes(algo, slots, p) == 0
  {
    forall i | 0 <= i < |slots| ensures StuckSize(algo, p)(slots[i]) == 0 {
      assert Coherent(slots[i]) && Coherent(slots[f]);
    }
    SumZero(slots, StuckSize(algo, p));
  }

  /** From an acknowledged create-and-lock to the write, with the requests of any
      other clients in between, the write finds its token and succeeds. */
  lemma {:induction false} CreatedThenWritten(
    cfg: Config, files: nat, tr0: Trace, st0: State, log0: seq<Entry>, tr: Trace, st: State, log: seq<Entry>,
    c: int, p: Name)
    requires files > 0 && Run(cfg, files, tr0, st0, log0) && Run(cfg, files, tr, st, log)
    requires ContinuedWithout(tr0, tr, c) && c > 0 && HasToken(st0, c, p)
    ensures HasToken(st, c, p) && Inv(cfg, st)
    decreases tr
  {
    RunInvariant(cfg, files, tr, st, log);
    if tr == tr0 {
      RunDeterministic(cfg, files, tr, st, log, st0, log0);
    } else {
      var prior: State, past: seq<Entry> :|
        Run(cfg, files, tr.before, prior, past) && StepTo(cfg, prior, tr.event, st, past, log);
      CreatedThenWritten(cfg, files, tr0, st0, log0, tr.before, prior, past, c, p);
      TokenStep(cfg, prior, tr.event, c, p);
    }
  }

  /** An acknowledged create-and-lock hands out the token. */
  lemma CreateLockGivesToken(cfg: Config, st: State, c: int, p: Name, clock: Clock)
    requires Inv(cfg, st) && c > 0
    requires var out := Handle(cfg, st, c, OpenFile(p, true, true), clock);
             out.Returned? && out.reply.status == Success
    ensures HasToken(Handle(cfg, st, c, OpenFile(p, true, true), clock).st, c, p)
  {
    var k, t := FindClient(st.clients, c).value, Handle(cfg, st, c, OpenFile(p, true, true), clock).st;
    HandleClients(cfg, st, c, OpenFile(p, true, true), clock);
    assert t.clients[k].fd == c;
    assert FindClient(t.clients, c) == Some(k);
  }

  // --------------------------------------------------------------- disconnect

  /** After a disconnect no file belongs to the client and its entry is free,
      while every file is still there with the same bytes. */
  lemma DisconnectReleases(cfg: Config, st: State, c: int)
    requires Inv(cfg, st) && c > 0 && c != OWNER_ADMIN && FindClient(st.clients, c).Some?
    ensures var out := DoDisconnect(st, c);
            && !out.failed && FindClient(out.st.clients, c).None?
            && (forall i :: 0 <= i < |out.st.slots| ==> out.st.slots[i].owner != c)
            && (forall n :: FileAt(out.st.slots, n) == FileAt(st.slots, n))
  {
    DisconnectSound(cfg, st, c);
    DisconnectClients(cfg, st, c);
    forall n ensures FileAt(DoDisconnect(st, c).st.slots, n) == FileAt(st.slots, n) {
      assert !Shipped([], n);
    }
  }

  // --------------------------------------------- when an append comes back

  /** An append of a payload the server could hold comes back if and only if it
      fits beside the file it extends.  The loop runs before the permission check,
      so this is so even for a client that may not append. */
  lemma AppendReturnsExactly(cfg: Config, st: State, c: int, p: Name, payload: Bytes, f: nat)
    requires Inv(cfg, st) && c > 0 && Unsaturated(cfg.algo, st.slots)
    requires |payload| <= cfg.maxStorage && Find(st.slots, p) == Some(f)
    ensures (exists turns :: DoAppend(cfg, st, c, p, payload, turns).Returned?) <==>
            |Contents(st.slots[f])| + |payload| <= cfg.maxStorage
  {
    OwnBytesStuck(cfg.algo, st.slots, p, f);
    EvictionReturnsExactly(cfg, st, p, |payload|);
    var fits := StuckBytes(cfg.algo, st.slots, p) + |payload| <= cfg.maxStorage;
    if fits {
      var turns :| EvictLoop(cfg, st, p, |payload|, turns, 0, []).Fits?;
      assert DoAppend(cfg, st, c, p, payload, turns).Returned?;
    } else {
      forall turns ensures !DoAppend(cfg, st, c, p, payload, turns).Returned? {
        EvictLoopSpins(cfg, st, p, |payload|, turns, 0, []);
      }
    }
  }

  lemma OwnBytesStuck(algo: Algorithm, slots: seq<Slot>, p: Name, f: nat)
    requires WellFormed(slots) && Unsaturated(algo, slots) && Find(slots, p) == Some(f)
    ensures StuckBytes(algo, slots, p) == |Contents(slots[f])|
  {
    var w, without := StuckSize(algo, p), slots[f := FREE];
    SumUpdate(slots, f, FREE, w);
    assert forall i :: 0 <= i < |slots| && i != f ==> !Holds(slots[i], p);
    forall i | 0 <= i < |slots| ensures w(without[i]) == 0 {
      assert Coherent(slots[i]);
    }
    SumZero(without, w);
    assert Coherent(slots[f]);
  }
}
