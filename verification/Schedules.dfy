/** Building schedules of Interleaved.dfy out of pieces, each of one worker. */
module Schedules {
  import opened Basics
  import opened Slots
  import opened Table
  import opened Interleaved
  import opened InterleavedProofs

  /** The capacity, and the workers that get to move. */
  datatype Game = Game(capacity: nat, who: set<nat>)

  /** The first n workers. */
  function Below(n: nat): (r: set<nat>)
    ensures forall t: nat :: t in r <==> t < n
  {
    if n == 0 then {} else Below(n - 1) + {n - 1}
  }

  /** A property of worlds that every step of these workers keeps. */
  ghost predicate KeptByAll(g: Game, holds: World -> bool) {
    forall w, t, a :: t in g.who && holds(w) && Step(g.capacity, w, t, a).Some? ==>
      holds(Step(g.capacity, w, t, a).value)
  }

  /** Steps of these workers lead from w to v: whatever holds of w and is kept by all
      of them holds of v. */
  ghost predicate Leads(g: Game, w: World, v: World) {
    forall holds: World -> bool :: KeptByAll(g, holds) && holds(w) ==> holds(v)
  }

  lemma LeadsNowhere(g: Game, w: World)
    ensures Leads(g, w, w)
  {
  }

  lemma LeadsOn(g: Game, u: World, v: World, w: World)
    requires Leads(g, u, v) && Leads(g, v, w)
    ensures Leads(g, u, w)
  {
  }

  predicate MovedBy(who: set<nat>, moves: seq<Move>) {
    forall i :: 0 <= i < |moves| ==> moves[i].worker in who
  }

  ghost predicate Played(g: Game, w: World, v: World) {
    exists moves :: MovedBy(g.who, moves) && Play(g.capacity, w, moves) == Some(v)
  }

  /** ... which is to say that some schedule of theirs ends in v. */
  lemma LeadsPlays(g: Game, w: World, v: World) returns (moves: seq<Move>)
    requires Leads(g, w, v)
    ensures MovedBy(g.who, moves) && Play(g.capacity, w, moves) == Some(v)
  {
    var holds := (x: World) => Played(g, w, x);
    assert KeptByAll(g, holds) by {
      forall x, t, a | t in g.who && holds(x) && Step(g.capacity, x, t, a).Some?
        ensures holds(Step(g.capacity, x, t, a).value)
      {
        PlayedMore(g, w, x, t, a);
      }
    }
    assert holds(w) by {
      assert MovedBy(g.who, []) && Play(g.capacity, w, []) == Some(w);
    }
    assert Played(g, w, v);
    moves :| MovedBy(g.who, moves) && Play(g.capacity, w, moves) == Some(v);
  }

  lemma PlayedMore(g: Game, w: World, x: World, t: nat, a: Action)
    requires Played(g, w, x) && t in g.who && Step(g.capacity, x, t, a).Some?
    ensures Played(g, w, Step(g.capacity, x, t, a).value)
  {
    var moves :| MovedBy(g.who, moves) && Play(g.capacity, w, moves) == Some(x);
    var more := moves + [Move(t, a)];
    assert more[..|more| - 1] == moves;
    assert MovedBy(g.who, more) && Play(g.capacity, w, more) == Step(g.capacity, x, t, a);
  }

  ghost predicate Linked(g: Game, f: nat -> World, i: nat) {
    Leads(g, f(i), f(i + 1))
  }

  lemma {:induction false} LeadsAlong(g: Game, f: nat -> World, n: nat)
    requires forall i: nat :: i < n ==> Linked(g, f, i)
    ensures Leads(g, f(0), f(n))
  {
    if n == 0 {
      LeadsNowhere(g, f(0));
    } else {
      LeadsAlong(g, f, n - 1);
      assert Linked(g, f, n - 1);
      LeadsOn(g, f(0), f(n - 1), f(n));
    }
  }

  /** Worker t at p. */
  function At(w: World, t: nat, p: Worker): World
    requires t < |w.workers|
  {
    w.(workers := w.workers[t := p])
  }

  /** One action of worker t. */
  lemma Act(g: Game, w: World, t: nat, a: Action, e: Effect)
    requires t in g.who && t < |w.workers| && e.slot < |w.slots|
    requires EffectOf(g.capacity, w, w.workers[t], a) == Some(e)
    ensures Leads(g, w, After(w, t, a, e))
  {
    var v := After(w, t, a, e);
    assert Step(g.capacity, w, t, a) == Some(v);
    forall holds: World -> bool | KeptByAll(g, holds) && holds(w) ensures holds(v) {
    }
  }

  /** ... that changes one slot and where the worker is. */
  lemma Change(g: Game, w: World, t: nat, a: Action, i: nat, s: Slot, p: Worker)
    requires t in g.who && t < |w.workers| && i < |w.slots| && a != Reserve && a != CountFile
    requires EffectOf(g.capacity, w, w.workers[t], a) == Some(Effect(i, s, p, 0, 0))
    ensures Leads(g, w, SlotAt(w, t, i, s, p))
  {
    Act(g, w, t, a, Effect(i, s, p, 0, 0));
    assert After(w, t, a, Effect(i, s, p, 0, 0)) == SlotAt(w, t, i, s, p);
  }

  /** ... that changes the totals and where the worker is. */
  lemma Settle(g: Game, w: World, t: nat, a: Action, p: Worker, storage: int, files: int)
    requires t in g.who && t < |w.workers| && |w.slots| > 0 && a != Reserve && a != CountFile
    requires EffectOf(g.capacity, w, w.workers[t], a) == Some(Effect(0, w.slots[0], p, storage, files))
    ensures Leads(g, w, At(w, t, p).(storage := w.storage + storage, nfiles := w.nfiles + files))
  {
    var e := Effect(0, w.slots[0], p, storage, files);
    Act(g, w, t, a, e);
    assert After(w, t, a, e).slots == w.slots;
    assert After(w, t, a, e) == At(w, t, p).(storage := w.storage + storage, nfiles := w.nfiles + files);
  }

  /** ... or just where it is. */
  lemma Pass(g: Game, w: World, t: nat, a: Action, p: Worker)
    requires t in g.who && t < |w.workers| && |w.slots| > 0 && a != Reserve && a != CountFile
    requires EffectOf(g.capacity, w, w.workers[t], a) == Some(Stay(w, p, 0, 0))
    ensures Leads(g, w, At(w, t, p))
  {
    Settle(g, w, t, a, p, 0, 0);
  }

  // --------------------------------------------------------- creating a file

  /** Worker t looks for a name that is nowhere, from slot i on. */
  lemma {:induction false} Seeking(g: Game, w: World, t: nat, name: Name, i: nat)
    requires t in g.who && t < |w.workers| && w.workers[t] == Searching(name, i) && i <= |w.slots| && |w.slots| > 0
    requires forall j :: i <= j < |w.slots| ==> !Holds(w.slots[j], name)
    ensures Leads(g, w, At(w, t, Absent(name)))
    decreases |w.slots| - i
  {
    if i == |w.slots| {
      Pass(g, w, t, SearchEnds, Absent(name));
    } else {
      var next := At(w, t, Searching(name, i + 1));
      Pass(g, w, t, LookAt, Searching(name, i + 1));
      Seeking(g, next, t, name, i + 1);
      assert At(next, t, Absent(name)) == At(w, t, Absent(name));
      LeadsOn(g, w, next, At(w, t, Absent(name)));
    }
  }

  /** The whole search. */
  lemma Sought(g: Game, w: World, t: nat, name: Name)
    requires t in g.who && t < |w.workers| && w.workers[t] == Idle && |w.slots| > 0
    requires forall j :: 0 <= j < |w.slots| ==> !Holds(w.slots[j], name)
    ensures Leads(g, w, At(w, t, Absent(name)))
  {
    var next := At(w, t, Searching(name, 0));
    Pass(g, w, t, Seek(name), Searching(name, 0));
    Seeking(g, next, t, name, 0);
    assert At(next, t, Absent(name)) == At(w, t, Absent(name));
    LeadsOn(g, w, next, At(w, t, Absent(name)));
  }

  /** A new file of this owner, opened. */
  function NewFile(name: Name, owner: int, now: int): Slot {
    Open(Create(FREE, name, owner, now).0, owner).0
  }

  /** Worker t, who did not find the name, creates the file in slot i. */
  lemma Creating(g: Game, w: World, t: nat, name: Name, i: nat, owner: int, now: int)
    requires t in g.who && t < |w.workers| && w.workers[t] == Absent(name)
    requires i < |w.slots| && w.slots[i] == FREE && OwnerArg(owner)
    ensures Leads(g, w, At(w, t, Idle).(slots := w.slots[i := NewFile(name, owner, now)], nfiles := w.nfiles + 1,
                                               peakFiles := Max(w.peakFiles, w.nfiles + 1)))
  {
    var s, more := Create(FREE, name, owner, now).0, Max(w.peakFiles, w.nfiles + 1);
    var one := At(w, t, Created(i, owner)).(slots := w.slots[i := s]);
    Change(g, w, t, CreateAt(i, owner, now), i, s, Created(i, owner));
    var two := At(w, t, Counted(i, owner)).(slots := w.slots[i := s], nfiles := w.nfiles + 1, peakFiles := more);
    Counting(g, one, two, t, i, owner);
    var end := At(w, t, Idle).(slots := w.slots[i := NewFile(name, owner, now)], nfiles := w.nfiles + 1,
                               peakFiles := more);
    Change(g, two, t, OpenNew, i, NewFile(name, owner, now), Idle);
    assert two.slots[i := NewFile(name, owner, now)] == end.slots && two.workers[t := Idle] == end.workers;
    LeadsOn(g, w, one, two);
    LeadsOn(g, w, two, end);
  }

  lemma Counting(g: Game, one: World, two: World, t: nat, i: nat, owner: int)
    requires t in g.who && t < |one.workers| && one.workers[t] == Created(i, owner) && |one.slots| > 0
    requires two == At(one, t, Counted(i, owner)).(nfiles := one.nfiles + 1,
                                                   peakFiles := Max(one.peakFiles, one.nfiles + 1))
    ensures Leads(g, one, two)
  {
    Act(g, one, t, CountFile, Stay(one, Counted(i, owner), 0, 1));
    assert one.slots[0 := one.slots[0]] == one.slots;
  }

  /** The whole of it, from the search on, for a worker with nothing in flight. */
  lemma Creation(g: Game, w: World, v: World, t: nat, name: Name, i: nat, owner: int, now: int)
    requires t in g.who && t < |w.workers| && w.workers[t] == Idle
    requires forall j :: 0 <= j < |w.slots| ==> !Holds(w.slots[j], name)
    requires i < |w.slots| && w.slots[i] == FREE && OwnerArg(owner)
    requires v == w.(slots := w.slots[i := NewFile(name, owner, now)], nfiles := w.nfiles + 1,
                     peakFiles := Max(w.peakFiles, w.nfiles + 1))
    ensures Leads(g, w, v)
  {
    var sought := At(w, t, Absent(name));
    Sought(g, w, t, name);
    Creating(g, sought, t, name, i, owner, now);
    assert sought.workers[t := Idle] == w.workers;
    LeadsOn(g, w, sought, v);
  }

  // ------------------------------------------- the other paths of the handlers

  lemma TouchOnce(g: Game, w: World, t: nat, i: nat, op: Touching)
    requires t in g.who && t < |w.workers| && w.workers[t] == Idle && i < |w.slots| && OwnerArg(op.who)
    ensures Leads(g, w, w.(slots := w.slots[i := Touched(w.slots[i], op)]))
  {
    Change(g, w, t, TouchSlot(i, op), i, Touched(w.slots[i], op), Idle);
    assert w.workers[t := Idle] == w.workers;
  }

  lemma CloseOnce(g: Game, w: World, t: nat, i: nat, who: int)
    requires t in g.who && t < |w.workers| && w.workers[t] == Idle
    requires i < |w.slots| && ClientId(who) && Coherent(w.slots[i])
    ensures Leads(g, w, w.(slots := w.slots[i := Close(w.slots[i], who).0]))
  {
    var (s, e, diff) := Close(w.slots[i], who);
    var end := w.(slots := w.slots[i := s]);
    CloseQuiet(w.slots[i], who);
    var p := if e == OK then Closed(0) else Idle;
    Change(g, w, t, CloseAt(i, who), i, s, p);
    assert w.workers[t := Idle] == w.workers;
    if e == OK {
      Pass(g, At(end, t, p), t, SettleClose, Idle);
      assert At(At(end, t, p), t, Idle) == end;
      LeadsOn(g, w, At(end, t, p), end);
    }
  }

  lemma RemoveOnce(g: Game, w: World, t: nat, i: nat, who: int)
    requires t in g.who && t < |w.workers| && w.workers[t] == Idle && i < |w.slots| && ClientId(who)
    ensures var (s, e, size) := Remove(w.slots[i], who);
            Leads(g, w, w.(slots := w.slots[i := s], storage := w.storage - size,
                                  nfiles := w.nfiles - if e == OK then 1 else 0))
  {
    var (s, e, size) := Remove(w.slots[i], who);
    if e == OK {
      Change(g, w, t, RemoveAt(i, who), i, s, RemovedOwn(size));
      RemovedSettles(g, w, SlotAt(w, t, i, s, RemovedOwn(size)), t, i, s, size);
    } else {
      Change(g, w, t, RemoveAt(i, who), i, s, Idle);
      assert w.workers[t := Idle] == w.workers;
    }
  }

  lemma RemovedSettles(g: Game, w: World, x: World, t: nat, i: nat, s: Slot, size: int)
    requires t in g.who && t < |w.workers| && w.workers[t] == Idle && i < |w.slots| && Leads(g, w, x)
    requires x == SlotAt(w, t, i, s, RemovedOwn(size))
    ensures Leads(g, w, w.(slots := w.slots[i := s], storage := w.storage - size, nfiles := w.nfiles - 1))
  {
    var end := w.(slots := w.slots[i := s], storage := w.storage - size, nfiles := w.nfiles - 1);
    Settle(g, x, t, SettleRemove, Idle, -size, -1);
    assert At(x, t, Idle).(storage := x.storage - size, nfiles := x.nfiles - 1) == end by {
      assert x.workers[t := Idle] == w.workers;
    }
    LeadsOn(g, w, x, end);
  }

  /** Worker t's eviction of slot v, from the decision to the settling. */
  lemma Expelling(g: Game, w: World, t: nat, job: Job, v: nat)
    requires t in g.who && t < |w.workers| && w.workers[t] == Claiming(job, v)
    requires v < |w.slots| && Coherent(w.slots[v]) && Exists(w.slots[v]) && w.slots[v].owner != OWNER_ADMIN
    ensures var file := Frame(w.slots[v].name, Contents(w.slots[v]));
            Leads(g, w, At(w, t, Checking(job.(shipped := ShippedWith(job.shipped, file)))).(
                    slots := w.slots[v := FREE], storage := w.storage - SizeOf(w.slots[v]), nfiles := w.nfiles - 1))
  {
    var s := w.slots[v];
    var claimed := Claim(s).0;
    var p := Evicting(job, v, Claimed, s.name, Contents(s), Frame([], []));
    Change(g, w, t, ClaimVictim, v, claimed, p);
    Ejecting(g, w, t, v, claimed, p);
    Settling(g, w, t, v, RemovedVictim(job, SizeOf(s), Frame(s.name, Contents(s))));
  }

  /** From the claim to the removal. */
  lemma Ejecting(g: Game, w: World, t: nat, v: nat, s: Slot, p: Worker)
    requires t in g.who && t < |w.workers| && v < |w.slots| && Leads(g, w, SlotAt(w, t, v, s, p))
    requires Coherent(s) && s.owner == OWNER_ADMIN && p.Evicting? && p.phase == Claimed && p.victim == v
    ensures Leads(g, w, SlotAt(w, t, v, FREE, RemovedVictim(p.job, SizeOf(s), Frame(s.name, Contents(s)))))
  {
    var opn, named := Touch(Open(s, OWNER_ADMIN).0), p.(phase := Named, got := Frame(s.name, Contents(s)));
    Copying(g, w, t, v, s, p);
    AdministratorsOwn(s);
    Taking(g, w, t, v, opn, named);
  }

  lemma Taking(g: Game, w: World, t: nat, v: nat, s: Slot, p: Worker)
    requires t in g.who && t < |w.workers| && v < |w.slots| && Leads(g, w, SlotAt(w, t, v, s, p))
    requires s.owner == OWNER_ADMIN && p.Evicting? && p.phase == Named && p.victim == v
    ensures Leads(g, w, SlotAt(w, t, v, FREE, RemovedVictim(p.job, SizeOf(s), p.got)))
  {
    Further(g, w, SlotAt(w, t, v, s, p), t, RemoveVictim, v, FREE, RemovedVictim(p.job, SizeOf(s), p.got));
  }

  /** Opening, reading and naming a claimed slot. */
  lemma Copying(g: Game, w: World, t: nat, v: nat, s: Slot, p: Worker)
    requires t in g.who && t < |w.workers| && v < |w.slots| && Leads(g, w, SlotAt(w, t, v, s, p))
    requires Coherent(s) && s.owner == OWNER_ADMIN && p.Evicting? && p.phase == Claimed && p.victim == v
    ensures Leads(g, w, SlotAt(w, t, v, Touch(Open(s, OWNER_ADMIN).0),
                                      p.(phase := Named, got := Frame(s.name, Contents(s)))))
  {
    var opn := Open(s, OWNER_ADMIN).0;
    AdministratorsOwn(s);
    AdministratorsOwn(opn);
    Further(g, w, SlotAt(w, t, v, s, p), t, OpenVictim, v, opn, p.(phase := Opened));
    var read := p.(phase := ReadOut, got := p.got.(bytes := Contents(s)));
    Further(g, w, SlotAt(w, t, v, opn, p.(phase := Opened)), t, ReadVictim, v, Touch(opn), read);
    LastCopy(g, w, t, v, Touch(opn), read, p.(phase := Named, got := Frame(s.name, Contents(s))));
  }

  /** w with slot v and worker t changed. */
  function SlotAt(w: World, t: nat, v: nat, s: Slot, p: Worker): World
    requires t < |w.workers| && v < |w.slots|
  {
    w.(workers := w.workers[t := p], slots := w.slots[v := s])
  }

  lemma Further(g: Game, w: World, x: World, t: nat, a: Action, v: nat, s: Slot, p: Worker)
    requires t in g.who && t < |w.workers| == |x.workers| && v < |w.slots| == |x.slots|
    requires x == SlotAt(w, t, v, x.slots[v], x.workers[t])
    requires Leads(g, w, x) && a != Reserve && a != CountFile
    requires EffectOf(g.capacity, x, x.workers[t], a) == Some(Effect(v, s, p, 0, 0))
    ensures Leads(g, w, SlotAt(w, t, v, s, p))
  {
    Change(g, x, t, a, v, s, p);
    assert SlotAt(x, t, v, s, p) == SlotAt(w, t, v, s, p);
    LeadsOn(g, w, x, SlotAt(w, t, v, s, p));
  }

  lemma LastCopy(g: Game, w: World, t: nat, v: nat, s: Slot, p: Worker, q: Worker)
    requires t in g.who && t < |w.workers| && v < |w.slots| && Leads(g, w, SlotAt(w, t, v, s, p)) && Exists(s)
    requires p.Evicting? && p.phase == ReadOut && p.victim == v
    requires q == p.(phase := Named, got := p.got.(name := s.name))
    ensures Leads(g, w, SlotAt(w, t, v, s, q))
  {
    var x := SlotAt(w, t, v, s, p);
    Pass(g, x, t, NameVictim, q);
    assert At(x, t, q) == SlotAt(w, t, v, s, q);
    LeadsOn(g, w, x, SlotAt(w, t, v, s, q));
  }

  lemma Settling(g: Game, w: World, t: nat, v: nat, p: Worker)
    requires t in g.who && t < |w.workers| && v < |w.slots| && p.RemovedVictim? && Leads(g, w, SlotAt(w, t, v, FREE, p))
    ensures Leads(g, w, At(w, t, Checking(p.job.(shipped := ShippedWith(p.job.shipped, p.got)))).(
                    slots := w.slots[v := FREE], storage := w.storage - p.size, nfiles := w.nfiles - 1))
  {
    var x, q := SlotAt(w, t, v, FREE, p), Checking(p.job.(shipped := ShippedWith(p.job.shipped, p.got)));
    var end := At(w, t, q).(slots := w.slots[v := FREE], storage := w.storage - p.size, nfiles := w.nfiles - 1);
    Settle(g, x, t, SettleEviction, q, -p.size, -1);
    assert x.workers[t := q] == end.workers;
    LeadsOn(g, w, x, end);
  }

  function Stored(s: Slot, job: Job): (Slot, Errno) {
    if job.append then Append(s, job.client, job.payload) else Write(s, job.client, job.payload)
  }

  /** The slot and the totals after a write or append that has passed its check. */
  lemma Storing(g: Game, w: World, t: nat, job: Job)
    requires t in g.who && t < |w.workers| && w.workers[t] == Checked(job) && job.slot < |w.slots|
    ensures var n := |job.payload|;
            var (s, e) := Stored(w.slots[job.slot], job);
            Leads(g, w, At(w, t, Idle).(slots := w.slots[job.slot := s],
                    storage := if e == OK then w.storage + n else w.storage,
                    peakStorage := Max(w.peakStorage, w.storage + n)))
  {
    var n := |job.payload|;
    var (s, e) := Stored(w.slots[job.slot], job);
    var one := At(w, t, Reserved(job)).(storage := w.storage + n, peakStorage := Max(w.peakStorage, w.storage + n));
    Act(g, w, t, Reserve, Stay(w, Reserved(job), n, 0));
    assert w.slots[0 := w.slots[0]] == w.slots;
    var two := SlotAt(one, t, job.slot, s, if e == OK then Idle else Failed(n));
    StoreStep(g, one, t, job);
    LeadsOn(g, w, one, two);
    if e == OK {
      assert two.workers == w.workers[t := Idle];
    } else {
      Settle(g, two, t, Release, Idle, 0 - n, 0);
      var end := At(w, t, Idle).(slots := two.slots, peakStorage := two.peakStorage);
      assert At(two, t, Idle).workers == end.workers;
      LeadsOn(g, w, two, end);
    }
  }

  lemma StoreStep(g: Game, one: World, t: nat, job: Job)
    requires t in g.who && t < |one.workers| && one.workers[t] == Reserved(job) && job.slot < |one.slots|
    ensures var (s, e) := Stored(one.slots[job.slot], job);
            Leads(g, one, SlotAt(one, t, job.slot, s, if e == OK then Idle else Failed(|job.payload|)))
  {
    var (s, e) := Stored(one.slots[job.slot], job);
    Change(g, one, t, StoreBytes, job.slot, s, if e == OK then Idle else Failed(|job.payload|));
  }

  /** A write or append from the check on, for a payload that fits. */
  lemma FittingStore(g: Game, w: World, v: World, t: nat, job: Job)
    requires t in g.who && t < |w.workers| && w.workers[t] == Checking(job) && job.slot < |w.slots|
    requires w.storage + |job.payload| <= g.capacity
    requires var (s, e) := Stored(w.slots[job.slot], job);
             var n := |job.payload|;
             v == At(w, t, Idle).(slots := w.slots[job.slot := s],
                    storage := if e == OK then w.storage + n else w.storage,
                    peakStorage := Max(w.peakStorage, w.storage + n))
    ensures Leads(g, w, v)
  {
    var checked := At(w, t, Checked(job));
    CheckPasses(g, w, t, job);
    Storing(g, checked, t, job);
    assert checked.workers[t := Idle] == v.workers;
    LeadsOn(g, w, checked, v);
  }

  lemma CheckPasses(g: Game, w: World, t: nat, job: Job)
    requires t in g.who && t < |w.workers| && w.workers[t] == Checking(job) && |w.slots| > 0
    requires w.storage + |job.payload| <= g.capacity
    ensures Leads(g, w, At(w, t, Checked(job)))
  {
    Pass(g, w, t, Check, Checked(job));
  }
}
