/** What the eviction loop guarantees, and exactly when it comes back. */
module EvictionProofs {
  import opened Basics
  import opened Slots
  import opened Table
  import opened ServerState
  import opened Eviction

  /** The file survived; only its reference bit may have been cleared. */
  predicate Kept(a: Slot, b: Slot) {
    b == a || (Exists(a) && b == a.(used := false))
  }

  ghost predicate KeptExcept(a: seq<Slot>, b: seq<Slot>, v: int) {
    |a| == |b| && forall i :: 0 <= i < |a| && i != v ==> Kept(a[i], b[i])
  }

  lemma VictimSound(algo: Algorithm, slots: seq<Slot>, prot: Name, pos: nat, now: int)
    requires pos < |slots|
    ensures var (after, victim) := Victim(algo, slots, prot, pos, now);
            && KeptExcept(slots, after, -1)
            && (victim.Some? ==>
                  && victim.value < |slots| && Eligible(slots[victim.value], prot)
                  && after[victim.value] == slots[victim.value])
  {
    if algo == LRU {
      SweepClosedForm(slots, prot, pos, |slots|);
      var victim := Victim(algo, slots, prot, pos, now).1;
      if victim.Some? {
        assert !(Distance(pos, victim.value, |slots|) < Distance(pos, victim.value, |slots|));
      }
    } else {
      var limit := if algo == FIFO then now else INT_MAX;
      PickFromLeast(algo, slots, prot, limit, 0, None, limit);
    }
  }

  lemma KeptSameFiles(a: seq<Slot>, b: seq<Slot>)
    requires AllCoherent(a) && KeptExcept(a, b, -1)
    ensures SameFiles(a, b)
  {
    forall i | 0 <= i < |a| ensures SameFile(a[i], b[i]) {
      assert Coherent(a[i]) && Kept(a[i], b[i]);
    }
  }

  ghost predicate Evicts(a: seq<Slot>, b: seq<Slot>, prot: Name, v: nat, frame: Frame) {
    && v < |a| && KeptExcept(a, b, v)
    && Eligible(a[v], prot) && b[v] == FREE && frame == FrameOf(a[v])
  }

  /** One cache miss: nobody leaves, or exactly one eligible file does, whole,
      and the totals drop by exactly that file. */
  lemma CacheMissEffect(cfg: Config, st: State, prot: Name, now: int)
    requires Tidy(st)
    ensures var (t, frame) := CacheMiss(cfg, st, prot, now);
            && Tidy(t) && |t.slots| == |st.slots|
            && match frame
               case None => t == st.(slots := t.slots) && KeptExcept(st.slots, t.slots, -1)
               case Some(f) =>
                 && (exists v: nat :: Evicts(st.slots, t.slots, prot, v, f))
                 && t == st.(slots := t.slots, storage := st.storage - |f.bytes|, nfiles := st.nfiles - 1,
                             misses := st.misses + 1, lruPos := t.lruPos)
  {
    var (after, victim) := Victim(cfg.algo, st.slots, prot, st.lruPos, now);
    VictimSound(cfg.algo, st.slots, prot, st.lruPos, now);
    KeptSameFiles(st.slots, after);
    SameFilesKeep(st.slots, after);
    if victim.Some? {
      var v := victim.value;
      assert Coherent(st.slots[v]) && |Contents(st.slots[v])| == SizeOf(st.slots[v]);
      RemovalUpdate(after, v);
      TotalsUpdate(after, v, FREE);
      assert Evicts(st.slots, after[v := FREE], prot, v, FrameOf(st.slots[v]));
    }
  }

  // ------------------------------------------------- who goes first, in the fields

  /** Slot v holds the oldest of the eligible files created before now, the first of
      them in the table if there are several. */
  ghost predicate Oldest(slots: seq<Slot>, prot: Name, now: int, v: nat) {
    && v < |slots| && Eligible(slots[v], prot) && slots[v].created < now
    && forall j :: 0 <= j < |slots| && Eligible(slots[j], prot) ==>
         slots[v].created <= slots[j].created && (j < v ==> slots[v].created < slots[j].created)
  }

  /** Slot v holds the least used of the eligible files, the first of them in the
      table if there are several; a counter at INT_MAX does not count. */
  ghost predicate LeastUsed(slots: seq<Slot>, prot: Name, v: nat) {
    && v < |slots| && Eligible(slots[v], prot) && slots[v].freq < 0x7FFF_FFFF
    && forall j :: 0 <= j < |slots| && Eligible(slots[j], prot) ==>
         slots[v].freq <= slots[j].freq && (j < v ==> slots[v].freq < slots[j].freq)
  }

  /** One cache miss under FIFO: the oldest eligible file leaves, and nobody exactly if
      none was created before now. */
  lemma FifoEvictsOldest(cfg: Config, st: State, prot: Name, now: int)
    requires Tidy(st) && cfg.algo == FIFO
    ensures match CacheMiss(cfg, st, prot, now)
            case (t, None) =>
              t == st && forall j :: 0 <= j < |st.slots| && Eligible(st.slots[j], prot) ==> st.slots[j].created >= now
            case (t, Some(f)) =>
              exists v: nat ::
                Oldest(st.slots, prot, now, v) && f == FrameOf(st.slots[v]) && t.slots == st.slots[v := FREE]
  {
    PickFromLeast(FIFO, st.slots, prot, now, 0, None, now);
    var victim := PickFrom(FIFO, st.slots, prot, 0, None, now);
    forall j: nat | j < |st.slots| && Eligible(st.slots[j], prot) && st.slots[j].created < now
      ensures Candidate(FIFO, st.slots, prot, now, j)
    {
    }
    if victim.Some? {
      VictimShips(cfg, st, victim.value, prot);
      assert Oldest(st.slots, prot, now, victim.value);
    }
  }

  /** One cache miss under LFU: the least used eligible file leaves, and nobody exactly
      if all their counters have reached INT_MAX. */
  lemma LfuEvictsLeastUsed(cfg: Config, st: State, prot: Name, now: int)
    requires Tidy(st) && cfg.algo == LFU
    ensures match CacheMiss(cfg, st, prot, now)
            case (t, None) =>
              t == st &&
              forall j :: 0 <= j < |st.slots| && Eligible(st.slots[j], prot) ==> st.slots[j].freq >= 0x7FFF_FFFF
            case (t, Some(f)) =>
              exists v: nat ::
                LeastUsed(st.slots, prot, v) && f == FrameOf(st.slots[v]) && t.slots == st.slots[v := FREE]
  {
    PickFromLeast(LFU, st.slots, prot, INT_MAX, 0, None, INT_MAX);
    var victim := PickFrom(LFU, st.slots, prot, 0, None, INT_MAX);
    forall j: nat | j < |st.slots| && Eligible(st.slots[j], prot) && st.slots[j].freq < INT_MAX
      ensures Candidate(LFU, st.slots, prot, INT_MAX, j)
    {
    }
    if victim.Some? {
      VictimShips(cfg, st, victim.value, prot);
      assert LeastUsed(st.slots, prot, victim.value);
    }
  }

  /** Two turns of the eviction loop, the second one only if the first shipped nobody. */
  function CacheMissTwice(cfg: Config, st: State, prot: Name, now: int, later: int): (State, Option<Frame>)
    requires st.lruPos < |st.slots|
  {
    var (t, frame) := CacheMiss(cfg, st, prot, now);
    if frame.None? then CacheMiss(cfg, t, prot, later) else (t, frame)
  }

  /** An eligible file is never empty, so whoever evicts it ships it. */
  lemma VictimShips(cfg: Config, st: State, v: nat, prot: Name)
    requires st.lruPos < |st.slots| && v < |st.slots| && Coherent(st.slots[v]) && Eligible(st.slots[v], prot)
    ensures EvictAt(cfg, st, v).1 == Some(FrameOf(st.slots[v]))
  {
  }

  /** The second-chance clock as a whole, its position included: if a sweep of any
      length k finds somebody, then one cache miss, or two when the first ships
      nobody, ends in the state that sweep followed by the eviction would leave, and
      the clock where its hand came to rest. */
  lemma ClockRefinesUnbounded(cfg: Config, st: State, prot: Name, now: int, later: int, k: nat)
    requires Tidy(st) && cfg.algo == LRU && Sweep(st.slots, prot, st.lruPos, k).1.Some?
    ensures var (after, victim) := Sweep(st.slots, prot, st.lruPos, k);
            var (t, frame) := CacheMissTwice(cfg, st, prot, now, later);
            && (t, frame) == EvictAt(cfg, st.(slots := after), victim.value)
            && frame == Some(FrameOf(st.slots[victim.value]))
            && t.lruPos == Hand(st.slots, prot, st.lruPos, k)
  {
    var (after, victim) := Sweep(st.slots, prot, st.lruPos, k);
    BoundedSweepRefinesUnbounded(st.slots, prot, st.lruPos, k);
    VictimSound(LRU, st.slots, prot, st.lruPos, now);
    var (first, found) := Sweep(st.slots, prot, st.lruPos, |st.slots|);
    if found.Some? {
      VictimShips(cfg, st.(slots := first), found.value, prot);
    } else {
      KeptSameFiles(st.slots, first);
      VictimSound(LRU, first, prot, st.lruPos, later);
      VictimShips(cfg, st.(slots := after), victim.value, prot);
      assert FrameOf(after[victim.value]) == FrameOf(first[victim.value]) == FrameOf(st.slots[victim.value]);
    }
  }

  /** ... and no such length exists exactly if nobody is eligible, and then two cache
      misses in a row evict nobody. */
  lemma ClockStops(cfg: Config, st: State, prot: Name, now: int, later: int)
    requires Tidy(st) && cfg.algo == LRU
    ensures CacheMissTwice(cfg, st, prot, now, later).1.Some? <==>
            exists e :: 0 <= e < |st.slots| && Eligible(st.slots[e], prot)
  {
    UnboundedSweepStops(st.slots, prot, st.lruPos);
    if k: nat :| Sweep(st.slots, prot, st.lruPos, k).1.Some? {
      ClockRefinesUnbounded(cfg, st, prot, now, later, k);
    } else {
      assert Sweep(st.slots, prot, st.lruPos, |st.slots|).1.None?;
      SweepSplit(st.slots, prot, st.lruPos, |st.slots|, |st.slots|);
      WalkFrom(st.lruPos, |st.slots|, |st.slots|);
      assert Sweep(st.slots, prot, st.lruPos, |st.slots| + |st.slots|).1.None?;
    }
  }

  // ------------------------------------------------ what holds at every turn

  /** From `a` to `b` some eligible files left whole and all the others are still
      there; `shipped` lists each file that left, once. */
  ghost predicate Survivors(a: seq<Slot>, b: seq<Slot>, prot: Name, shipped: seq<Frame>) {
    && |a| == |b|
    && (forall i :: 0 <= i < |a| ==> Kept(a[i], b[i]) || Left(a[i], b[i], prot, shipped))
    && (forall f :: f in shipped ==> exists i :: 0 <= i < |a| && Exists(a[i]) && b[i] == FREE && FrameOf(a[i]) == f)
    && |shipped| == Count(a) - Count(b)
  }

  predicate Left(s: Slot, t: Slot, prot: Name, shipped: seq<Frame>) {
    t == FREE && Eligible(s, prot) && FrameOf(s) in shipped
  }

  lemma SurvivorsStart(a: seq<Slot>, prot: Name)
    ensures Survivors(a, a, prot, [])
  {
  }

  lemma SurvivorsStep(
    a: seq<Slot>, b: seq<Slot>, c: seq<Slot>, prot: Name, shipped: seq<Frame>, v: int, more: seq<Frame>)
    requires Survivors(a, b, prot, shipped)
    requires (more == [] && KeptExcept(b, c, -1)) || (v >= 0 && exists f :: more == [f] && Evicts(b, c, prot, v, f))
    requires |more| == Count(b) - Count(c)
    ensures Survivors(a, c, prot, shipped + more)
  {
    var all := shipped + more;
    forall i | 0 <= i < |a| ensures Kept(a[i], c[i]) || Left(a[i], c[i], prot, all) {
      if Left(a[i], b[i], prot, shipped) {
        assert FrameOf(a[i]) in all;
      } else if more != [] && i == v {
        assert FrameOf(a[i]) == FrameOf(b[i]) == more[0];
      }
    }
    forall f | f in all
      ensures exists i :: 0 <= i < |a| && Exists(a[i]) && c[i] == FREE && FrameOf(a[i]) == f
    {
      if f in shipped {
        var i :| 0 <= i < |a| && Exists(a[i]) && b[i] == FREE && FrameOf(a[i]) == f;
        assert c[i] == FREE;
      } else {
        assert f == more[0] && FrameOf(b[v]) == f;
        assert Exists(b[v]) && FrameOf(a[v]) == f;
      }
    }
  }

  /** A name is gone from the map exactly if its file was shipped. */
  predicate Shipped(shipped: seq<Frame>, name: Name) {
    exists f :: f in shipped && f.name == name
  }

  lemma ShippedIsGone(a: seq<Slot>, b: seq<Slot>, prot: Name, shipped: seq<Frame>, n: Name)
    requires WellFormed(a) && Survivors(a, b, prot, shipped) && Shipped(shipped, n)
    ensures n != prot && Find(b, n) == None
  {
    var f :| f in shipped && f.name == n;
    var i :| 0 <= i < |a| && Exists(a[i]) && b[i] == FREE && FrameOf(a[i]) == f;
    assert Left(a[i], b[i], prot, shipped);
    forall j | 0 <= j < |b| ensures !Holds(b[j], n) {
      assert Kept(a[j], b[j]) || Left(a[j], b[j], prot, shipped);
    }
  }

  lemma UnshippedStays(a: seq<Slot>, b: seq<Slot>, prot: Name, shipped: seq<Frame>, n: Name)
    requires WellFormed(a) && Survivors(a, b, prot, shipped) && !Shipped(shipped, n)
    ensures Find(b, n) == Find(a, n) && FileAt(b, n) == FileAt(a, n)
  {
    forall j | 0 <= j < |b| ensures Holds(a[j], n) == Holds(b[j], n) && (Holds(a[j], n) ==> Kept(a[j], b[j])) {
      assert Kept(a[j], b[j]) || Left(a[j], b[j], prot, shipped);
    }
    SameFind(a, b, n);
  }

  lemma SurvivorsFiles(a: seq<Slot>, b: seq<Slot>, prot: Name, shipped: seq<Frame>, n: Name)
    requires WellFormed(a) && Survivors(a, b, prot, shipped)
    ensures FileAt(b, n) == if Shipped(shipped, n) then None else FileAt(a, n)
    ensures n == prot ==> !Shipped(shipped, n)
    ensures !Shipped(shipped, n) ==> Find(b, n) == Find(a, n)
  {
    if Shipped(shipped, n) {
      ShippedIsGone(a, b, prot, shipped, n);
    } else {
      UnshippedStays(a, b, prot, shipped, n);
    }
  }

  /** The eviction loop's invariant between its start in st0 and a later turn. */
  ghost predicate Progress(cfg: Config, st0: State, st: State, prot: Name, payload: nat, shipped: seq<Frame>) {
    && Tidy(st)
    && Survivors(st0.slots, st.slots, prot, shipped)
    && st == st0.(slots := st.slots, storage := st.storage, nfiles := st.nfiles,
                  misses := st0.misses + |shipped|, lruPos := st.lruPos)
    && st.storage <= st0.storage
    && (shipped != [] ==> st.storage + |shipped[|shipped| - 1].bytes| + payload > cfg.maxStorage)
  }

  lemma ProgressStep(
    cfg: Config, st0: State, st: State, prot: Name, payload: nat, shipped: seq<Frame>, now: int)
    requires Progress(cfg, st0, st, prot, payload, shipped) && st.storage + payload > cfg.maxStorage
    ensures var (t, frame) := CacheMiss(cfg, st, prot, now);
            Progress(cfg, st0, t, prot, payload, if frame.Some? then shipped + [frame.value] else shipped)
  {
    var (t, frame) := CacheMiss(cfg, st, prot, now);
    CacheMissEffect(cfg, st, prot, now);
    match frame {
      case None =>
        KeptSameFiles(st.slots, t.slots);
        SameFilesKeep(st.slots, t.slots);
        SurvivorsStep(st0.slots, st.slots, t.slots, prot, shipped, -1, []);
        assert shipped + [] == shipped;
      case Some(f) =>
        var v: nat :| Evicts(st.slots, t.slots, prot, v, f);
        SurvivorsStep(st0.slots, st.slots, t.slots, prot, shipped, v, [f]);
    }
  }

  /** Whatever the loop does, finished or not: it ships whole eligible files and
      nothing else, each once, keeps every other file as it is, keeps the totals
      exact, and never evicts once the payload fits. */
  lemma {:induction false} EvictLoopProgress(
    cfg: Config, st0: State, st: State, prot: Name, payload: nat, times: seq<int>, i: nat, shipped: seq<Frame>)
    requires i <= |times| && Progress(cfg, st0, st, prot, payload, shipped)
    ensures var out := EvictLoop(cfg, st, prot, payload, times, i, shipped);
            && Progress(cfg, st0, out.st, prot, payload, out.shipped)
            && (out.Fits? <==> out.st.storage + payload <= cfg.maxStorage)
    decreases |times| - i
  {
    if st.storage + payload > cfg.maxStorage && i < |times| {
      var (t, frame) := CacheMiss(cfg, st, prot, times[i]);
      ProgressStep(cfg, st0, st, prot, payload, shipped, times[i]);
      EvictLoopProgress(cfg, st0, t, prot, payload, times, i + 1,
        if frame.Some? then shipped + [frame.value] else shipped);
    }
  }

  lemma EvictLoopCorrect(cfg: Config, st: State, prot: Name, payload: nat, times: seq<int>)
    requires Tidy(st)
    ensures var out := EvictLoop(cfg, st, prot, payload, times, 0, []);
            && Progress(cfg, st, out.st, prot, payload, out.shipped)
            && (out.Fits? <==> out.st.storage + payload <= cfg.maxStorage)
  {
    SurvivorsStart(st.slots, prot);
    EvictLoopProgress(cfg, st, st, prot, payload, times, 0, []);
  }

  // --------------------------------------------------- exactly when it returns

  /** Bytes no turn of the loop can ever get back: the requester's own file, and
      under LFU a file whose counter has reached INT_MAX. */
  predicate Stuck(algo: Algorithm, s: Slot, prot: Name) {
    s.name == prot || (algo == LFU && s.freq >= INT_MAX)
  }

  function StuckSize(algo: Algorithm, prot: Name): Slot -> int {
    s => if Stuck(algo, s, prot) then SizeOf(s) else 0
  }

  function StuckBytes(algo: Algorithm, slots: seq<Slot>, prot: Name): int {
    Sum(slots, StuckSize(algo, prot))
  }

  /** Turns still needed at most: one per evictable file, plus one per set
      reference bit because LRU may spend a call on only clearing bits. */
  function TurnsFor(prot: Name): Slot -> int {
    s => if Eligible(s, prot) then (if s.used then 2 else 1) else 0
  }

  function Turns(slots: seq<Slot>, prot: Name): int {
    Sum(slots, TurnsFor(prot))
  }

  /** A clock reading later than every creation. */
  predicate Late(slots: seq<Slot>, now: int) {
    forall i :: 0 <= i < |slots| ==> slots[i].created < now
  }

  lemma {:induction false} SumBelow<T>(s: seq<T>, t: seq<T>, weight: T -> int)
    requires |s| == |t| && forall i :: 0 <= i < |s| ==> weight(t[i]) <= weight(s[i])
    ensures Sum(t, weight) <= Sum(s, weight)
    ensures (exists i :: 0 <= i < |s| && weight(t[i]) < weight(s[i])) ==> Sum(t, weight) < Sum(s, weight)
  {
    if |s| > 0 {
      var n := |s| - 1;
      SumBelow(s[..n], t[..n], weight);
      if i :| 0 <= i < |s| && weight(t[i]) < weight(s[i]) {
        assert i < n ==> weight(t[..n][i]) < weight(s[..n][i]);
      }
    }
  }

  /** If the payload does not fit but could, an evictable file is left. */
  lemma EvictableLeft(cfg: Config, st: State, prot: Name, payload: nat) returns (e: nat)
    requires Tidy(st) && st.storage + payload > cfg.maxStorage
    requires StuckBytes(cfg.algo, st.slots, prot) + payload <= cfg.maxStorage
    ensures e < |st.slots| && Eligible(st.slots[e], prot) && !Stuck(cfg.algo, st.slots[e], prot)
  {
    if forall i :: 0 <= i < |st.slots| ==> Eligible(st.slots[i], prot) ==> Stuck(cfg.algo, st.slots[i], prot) {
      StuckIsAll(cfg.algo, st.slots, prot);
      assert false;
    }
    e :| 0 <= e < |st.slots| && Eligible(st.slots[e], prot) && !Stuck(cfg.algo, st.slots[e], prot);
  }

  lemma {:induction false} StuckIsAll(algo: Algorithm, slots: seq<Slot>, prot: Name)
    requires AllCoherent(slots) && forall i :: 0 <= i < |slots| ==> slots[i].owner != OWNER_ADMIN
    requires forall i :: 0 <= i < |slots| ==> Eligible(slots[i], prot) ==> Stuck(algo, slots[i], prot)
    ensures StuckBytes(algo, slots, prot) == Total(slots)
  {
    if |slots| > 0 {
      StuckIsAll(algo, slots[..|slots| - 1], prot);
    }
  }

  lemma NoTurnsNoEvictable(cfg: Config, st: State, prot: Name, payload: nat)
    requires Tidy(st) && Turns(st.slots, prot) <= 0
    requires StuckBytes(cfg.algo, st.slots, prot) + payload <= cfg.maxStorage
    ensures st.storage + payload <= cfg.maxStorage
  {
    if st.storage + payload > cfg.maxStorage {
      var e := EvictableLeft(cfg, st, prot, payload);
      SumNonNegative(st.slots, TurnsFor(prot));
      assert false;
    }
  }

  /** With a late enough clock every turn of a loop that can succeed makes progress. */
  lemma TurnHelps(cfg: Config, st: State, prot: Name, payload: nat, now: int)
    requires Tidy(st) && st.storage + payload > cfg.maxStorage
    requires StuckBytes(cfg.algo, st.slots, prot) + payload <= cfg.maxStorage
    requires cfg.algo == FIFO ==> Late(st.slots, now)
    ensures var t := CacheMiss(cfg, st, prot, now).0;
            Turns(t.slots, prot) < Turns(st.slots, prot)
  {
    var e := EvictableLeft(cfg, st, prot, payload);
    var (t, frame) := CacheMiss(cfg, st, prot, now);
    var (after, victim) := Victim(cfg.algo, st.slots, prot, st.lruPos, now);
    VictimSound(cfg.algo, st.slots, prot, st.lruPos, now);
    if cfg.algo == LRU {
      SweepClosedForm(st.slots, prot, st.lruPos, |st.slots|);
      assert Distance(st.lruPos, e, |st.slots|) < |st.slots|;
    } else {
      var limit := if cfg.algo == FIFO then now else INT_MAX;
      PickFromLeast(cfg.algo, st.slots, prot, limit, 0, None, limit);
      assert Candidate(cfg.algo, st.slots, prot, limit, e);
    }
    var w := TurnsFor(prot);
    var h := if victim.Some? then victim.value else e;
    assert w(t.slots[h]) < w(st.slots[h]);
    SumBelow(st.slots, t.slots, w);
  }

  /** Every slot is as it was but for its reference bit, or it was freed. */
  ghost predicate OnlyLoses(a: seq<Slot>, b: seq<Slot>) {
    |a| == |b| && forall i :: 0 <= i < |a| ==> Kept(a[i], b[i]) || b[i] == FREE
  }

  lemma CacheMissOnlyLoses(cfg: Config, st: State, prot: Name, now: int)
    requires st.lruPos < |st.slots|
    ensures OnlyLoses(st.slots, CacheMiss(cfg, st, prot, now).0.slots)
  {
    VictimSound(cfg.algo, st.slots, prot, st.lruPos, now);
  }

  /** Turns never take away what the loop can still count on. */
  lemma TurnKeepsHope(cfg: Config, st: State, prot: Name, now: int)
    requires st.lruPos < |st.slots|
    ensures var t := CacheMiss(cfg, st, prot, now).0;
            && StuckBytes(cfg.algo, t.slots, prot) <= StuckBytes(cfg.algo, st.slots, prot)
            && Turns(t.slots, prot) <= Turns(st.slots, prot)
            && forall later :: later > 0 && Late(st.slots, later) ==> Late(t.slots, later)
  {
    CacheMissOnlyLoses(cfg, st, prot, now);
    LosingKeepsHope(cfg.algo, st.slots, CacheMiss(cfg, st, prot, now).0.slots, prot);
  }

  lemma LosingKeepsHope(algo: Algorithm, a: seq<Slot>, b: seq<Slot>, prot: Name)
    requires OnlyLoses(a, b)
    ensures StuckBytes(algo, b, prot) <= StuckBytes(algo, a, prot) && Turns(b, prot) <= Turns(a, prot)
    ensures forall later :: later > 0 && Late(a, later) ==> Late(b, later)
  {
    SumBelow(a, b, StuckSize(algo, prot));
    SumBelow(a, b, TurnsFor(prot));
  }

  /** Clock readings that make a FIFO search see every file; the other
      algorithms do not look at the clock. */
  predicate LateFrom(algo: Algorithm, slots: seq<Slot>, times: seq<int>, i: nat) {
    algo == FIFO ==> forall k :: i <= k < |times| ==> times[k] > 0 && Late(slots, times[k])
  }

  lemma {:induction false} EvictLoopReturns(
    cfg: Config, st: State, prot: Name, payload: nat, times: seq<int>, i: nat, shipped: seq<Frame>, late: nat)
    requires Tidy(st) && i <= late <= |times|
    requires StuckBytes(cfg.algo, st.slots, prot) + payload <= cfg.maxStorage
    requires LateFrom(cfg.algo, st.slots, times, late)
    requires |times| - late >= Turns(st.slots, prot)
    ensures EvictLoop(cfg, st, prot, payload, times, i, shipped).Fits?
    decreases |times| - i
  {
    if st.storage + payload > cfg.maxStorage {
      if i == |times| {
        NoTurnsNoEvictable(cfg, st, prot, payload);
      } else {
        var (t, frame) := CacheMiss(cfg, st, prot, times[i]);
        CacheMissEffect(cfg, st, prot, times[i]);
        TurnKeepsHope(cfg, st, prot, times[i]);
        if i == late {
          TurnHelps(cfg, st, prot, payload, times[i]);
        }
        EvictLoopReturns(cfg, t, prot, payload, times, i + 1,
          if frame.Some? then shipped + [frame.value] else shipped, if i == late then late + 1 else late);
      }
    }
  }

  lemma {:induction false} EvictLoopSpins(
    cfg: Config, st: State, prot: Name, payload: nat, times: seq<int>, i: nat, shipped: seq<Frame>)
    requires Tidy(st) && i <= |times|
    requires StuckBytes(cfg.algo, st.slots, prot) + payload > cfg.maxStorage
    ensures EvictLoop(cfg, st, prot, payload, times, i, shipped).StillFull?
    decreases |times| - i
  {
    StuckWithinTotal(st.slots, cfg.algo, prot);
    if i < |times| {
      var (t, frame) := CacheMiss(cfg, st, prot, times[i]);
      CacheMissEffect(cfg, st, prot, times[i]);
      StuckStays(cfg, st, prot, times[i]);
      EvictLoopSpins(cfg, t, prot, payload, times, i + 1,
        if frame.Some? then shipped + [frame.value] else shipped);
    }
  }

  lemma {:induction false} StuckWithinTotal(slots: seq<Slot>, algo: Algorithm, prot: Name)
    ensures StuckBytes(algo, slots, prot) <= Total(slots)
  {
    if |slots| > 0 {
      StuckWithinTotal(slots[..|slots| - 1], algo, prot);
    }
  }

  /** A victim is never stuck, so stuck bytes stay. */
  lemma StuckStays(cfg: Config, st: State, prot: Name, now: int)
    requires Tidy(st)
    ensures StuckBytes(cfg.algo, CacheMiss(cfg, st, prot, now).0.slots, prot) == StuckBytes(cfg.algo, st.slots, prot)
  {
    var t := CacheMiss(cfg, st, prot, now).0;
    CacheMissEffect(cfg, st, prot, now);
    VictimSound(cfg.algo, st.slots, prot, st.lruPos, now);
    if cfg.algo == LFU {
      PickFromLeast(LFU, st.slots, prot, INT_MAX, 0, None, INT_MAX);
    }
    SumAgree(st.slots, t.slots, StuckSize(cfg.algo, prot));
  }

  lemma {:induction false} TurnsBound(slots: seq<Slot>, prot: Name)
    ensures 0 <= Turns(slots, prot) <= 2 * |slots|
  {
    if |slots| > 0 {
      TurnsBound(slots[..|slots| - 1], prot);
    }
  }

  /** do_cache_miss comes back if and only if the bytes it cannot evict leave room
      for the payload.  If they do, 2 * file_num turns with a clock past every
      creation are enough, whatever happened before; if they do not, no number of
      turns is. */
  lemma EvictionReturnsExactly(cfg: Config, st: State, prot: Name, payload: nat)
    requires Tidy(st)
    ensures (exists times :: EvictLoop(cfg, st, prot, payload, times, 0, []).Fits?) <==>
            StuckBytes(cfg.algo, st.slots, prot) + payload <= cfg.maxStorage
    ensures forall times: seq<int>, late: nat ::
              late + 2 * |st.slots| <= |times| && LateFrom(cfg.algo, st.slots, times, late) &&
              StuckBytes(cfg.algo, st.slots, prot) + payload <= cfg.maxStorage ==>
              EvictLoop(cfg, st, prot, payload, times, 0, []).Fits?
  {
    TurnsBound(st.slots, prot);
    if StuckBytes(cfg.algo, st.slots, prot) + payload <= cfg.maxStorage {
      var now := LatestCreation(st.slots);
      var times := seq(2 * |st.slots|, _ => now);
      EvictLoopReturns(cfg, st, prot, payload, times, 0, [], 0);
      forall times: seq<int>, late: nat
        | late + 2 * |st.slots| <= |times| && LateFrom(cfg.algo, st.slots, times, late)
        ensures EvictLoop(cfg, st, prot, payload, times, 0, []).Fits?
      {
        EvictLoopReturns(cfg, st, prot, payload, times, 0, [], late);
      }
    } else {
      forall times ensures EvictLoop(cfg, st, prot, payload, times, 0, []).StillFull? {
        EvictLoopSpins(cfg, st, prot, payload, times, 0, []);
      }
    }
  }

  function LatestCreation(slots: seq<Slot>): (now: int)
    ensures now > 0 && Late(slots, now)
  {
    if |slots| == 0 then 1
    else
      var n := LatestCreation(slots[..|slots| - 1]);
      assert Late(slots[..|slots| - 1], n);
      assert forall i :: 0 <= i < |slots| - 1 ==> slots[i] == slots[..|slots| - 1][i];
      Max(n, slots[|slots| - 1].created + 1)
  }
}
