/** src/source/worker/worker_cache_miss.c and do_cache_miss of worker_write.c:
    choosing a victim, shipping it, and repeating until a payload fits. */
module Eviction {
  import opened Basics
  import opened Slots
  import opened ServerState

  // ---------------------------------------------------------------- choosing

  /** loop_check: only an existing, unclaimed, non-empty file other than the
      requester's own may be chosen. */
  predicate Eligible(s: Slot, prot: Name) {
    s.owner != OWNER_ADMIN && Exists(s) && s.name != prot && SizeOf(s) > 0
  }

  function Key(algo: Algorithm, s: Slot): int {
    if algo == FIFO then s.created else s.freq
  }

  /** The scan shared by evict_FIFO and evict_LFU, from slot i on: the running
      best is replaced only by a strictly smaller key. */
  function PickFrom(algo: Algorithm, slots: seq<Slot>, prot: Name, i: nat, best: Option<nat>, bound: int)
    : (r: Option<nat>)
    requires i <= |slots| && (best.Some? ==> best.value < |slots|)
    ensures r.Some? ==> r.value < |slots|
    decreases |slots| - i
  {
    if i == |slots| then best
    else if Eligible(slots[i], prot) && Key(algo, slots[i]) < bound then
      PickFrom(algo, slots, prot, i + 1, Some(i), Key(algo, slots[i]))
    else
      PickFrom(algo, slots, prot, i + 1, best, bound)
  }

  ghost predicate Candidate(algo: Algorithm, slots: seq<Slot>, prot: Name, limit: int, i: nat) {
    i < |slots| && Eligible(slots[i], prot) && Key(algo, slots[i]) < limit
  }

  /** `r` is the lowest-index candidate of minimum key among the first n slots. */
  ghost predicate LeastAmong(algo: Algorithm, slots: seq<Slot>, prot: Name, limit: int, n: nat, r: nat) {
    && r < n
    && Candidate(algo, slots, prot, limit, r)
    && (forall j: nat :: j < n && Candidate(algo, slots, prot, limit, j) ==> Key(algo, slots[r]) <= Key(algo, slots[j]))
    && (forall j: nat :: j < r && Candidate(algo, slots, prot, limit, j) ==> Key(algo, slots[r]) < Key(algo, slots[j]))
  }

  lemma {:induction false} PickFromLeast(
    algo: Algorithm, slots: seq<Slot>, prot: Name, limit: int, i: nat, best: Option<nat>, bound: int)
    requires i <= |slots|
    requires best.None? ==> bound == limit && forall j: nat :: j < i ==> !Candidate(algo, slots, prot, limit, j)
    requires best.Some? ==>
               LeastAmong(algo, slots, prot, limit, i, best.value) && bound == Key(algo, slots[best.value])
    ensures var r := PickFrom(algo, slots, prot, i, best, bound);
            if r.Some? then LeastAmong(algo, slots, prot, limit, |slots|, r.value)
            else forall j: nat :: !Candidate(algo, slots, prot, limit, j)
    decreases |slots| - i
  {
    if i < |slots| {
      if Eligible(slots[i], prot) && Key(algo, slots[i]) < bound {
        PickFromLeast(algo, slots, prot, limit, i + 1, Some(i), Key(algo, slots[i]));
      } else {
        PickFromLeast(algo, slots, prot, limit, i + 1, best, bound);
      }
    }
  }

  function Next(pos: nat, n: nat): (r: nat)
    requires pos < n
    ensures r == if pos + 1 == n then 0 else pos + 1
  {
    (pos + 1) % n
  }

  /** evict_LRU's loop with k turns left: a set reference bit is cleared and
      spares its file, the first clear one names the victim. */
  function Sweep(slots: seq<Slot>, prot: Name, pos: nat, k: nat): (r: (seq<Slot>, Option<nat>))
    requires pos < |slots|
    ensures |r.0| == |slots| && (r.1.Some? ==> r.1.value < |slots|)
    decreases k
  {
    if k == 0 then (slots, None)
    else if !Eligible(slots[pos], prot) then Sweep(slots, prot, Next(pos, |slots|), k - 1)
    else if slots[pos].used then
      Sweep(slots[pos := slots[pos].(used := false)], prot, Next(pos, |slots|), k - 1)
    else (slots, Some(pos))
  }

  /** How many turns the clock hand needs from pos to i. */
  function Distance(pos: nat, i: nat, n: nat): nat
    requires pos < n && i < n
  {
    if i >= pos then i - pos else i + n - pos
  }

  /** A sweep of at most one revolution in closed form: the victim is the first
      eligible file with a clear bit in clock order, and exactly the eligible
      files the hand passed before it lost their bits. */
  ghost predicate SweepResult(slots: seq<Slot>, prot: Name, pos: nat, k: nat, after: seq<Slot>, victim: Option<nat>)
    requires pos < |slots|
  {
    && |after| == |slots|
    && (victim.Some? ==>
          victim.value < |slots| && Eligible(slots[victim.value], prot) && !slots[victim.value].used &&
          Distance(pos, victim.value, |slots|) < k)
    && var stop := if victim.Some? then Distance(pos, victim.value, |slots|) else k;
       forall i :: 0 <= i < |slots| ==>
         if Distance(pos, i, |slots|) < stop && Eligible(slots[i], prot) then
           slots[i].used && after[i] == slots[i].(used := false)
         else
           after[i] == slots[i]
  }

  /** One turn of the hand in front of a shorter sweep. */
  lemma SweepTurn(
    slots: seq<Slot>, prot: Name, pos: nat, k: nat, passed: Slot, after: seq<Slot>, victim: Option<nat>)
    requires pos < |slots| && 0 < k <= |slots|
    requires if Eligible(slots[pos], prot) then slots[pos].used && passed == slots[pos].(used := false)
             else passed == slots[pos]
    requires SweepResult(slots[pos := passed], prot, Next(pos, |slots|), k - 1, after, victim)
    ensures SweepResult(slots, prot, pos, k, after, victim)
  {
    var n, next := |slots|, Next(pos, |slots|);
    var stop := if victim.Some? then Distance(next, victim.value, n) else k - 1;
    assert Distance(next, pos, n) == n - 1 >= stop;
    forall i | 0 <= i < n && i != pos
      ensures Distance(pos, i, n) == Distance(next, i, n) + 1
    {
    }
    assert victim.Some? ==> victim.value != pos;
  }

  lemma {:induction false} SweepClosedForm(slots: seq<Slot>, prot: Name, pos: nat, k: nat)
    requires pos < |slots| && k <= |slots|
    ensures var (after, victim) := Sweep(slots, prot, pos, k);
            SweepResult(slots, prot, pos, k, after, victim)
    decreases k
  {
    if k > 0 && (!Eligible(slots[pos], prot) || slots[pos].used) {
      var passed := if Eligible(slots[pos], prot) then slots[pos].(used := false) else slots[pos];
      var turned := slots[pos := passed];
      assert !Eligible(slots[pos], prot) ==> turned == slots;
      SweepClosedForm(turned, prot, Next(pos, |slots|), k - 1);
      var (after, victim) := Sweep(turned, prot, Next(pos, |slots|), k - 1);
      SweepTurn(slots, prot, pos, k, passed, after, victim);
    }
  }

  // ----------------------------------- one or two bounded sweeps = unbounded

  function Walk(pos: nat, k: nat, n: nat): (r: nat)
    requires pos < n
    ensures r < n
    decreases k
  {
    if k == 0 then pos else Walk(Next(pos, n), k - 1, n)
  }

  lemma {:induction false} WalkFrom(pos: nat, k: nat, n: nat)
    requires pos < n && k <= n
    ensures Walk(pos, k, n) == if pos + k < n then pos + k else pos + k - n
    decreases k
  {
    if k > 0 {
      assert Next(pos, n) == if pos + 1 == n then 0 else pos + 1;
      WalkFrom(Next(pos, n), k - 1, n);
    }
  }

  lemma {:induction false} SweepSplit(slots: seq<Slot>, prot: Name, pos: nat, a: nat, b: nat)
    requires pos < |slots|
    ensures Sweep(slots, prot, pos, a + b) ==
            var (after, victim) := Sweep(slots, prot, pos, a);
            if victim.Some? then (after, victim) else Sweep(after, prot, Walk(pos, a, |slots|), b)
    decreases a
  {
    if a > 0 {
      if !Eligible(slots[pos], prot) {
        SweepSplit(slots, prot, Next(pos, |slots|), a - 1, b);
      } else if slots[pos].used {
        SweepSplit(slots[pos := slots[pos].(used := false)], prot, Next(pos, |slots|), a - 1, b);
      }
    }
  }

  /** Where the hand of a sweep of k turns ends up: past its victim, or past all it
      looked at. */
  function Hand(slots: seq<Slot>, prot: Name, pos: nat, k: nat): (r: nat)
    requires pos < |slots|
    ensures r < |slots|
    ensures var victim := Sweep(slots, prot, pos, k).1;
            r == if victim.Some? then Next(victim.value, |slots|) else Walk(pos, k, |slots|)
    decreases k
  {
    if k == 0 then pos
    else if !Eligible(slots[pos], prot) then Hand(slots, prot, Next(pos, |slots|), k - 1)
    else if slots[pos].used then
      Hand(slots[pos := slots[pos].(used := false)], prot, Next(pos, |slots|), k - 1)
    else Next(pos, |slots|)
  }

  /** Two calls of evict_LRU in a row, the second one only if the first found nobody. */
  function TwoSweeps(slots: seq<Slot>, prot: Name, pos: nat): (seq<Slot>, Option<nat>)
    requires pos < |slots|
  {
    var (after, victim) := Sweep(slots, prot, pos, |slots|);
    if victim.None? then Sweep(after, prot, pos, |slots|) else (after, victim)
  }

  /** Two bounded calls evict whenever an eligible file exists. */
  lemma TwoSweepsEvict(slots: seq<Slot>, prot: Name, pos: nat, e: nat)
    requires pos < |slots| && e < |slots| && Eligible(slots[e], prot)
    ensures TwoSweeps(slots, prot, pos).1.Some?
    ensures TwoSweeps(slots, prot, pos) == Sweep(slots, prot, pos, 2 * |slots|)
  {
    var n := |slots|;
    SweepClosedForm(slots, prot, pos, n);
    var (after, victim) := Sweep(slots, prot, pos, n);
    SweepSplit(slots, prot, pos, n, n);
    WalkFrom(pos, n, n);
    if victim.None? {
      assert Distance(pos, e, n) < n;
      assert Eligible(after[e], prot) && !after[e].used;
      SweepClosedForm(after, prot, pos, n);
    }
  }

  lemma SweepFindsEligible(slots: seq<Slot>, prot: Name, pos: nat, k: nat)
    requires pos < |slots| && Sweep(slots, prot, pos, k).1.Some?
    ensures exists e :: 0 <= e < |slots| && Eligible(slots[e], prot)
    decreases k
  {
    if Eligible(slots[pos], prot) {
    } else {
      SweepFindsEligible(slots, prot, Next(pos, |slots|), k - 1);
    }
  }

  /** An unbounded second-chance sweep is a sweep of whatever length k it takes to
      find somebody.  One call, or two when the first only clears bits, leaves the
      same victim and the same reference bits. */
  lemma BoundedSweepRefinesUnbounded(slots: seq<Slot>, prot: Name, pos: nat, k: nat)
    requires pos < |slots| && Sweep(slots, prot, pos, k).1.Some?
    ensures TwoSweeps(slots, prot, pos) == Sweep(slots, prot, pos, k)
  {
    SweepFindsEligible(slots, prot, pos, k);
    var e :| 0 <= e < |slots| && Eligible(slots[e], prot);
    TwoSweepsEvict(slots, prot, pos, e);
    if k <= 2 * |slots| {
      SweepSplit(slots, prot, pos, k, 2 * |slots| - k);
    } else {
      SweepSplit(slots, prot, pos, 2 * |slots|, k - 2 * |slots|);
    }
  }

  /** ... and conversely a stopping length exists exactly when somebody is eligible. */
  lemma UnboundedSweepStops(slots: seq<Slot>, prot: Name, pos: nat)
    requires pos < |slots|
    ensures (exists k :: Sweep(slots, prot, pos, k).1.Some?) <==>
            (exists e :: 0 <= e < |slots| && Eligible(slots[e], prot))
  {
    if k: nat :| Sweep(slots, prot, pos, k).1.Some? {
      SweepFindsEligible(slots, prot, pos, k);
    }
    if e :| 0 <= e < |slots| && Eligible(slots[e], prot) {
      TwoSweepsEvict(slots, prot, pos, e);
    }
  }

  // ------------------------------------------------------------ one eviction

  /** The slots after the search and the chosen victim. */
  function Victim(algo: Algorithm, slots: seq<Slot>, prot: Name, pos: nat, now: int): (r: (seq<Slot>, Option<nat>))
    requires pos < |slots|
    ensures |r.0| == |slots| && (r.1.Some? ==> r.1.value < |slots|)
  {
    match algo
    case FIFO => (slots, PickFrom(FIFO, slots, prot, 0, None, now))
    case LFU => (slots, PickFrom(LFU, slots, prot, 0, None, INT_MAX))
    case LRU => Sweep(slots, prot, pos, |slots|)
  }

  function FrameOf(s: Slot): Frame {
    Frame(s.name, Contents(s))
  }

  /** delete_evicted on slot v and what cache_miss makes of it.  The reply only
      carries a file whose content buffer is not NULL. */
  function EvictAt(cfg: Config, st: State, v: nat): (r: (State, Option<Frame>))
    requires v < |st.slots| && st.lruPos < |st.slots|
    ensures |r.0.slots| == |st.slots| && r.0.lruPos < |st.slots|
  {
    var s := st.slots[v];
    var after := st.(
      slots := st.slots[v := FREE],
      storage := st.storage - SizeOf(s),
      nfiles := st.nfiles - 1,
      lruPos := if cfg.algo == LRU then Next(v, |st.slots|) else st.lruPos);
    if Contents(s) == [] then (after, None) else (after.(misses := st.misses + 1), Some(FrameOf(s)))
  }

  /** cache_miss: at most one file leaves; None is the ECANCELED outcome. */
  function CacheMiss(cfg: Config, st: State, prot: Name, now: int): (r: (State, Option<Frame>))
    requires st.lruPos < |st.slots|
    ensures |r.0.slots| == |st.slots| && r.0.lruPos < |st.slots|
  {
    var (slots, victim) := Victim(cfg.algo, st.slots, prot, st.lruPos, now);
    var scanned := st.(slots := slots);
    if victim.None? then (scanned, None) else EvictAt(cfg, scanned, victim.value)
  }

  datatype LoopOutcome = Fits(st: State, shipped: seq<Frame>) | StillFull(st: State, shipped: seq<Frame>)

  /** do_cache_miss.  `times` are the values time(NULL) returns to successive
      turns of the loop from turn i on; StillFull is a loop that has not returned
      after using all of them. */
  function EvictLoop(
    cfg: Config, st: State, prot: Name, payload: nat, times: seq<int>, i: nat, shipped: seq<Frame>): (r: LoopOutcome)
    requires i <= |times| && st.lruPos < |st.slots|
    ensures |r.st.slots| == |st.slots| && r.st.lruPos < |st.slots|
    decreases |times| - i
  {
    if st.storage + payload <= cfg.maxStorage then Fits(st, shipped)
    else if i == |times| then StillFull(st, shipped)
    else
      var (after, frame) := CacheMiss(cfg, st, prot, times[i]);
      EvictLoop(cfg, after, prot, payload, times, i + 1, if frame.Some? then shipped + [frame.value] else shipped)
  }
}
