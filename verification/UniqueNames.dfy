/** Names of files are distinct under every schedule exactly for a server with one
    worker: the search for a name and the creation of the file are separate steps. */
module UniqueNames {
  import opened Basics
  import opened Slots
  import opened Table
  import opened Interleaved
  import opened InterleavedProofs
  import opened Schedules

  predicate NowhereBefore(slots: seq<Slot>, name: Name, n: nat) {
    n <= |slots| && forall j :: 0 <= j < n ==> !Holds(slots[j], name)
  }

  /** What a worker has found out about names is still so. */
  predicate SearchGood(slots: seq<Slot>, p: Worker) {
    && (p.Searching? ==> NowhereBefore(slots, p.name, p.next))
    && (p.Absent? ==> NowhereBefore(slots, p.name, |slots|))
  }

  ghost predicate SoloInv(w: World) {
    && Distinct(w.slots)
    && |w.workers| <= 1 && forall t :: 0 <= t < |w.workers| ==> SearchGood(w.slots, w.workers[t])
  }

  /** An effect that brings no name into a slot that did not have it, unless it is a
      creation, and leaves what the worker knows about names right. */
  predicate NamesGood(w: World, p: Worker, a: Action, e: Option<Effect>) {
    e.Some? && e.value.slot < |w.slots| ==>
      var s, to, q := w.slots[e.value.slot], e.value.to, e.value.worker;
      && (Exists(to) ==> (Exists(s) && to.name == s.name) || (p.Absent? && a.CreateAt? && to.name == p.name))
      && (q.Searching? || q.Absent? ==> to == s && (SearchGood(w.slots, p) ==> SearchGood(w.slots, q)))
  }

  lemma IdleNames(capacity: nat, w: World, a: Action)
    requires |w.slots| > 0
    ensures NamesGood(w, Idle, a, FromIdle(capacity, w, a))
  {
  }

  lemma CreatingNames(w: World, p: Worker, a: Action)
    requires |w.slots| > 0
    ensures NamesGood(w, p, a, FromCreating(w, p, a))
  {
  }

  lemma SettlingNames(w: World, p: Worker, a: Action)
    requires |w.slots| > 0
    ensures NamesGood(w, p, a, FromSettling(w, p, a))
  {
  }

  lemma EvictingNames(w: World, p: Worker, a: Action)
    requires |w.slots| > 0
    ensures NamesGood(w, p, a, FromEvicting(w, p, a))
  {
  }

  lemma JobNames(capacity: nat, w: World, p: Worker, a: Action)
    requires |w.slots| > 0
    ensures NamesGood(w, p, a, FromJob(capacity, w, p, a))
  {
  }

  lemma ActionNames(capacity: nat, w: World, p: Worker, a: Action)
    ensures NamesGood(w, p, a, EffectOf(capacity, w, p, a))
  {
    if |w.slots| > 0 {
      IdleNames(capacity, w, a);
      CreatingNames(w, p, a);
      SettlingNames(w, p, a);
      EvictingNames(w, p, a);
      JobNames(capacity, w, p, a);
    }
  }

  lemma SoloStep(capacity: nat, w: World, t: nat, a: Action)
    requires SoloInv(w) && Step(capacity, w, t, a).Some?
    ensures SoloInv(Step(capacity, w, t, a).value)
  {
    var p, v := w.workers[t], Step(capacity, w, t, a).value;
    var e := EffectOf(capacity, w, p, a).value;
    ActionNames(capacity, w, p, a);
    if e.to == w.slots[e.slot] {
      assert v.slots == w.slots;
    }
    forall j | 0 <= j < |w.slots| && j != e.slot && Exists(w.slots[j]) && Exists(e.to)
      ensures w.slots[j].name != e.to.name
    {
      if p.Absent? && e.to.name == p.name {
        assert !Holds(w.slots[j], p.name);
      }
    }
  }

  lemma {:induction false} SoloRun(capacity: nat, files: nat, workers: nat, moves: seq<Move>, w: World)
    requires Reachable(capacity, files, workers, moves, w) && workers <= 1
    ensures SoloInv(w)
  {
    if |moves| > 0 {
      var past, m := moves[..|moves| - 1], moves[|moves| - 1];
      var before := Play(capacity, Start(files, workers), past).value;
      SoloRun(capacity, files, workers, past, before);
      SoloStep(capacity, before, m.worker, m.action);
    }
  }

  /** Two workers search for the same name before either of them creates the file. */
  lemma SameNameTwice(capacity: nat, files: nat, workers: nat) returns (moves: seq<Move>, w: World)
    requires files >= 2 && workers >= 2
    ensures Reachable(capacity, files, workers, moves, w) && !Distinct(w.slots)
  {
    var g, name, start := Game(capacity, {0, 1}), [1], Start(files, workers);
    var file := NewFile(name, OWNER_NULL, 0);
    var one := At(start, 0, Absent(name));
    var two := At(one, 1, Absent(name));
    Sought(g, start, 0, name);
    Sought(g, one, 1, name);
    LeadsOn(g, start, one, two);
    var three := At(two, 0, Idle).(slots := two.slots[0 := file], nfiles := 1, peakFiles := 1);
    Creating(g, two, 0, name, 0, OWNER_NULL, 0);
    LeadsOn(g, start, two, three);
    w := At(three, 1, Idle).(slots := three.slots[1 := file], nfiles := 2, peakFiles := 2);
    Creating(g, three, 1, name, 1, OWNER_NULL, 0);
    LeadsOn(g, start, three, w);
    moves := LeadsPlays(g, start, w);
    assert w.slots[0] == w.slots[1] == file;
  }

  ghost predicate AlwaysDistinct(capacity: nat, files: nat, workers: nat) {
    forall moves, w :: Reachable(capacity, files, workers, moves, w) ==> Distinct(w.slots)
  }

  /** No two files ever have the same name, under any schedule, if and only if there
      is at most one worker (or room for one file only). */
  lemma NamesDistinctExactly(capacity: nat, files: nat, workers: nat)
    requires files > 0
    ensures AlwaysDistinct(capacity, files, workers) <==> workers <= 1 || files == 1
  {
    forall moves, w | Reachable(capacity, files, workers, moves, w) && (workers <= 1 || files == 1)
      ensures Distinct(w.slots)
    {
      if workers <= 1 {
        SoloRun(capacity, files, workers, moves, w);
      } else {
        ReachableInv(capacity, files, workers, moves, w);
      }
    }
    if workers >= 2 && files >= 2 {
      var moves, w := SameNameTwice(capacity, files, workers);
    }
  }
}
