/** The slot table: the two searches of src/source/worker/worker_generics.c, the
    totals the shared state keeps about it, and the map from names to bytes that
    it stands for. */
module Table {
  import opened Basics
  import opened Slots

  predicate Holds(s: Slot, name: Name) {
    Exists(s) && s.name == name
  }

  /** get_file from slot i on: the first existing slot with this name. */
  function FindFrom(slots: seq<Slot>, name: Name, i: nat): (r: Option<nat>)
    requires i <= |slots|
    ensures r.Some? ==>
              i <= r.value < |slots| && Holds(slots[r.value], name) &&
              forall j :: i <= j < r.value ==> !Holds(slots[j], name)
    ensures r.None? ==> forall j :: i <= j < |slots| ==> !Holds(slots[j], name)
    decreases |slots| - i
  {
    if i == |slots| then None
    else if Holds(slots[i], name) then Some(i)
    else FindFrom(slots, name, i + 1)
  }

  function Find(slots: seq<Slot>, name: Name): Option<nat> {
    FindFrom(slots, name, 0)
  }

  /** get_empty_slot from slot i on: the first slot that holds no file. */
  function FreeFrom(slots: seq<Slot>, i: nat): (r: Option<nat>)
    requires i <= |slots|
    ensures r.Some? ==>
              i <= r.value < |slots| && !Exists(slots[r.value]) && forall j :: i <= j < r.value ==> Exists(slots[j])
    ensures r.None? ==> forall j :: i <= j < |slots| ==> Exists(slots[j])
    decreases |slots| - i
  {
    if i == |slots| then None
    else if !Exists(slots[i]) then Some(i)
    else FreeFrom(slots, i + 1)
  }

  function Size(s: Slot): int {
    SizeOf(s)
  }

  function One(s: Slot): int {
    if Exists(s) then 1 else 0
  }

  /** What current_storage and current_files should be. */
  function Total(slots: seq<Slot>): int {
    Sum(slots, Size)
  }

  function Count(slots: seq<Slot>): int {
    Sum(slots, One)
  }

  lemma TotalsUpdate(slots: seq<Slot>, i: nat, s: Slot)
    requires i < |slots|
    ensures Total(slots[i := s]) == Total(slots) - SizeOf(slots[i]) + SizeOf(s)
    ensures Count(slots[i := s]) == Count(slots) - One(slots[i]) + One(s)
  {
    SumUpdate(slots, i, s, Size);
    SumUpdate(slots, i, s, One);
  }

  ghost predicate Distinct(slots: seq<Slot>) {
    forall i, j :: 0 <= i < j < |slots| && Exists(slots[i]) && Exists(slots[j]) ==> slots[i].name != slots[j].name
  }

  ghost predicate AllCoherent(slots: seq<Slot>) {
    forall i :: 0 <= i < |slots| ==> Coherent(slots[i])
  }

  ghost predicate WellFormed(slots: seq<Slot>) {
    AllCoherent(slots) && Distinct(slots)
  }

  /** The map the table implements: the bytes stored under a name, if any. */
  function FileAt(slots: seq<Slot>, name: Name): Option<Bytes> {
    match Find(slots, name)
    case None => None
    case Some(i) => Some(Contents(slots[i]))
  }

  lemma FindIs(slots: seq<Slot>, i: nat, n: Name)
    requires i < |slots| && Holds(slots[i], n)
    requires forall j :: 0 <= j < i ==> !Holds(slots[j], n)
    ensures Find(slots, n) == Some(i)
  {
    assert Find(slots, n).Some?;
  }

  lemma FindUnique(slots: seq<Slot>, i: nat)
    requires Distinct(slots) && i < |slots| && Exists(slots[i])
    ensures Find(slots, slots[i].name) == Some(i)
  {
    assert Holds(slots[i], slots[i].name);
    FindIs(slots, i, slots[i].name);
  }

  /** The search looks at nothing but which slots hold the name. */
  lemma SameFind(a: seq<Slot>, b: seq<Slot>, n: Name)
    requires |a| == |b|
    requires forall i :: 0 <= i < |a| ==> Holds(a[i], n) == Holds(b[i], n)
    ensures Find(a, n) == Find(b, n)
  {
    var r := Find(a, n);
    if r.Some? {
      FindIs(b, r.value, n);
    }
  }

  /** Every file of the one table is in the other at the same place. */
  ghost predicate SameFiles(a: seq<Slot>, b: seq<Slot>) {
    |a| == |b| && forall i :: 0 <= i < |a| ==> SameFile(a[i], b[i])
  }

  lemma SameFilesKeep(a: seq<Slot>, b: seq<Slot>)
    requires SameFiles(a, b)
    ensures Total(a) == Total(b) && Count(a) == Count(b)
    ensures WellFormed(a) ==> WellFormed(b)
    ensures forall n :: Find(a, n) == Find(b, n) && FileAt(a, n) == FileAt(b, n)
  {
    SumAgree(a, b, Size);
    SumAgree(a, b, One);
    forall n ensures Find(a, n) == Find(b, n) && FileAt(a, n) == FileAt(b, n) {
      SameFind(a, b, n);
    }
  }

  lemma SameFileUpdate(slots: seq<Slot>, i: nat, s: Slot)
    requires i < |slots| && AllCoherent(slots) && SameFile(slots[i], s)
    ensures SameFiles(slots, slots[i := s])
  {
  }

  /** New contents under an existing name change the map at that name alone. */
  lemma ContentUpdate(slots: seq<Slot>, i: nat, s: Slot)
    requires WellFormed(slots) && i < |slots|
    requires Exists(slots[i]) && Exists(s) && s.name == slots[i].name && Coherent(s)
    ensures WellFormed(slots[i := s])
    ensures forall n :: Find(slots[i := s], n) == Find(slots, n)
    ensures forall n :: FileAt(slots[i := s], n) == if n == s.name then Some(Contents(s)) else FileAt(slots, n)
  {
    FindUnique(slots, i);
    forall n
      ensures Find(slots[i := s], n) == Find(slots, n)
      ensures FileAt(slots[i := s], n) == if n == s.name then Some(Contents(s)) else FileAt(slots, n)
    {
      SameFind(slots[i := s], slots, n);
      if n != s.name && Find(slots, n).Some? {
        assert Find(slots, n).value != i;
      }
    }
  }

  /** Freeing a slot takes its name, and no other, out of the map. */
  lemma RemovalUpdate(slots: seq<Slot>, i: nat)
    requires WellFormed(slots) && i < |slots| && Exists(slots[i])
    ensures WellFormed(slots[i := FREE])
    ensures forall n :: Find(slots[i := FREE], n) == if n == slots[i].name then None else Find(slots, n)
    ensures forall n :: FileAt(slots[i := FREE], n) == if n == slots[i].name then None else FileAt(slots, n)
  {
    var after := slots[i := FREE];
    FindUnique(slots, i);
    forall n
      ensures Find(after, n) == if n == slots[i].name then None else Find(slots, n)
      ensures FileAt(after, n) == if n == slots[i].name then None else FileAt(slots, n)
    {
      if n == slots[i].name {
        assert forall j :: 0 <= j < |slots| ==> !Holds(after[j], n);
      } else {
        SameFind(after, slots, n);
        assert Find(slots, n).Some? ==> Find(slots, n).value != i;
      }
    }
  }

  /** Filling a free slot under a new name adds that name, and no other, to the map. */
  lemma CreationUpdate(slots: seq<Slot>, i: nat, s: Slot)
    requires WellFormed(slots) && i < |slots| && !Exists(slots[i])
    requires Exists(s) && Coherent(s) && Find(slots, s.name) == None
    ensures WellFormed(slots[i := s])
    ensures forall n :: Find(slots[i := s], n) == if n == s.name then Some(i) else Find(slots, n)
    ensures forall n :: FileAt(slots[i := s], n) == if n == s.name then Some(Contents(s)) else FileAt(slots, n)
  {
    var after := slots[i := s];
    assert forall j :: 0 <= j < |slots| ==> !Holds(slots[j], s.name);
    assert WellFormed(after);
    FindUnique(after, i);
    forall n
      ensures Find(after, n) == if n == s.name then Some(i) else Find(slots, n)
      ensures FileAt(after, n) == if n == s.name then Some(Contents(s)) else FileAt(slots, n)
    {
      if n != s.name {
        SameFind(after, slots, n);
        assert Find(slots, n).Some? ==> Find(slots, n).value != i;
      }
    }
  }
}
