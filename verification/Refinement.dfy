/** One request at a time, the server is a map from names to bytes: every request
    changes that map as its reply says, keeps the totals exact, and touches no slot
    that belongs to another client, except that eviction may take a whole file. */
module Refinement {
  import opened Basics
  import opened Slots
  import opened Table
  import opened ServerState
  import opened Eviction
  import opened EvictionProofs
  import opened Requests

  /** Between two requests a closed file belongs to nobody. */
  predicate Settled(s: Slot) {
    Exists(s) && s.working.None? ==> s.owner == OWNER_NULL
  }

  ghost predicate SlotsOk(cfg: Config, st: State) {
    && Tidy(st)
    && st.storage <= cfg.maxStorage
    && forall i :: 0 <= i < |st.slots| ==> Settled(st.slots[i])
  }

  /** Nobody's slot, or the client's own. */
  predicate Mine(c: int, s: Slot) {
    s.owner == OWNER_NEXIST || s.owner == OWNER_NULL || s.owner == c
  }

  /** The only ways a request of client c may change a slot: not at all but for
      its reference bit, by evicting and shipping it whole, or because it is free to
      c; a file that stays keeps its name and its time of creation. */
  predicate Allowed(c: int, s: Slot, t: Slot, shipped: seq<Frame>) {
    || Kept(s, t)
    || (t == FREE && SizeOf(s) > 0 && FrameOf(s) in shipped)
    || (Mine(c, s) && Mine(c, t) && Settled(t) && SameBirth(s, t))
  }

  predicate SameBirth(s: Slot, t: Slot) {
    Exists(s) && Exists(t) ==> s.name == t.name && s.created == t.created
  }

  ghost predicate AllAllowed(c: int, a: seq<Slot>, b: seq<Slot>, shipped: seq<Frame>) {
    |a| == |b| && forall i :: 0 <= i < |a| ==> Allowed(c, a[i], b[i], shipped)
  }

  /** What a reply says about the file called n: evicted files are gone, a created
      file is empty, a written one holds the payload, an appended one ends with it,
      a removed one is gone, and nothing else changes any file. */
  function After(before: Option<Bytes>, n: Name, req: Request, reply: Reply): Option<Bytes> {
    var kept := if Shipped(reply.shipped, n) then None else before;
    if reply.status != Success then kept
    else
      match req
      case OpenFile(name, create, _) => if create && name == n then Some([]) else kept
      case WriteFile(name, payload) => if name == n then Some(payload) else kept
      case AppendFile(name, payload) => if name == n then Some(kept.GetOr([]) + payload) else kept
      case RemoveFile(name) => if name == n then None else kept
      case _ => kept
  }

  ghost predicate Refines(a: seq<Slot>, b: seq<Slot>, req: Request, reply: Reply) {
    forall n :: FileAt(b, n) == After(FileAt(a, n), n, req, reply)
  }

  /** Every frame is a file as it was stored, whole. */
  ghost predicate Whole(slots: seq<Slot>, shipped: seq<Frame>) {
    forall f :: f in shipped ==> FileAt(slots, f.name) == Some(f.bytes)
  }

  /** What a handler that returns guarantees about the slot table. */
  ghost predicate Sound(cfg: Config, c: int, st: State, req: Request, out: Outcome) {
    out.Returned? ==>
      && SlotsOk(cfg, out.st)
      && AllAllowed(c, st.slots, out.st.slots, out.reply.shipped)
      && Refines(st.slots, out.st.slots, req, out.reply)
      && Whole(st.slots, out.reply.shipped)
  }

  // -------------------------------------------- requests that change no file

  lemma QuietStep(cfg: Config, st: State, c: int, f: nat, s: Slot)
    requires SlotsOk(cfg, st) && f < |st.slots| && c != OWNER_ADMIN
    requires SameFile(st.slots[f], s)
    requires s == st.slots[f] || (Mine(c, st.slots[f]) && Mine(c, s) && Settled(s) && SameBirth(st.slots[f], s))
    ensures SlotsOk(cfg, st.(slots := st.slots[f := s]))
    ensures AllAllowed(c, st.slots, st.slots[f := s], [])
    ensures forall n :: FileAt(st.slots[f := s], n) == FileAt(st.slots, n)
  {
    SameFileUpdate(st.slots, f, s);
    SameFilesKeep(st.slots, st.slots[f := s]);
  }

  /** The slot the name search finds, as it is in another state of the table. */
  function SlotOf(slots: seq<Slot>, name: Name, later: seq<Slot>): Option<Slot>
    requires |later| == |slots|
  {
    match Find(slots, name)
    case None => None
    case Some(f) => Some(later[f])
  }

  /** An open succeeds on a file nobody owns or, asking for the lock, on one's own;
      the file is then open, and locked exactly if that was asked for. */
  lemma OpenSound(cfg: Config, st: State, c: int, name: Name, lock: bool, req: Request)
    requires SlotsOk(cfg, st) && c > 0 && c != OWNER_ADMIN
    requires req == OpenFile(name, false, lock)
    ensures Sound(cfg, c, st, req, DoOpenExisting(st, name, if lock then c else OWNER_NULL))
    ensures var out := DoOpenExisting(st, name, if lock then c else OWNER_NULL);
            var s, t := SlotOf(st.slots, name, st.slots), SlotOf(st.slots, name, out.st.slots);
            && (out.reply.status == Success <==>
                  s.Some? && (s.value.owner == OWNER_NULL || (lock && s.value.owner == c)))
            && (out.reply.status == Success ==>
                  t.value.working.Some? && t.value.owner == if lock then c else OWNER_NULL)
            && (out.reply.status == NotExists <==> s.None?)
  {
    var f := Find(st.slots, name);
    if f.Some? {
      QuietOperations(st.slots[f.value], if lock then c else OWNER_NULL);
      QuietStep(cfg, st, c, f.value, Open(st.slots[f.value], if lock then c else OWNER_NULL).0);
    }
  }

  /** A close succeeds on a file that nobody else owns, and leaves it closed and unowned. */
  lemma CloseSound(cfg: Config, st: State, c: int, name: Name)
    requires SlotsOk(cfg, st) && c > 0 && c != OWNER_ADMIN
    ensures Sound(cfg, c, st, CloseFile(name), DoClose(st, c, name))
    ensures var out := DoClose(st, c, name);
            var s, t := SlotOf(st.slots, name, st.slots), SlotOf(st.slots, name, out.st.slots);
            && (out.reply.status == Success <==> s.Some? && Mine(c, s.value))
            && (out.reply.status == Success ==> t.value.working.None? && t.value.owner == OWNER_NULL)
  {
    var f := Find(st.slots, name);
    if f.Some? {
      assert Settled(st.slots[f.value]);
      QuietOperations(st.slots[f.value], c);
      QuietStep(cfg, st, c, f.value, Close(st.slots[f.value], c).0);
    }
  }

  /** A lock succeeds on an open file that nobody else owns, and makes it the client's. */
  lemma LockSound(cfg: Config, st: State, c: int, name: Name)
    requires SlotsOk(cfg, st) && c > 0 && c != OWNER_ADMIN
    ensures Sound(cfg, c, st, LockFile(name), DoLock(st, c, name))
    ensures var out := DoLock(st, c, name);
            var s, t := SlotOf(st.slots, name, st.slots), SlotOf(st.slots, name, out.st.slots);
            && (out.reply.status == Success <==> s.Some? && Mine(c, s.value) && s.value.working.Some?)
            && (out.reply.status == Success ==> t.value.working.Some? && t.value.owner == c)
  {
    var f := Find(st.slots, name);
    if f.Some? {
      QuietOperations(st.slots[f.value], c);
      QuietStep(cfg, st, c, f.value, Lock(st.slots[f.value], c).0);
    }
  }

  /** An unlock succeeds for the owner of an open file alone, and leaves it unowned. */
  lemma UnlockSound(cfg: Config, st: State, c: int, name: Name)
    requires SlotsOk(cfg, st) && c > 0 && c != OWNER_ADMIN
    ensures Sound(cfg, c, st, UnlockFile(name), DoUnlock(st, c, name))
    ensures var out := DoUnlock(st, c, name);
            var s, t := SlotOf(st.slots, name, st.slots), SlotOf(st.slots, name, out.st.slots);
            && (out.reply.status == Success <==> s.Some? && s.value.owner == c)
            && (out.reply.status == Success ==> t.value.working.Some? && t.value.owner == OWNER_NULL)
  {
    var f := Find(st.slots, name);
    if f.Some? {
      assert Settled(st.slots[f.value]);
      QuietOperations(st.slots[f.value], c);
      QuietStep(cfg, st, c, f.value, Unlock(st.slots[f.value], c).0);
    }
  }

  /** A successful read answers exactly the bytes stored under the name. */
  lemma ReadSound(cfg: Config, st: State, c: int, name: Name)
    requires SlotsOk(cfg, st) && c > 0 && c != OWNER_ADMIN
    ensures Sound(cfg, c, st, ReadFile(name), DoRead(st, c, name))
    ensures var reply := DoRead(st, c, name).reply;
            if reply.status == Success then FileAt(st.slots, name) == Some(reply.bytes) else reply.bytes == []
    ensures var s := SlotOf(st.slots, name, st.slots);
            DoRead(st, c, name).reply.status == Success <==> s.Some? && Mine(c, s.value) && s.value.working.Some?
  {
    var f := Find(st.slots, name);
    if f.Some? {
      QuietOperations(st.slots[f.value], c);
      QuietStep(cfg, st, c, f.value, Read(st.slots[f.value], c).0);
    }
  }

  // ---------------------------------------------------- reading n files at once

  predicate MayRead(s: Slot, c: int) {
    Exists(s) && Mine(c, s)
  }

  /** The files client c may read, in slot order. */
  function ReadableIn(slots: seq<Slot>, c: int): seq<Frame> {
    if |slots| == 0 then []
    else
      var s := slots[|slots| - 1];
      ReadableIn(slots[..|slots| - 1], c) + if MayRead(s, c) then [FrameOf(s)] else []
  }

  /** The first n of them; all of them if n is not positive. */
  function FirstReadable(slots: seq<Slot>, c: int, n: int): seq<Frame> {
    var all := ReadableIn(slots, c);
    if n <= 0 || |all| <= n then all else all[..n]
  }

  /** Slot i is looked at before n files have been read. */
  predicate Visited(slots: seq<Slot>, c: int, n: int, i: nat)
    requires i <= |slots|
  {
    n <= 0 || |ReadableIn(slots[..i], c)| < n
  }

  /** Visited, open and nobody's: such a file becomes the reader's. */
  predicate TakenOver(slots: seq<Slot>, c: int, n: int, i: nat)
    requires i < |slots|
  {
    Visited(slots, c, n, i) && Exists(slots[i]) && slots[i].owner == OWNER_NULL && slots[i].working.Some?
  }

  lemma ReadableMore(slots: seq<Slot>, c: int, i: nat)
    requires i < |slots|
    ensures ReadableIn(slots[..i + 1], c) ==
            ReadableIn(slots[..i], c) + if MayRead(slots[i], c) then [FrameOf(slots[i])] else []
  {
    assert slots[..i + 1][..i] == slots[..i];
  }

  lemma {:induction false} ReadableGrows(slots: seq<Slot>, c: int, i: nat, j: nat)
    requires i <= j <= |slots|
    ensures ReadableIn(slots[..i], c) <= ReadableIn(slots[..j], c)
    decreases j - i
  {
    if i < j {
      ReadableMore(slots, c, i);
      ReadableGrows(slots, c, i + 1, j);
    }
  }

  /** A slot after c has read it: it counts two uses, a third one if it had to be
      opened and was closed again, and if it was open it belongs to the reader now.
      An open file stays open and a closed one closed. */
  function Perused(s: Slot, c: int): Slot {
    if !MayRead(s, c) then s
    else if s.working.Some? then s.(owner := c, freq := s.freq + 2, used := true)
    else s.(freq := s.freq + 3, used := true)
  }

  /** A slot after readN has been past it. */
  function PassedBy(slots: seq<Slot>, c: int, n: int, i: nat): Slot
    requires i < |slots|
  {
    if Visited(slots, c, n, i) then Perused(slots[i], c) else slots[i]
  }

  /** What readN does to one slot of a settled table. */
  lemma ReadNSlotExactly(s: Slot, c: int)
    requires Coherent(s) && Settled(s) && c > 0
    ensures ReadNSlot(s, c) == (Perused(s, c), if MayRead(s, c) then Some(Contents(s)) else None, 0)
  {
  }

  lemma ReadNTurn(slots: seq<Slot>, c: int, n: int, i: nat, files: seq<Frame>)
    requires i < |slots| && (n <= 0 || |files| < n) && Coherent(slots[i]) && Settled(slots[i]) && c > 0
    ensures ReadNFrom(slots, c, n, i, files, 0) ==
            ReadNFrom(slots[i := Perused(slots[i], c)], c, n, i + 1,
                      files + if MayRead(slots[i], c) then [FrameOf(slots[i])] else [], 0)
  {
    ReadNSlotExactly(slots[i], c);
    assert files + [] == files;
  }

  /** Behind the n-th file nothing is visited any more. */
  lemma NoMoreVisits(a: seq<Slot>, c: int, n: int, i: nat)
    requires i <= |a| && (n <= 0 || |ReadableIn(a[..i], c)| <= n) && (i == |a| || !Visited(a, c, n, i))
    ensures ReadableIn(a[..i], c) == FirstReadable(a, c, n)
    ensures forall j: nat :: i <= j < |a| ==> PassedBy(a, c, n, j) == a[j]
  {
    ReadableGrows(a, c, i, |a|);
    assert a[..|a|] == a;
    forall j: nat | i <= j < |a| ensures !Visited(a, c, n, j) {
      ReadableGrows(a, c, i, j);
    }
  }

  /** The loop in closed form. */
  lemma {:induction false} ReadNClosedForm(a: seq<Slot>, now: seq<Slot>, c: int, n: int, i: nat)
    requires AllCoherent(a) && (forall j :: 0 <= j < |a| ==> Settled(a[j])) && c > 0 && i <= |a| == |now|
    requires n <= 0 || |ReadableIn(a[..i], c)| <= n
    requires forall j: nat :: j < |a| ==> now[j] == if j < i then PassedBy(a, c, n, j) else a[j]
    ensures var (after, sent, diff) := ReadNFrom(now, c, n, i, ReadableIn(a[..i], c), 0);
            && |after| == |a| && sent == FirstReadable(a, c, n) && diff == 0
            && forall j: nat :: j < |a| ==> after[j] == PassedBy(a, c, n, j)
    decreases |a| - i
  {
    if i < |a| && Visited(a, c, n, i) {
      assert Coherent(a[i]) && Settled(a[i]) && now[i] == a[i];
      ReadNTurn(now, c, n, i, ReadableIn(a[..i], c));
      ReadableMore(a, c, i);
      ReadNClosedForm(a, now[i := PassedBy(a, c, n, i)], c, n, i + 1);
    } else {
      NoMoreVisits(a, c, n, i);
    }
  }

  /** The frame holds a file that was there, whole, and was the client's to read. */
  ghost predicate Readable(slots: seq<Slot>, c: int, f: Frame) {
    exists i :: 0 <= i < |slots| && Exists(slots[i]) && Mine(c, slots[i]) && FrameOf(slots[i]) == f
  }

  /** A table reached from st0 without changing any file. */
  ghost predicate QuietSince(cfg: Config, st0: State, slots: seq<Slot>, c: int) {
    SlotsOk(cfg, st0.(slots := slots)) && SameFiles(st0.slots, slots) && AllAllowed(c, st0.slots, slots, [])
  }

  /** A slot that c may use, and has used without changing the file in it. */
  predicate QuietlyUsed(c: int, s: Slot, t: Slot) {
    SameFile(s, t) && Settled(t) && t.owner != OWNER_ADMIN && SameBirth(s, t) && (t == s || (Mine(c, s) && Mine(c, t)))
  }

  lemma QuietEverywhere(cfg: Config, st: State, after: seq<Slot>, c: int)
    requires SlotsOk(cfg, st) && |after| == |st.slots|
    requires forall i :: 0 <= i < |after| ==> QuietlyUsed(c, st.slots[i], after[i])
    ensures QuietSince(cfg, st, after, c)
  {
    SameFilesKeep(st.slots, after);
  }

  lemma {:induction false} ReadableAre(slots: seq<Slot>, c: int)
    ensures forall f :: f in ReadableIn(slots, c) ==> Readable(slots, c, f)
  {
    if |slots| > 0 {
      var fewer := slots[..|slots| - 1];
      ReadableAre(fewer, c);
      forall f | f in ReadableIn(slots, c) ensures Readable(slots, c, f) {
        if f in ReadableIn(fewer, c) {
          var i :| 0 <= i < |fewer| && Exists(fewer[i]) && Mine(c, fewer[i]) && FrameOf(fewer[i]) == f;
          assert slots[i] == fewer[i];
        }
      }
    }
  }

  lemma PassingIsQuiet(cfg: Config, st: State, after: seq<Slot>, c: int, n: int)
    requires SlotsOk(cfg, st) && c > 0 && c != OWNER_ADMIN && |after| == |st.slots|
    requires forall i: nat :: i < |st.slots| ==> after[i] == PassedBy(st.slots, c, n, i)
    ensures QuietSince(cfg, st, after, c)
  {
    forall i: nat | i < |st.slots| ensures QuietlyUsed(c, st.slots[i], after[i]) {
      assert Coherent(st.slots[i]) && Settled(st.slots[i]);
    }
    QuietEverywhere(cfg, st, after, c);
  }

  /** What readN answers and does: the first n files the client may read, whole and in
      slot order; a file changes hands if and only if it was visited, open and nobody's,
      and then it is the client's; none is left open that was closed. */
  ghost predicate ReadsExactly(st: State, c: int, n: int, out: Outcome) {
    && out.Returned? && !out.failed && out.reply == Answer(Success).(files := FirstReadable(st.slots, c, n))
    && out.st == st.(slots := out.st.slots) && |out.st.slots| == |st.slots|
    && forall i: nat :: i < |st.slots| ==>
         var s, t := st.slots[i], out.st.slots[i];
         && t == PassedBy(st.slots, c, n, i)
         && (t.working.Some? <==> s.working.Some?)
         && t.owner == if TakenOver(st.slots, c, n, i) then c else s.owner
  }

  lemma ReadNOutcome(cfg: Config, st: State, c: int, n: int)
    requires SlotsOk(cfg, st) && c > 0
    ensures ReadsExactly(st, c, n, DoReadN(st, c, n))
  {
    ReadNClosedForm(st.slots, st.slots, c, n, 0);
    assert st.slots[..0] == [];
  }

  /** Reading n files changes none of them, besides doing exactly that. */
  lemma ReadNSound(cfg: Config, st: State, c: int, n: int)
    requires SlotsOk(cfg, st) && c > 0 && c != OWNER_ADMIN
    ensures Sound(cfg, c, st, ReadN(n), DoReadN(st, c, n))
    ensures ReadsExactly(st, c, n, DoReadN(st, c, n))
    ensures forall f :: f in DoReadN(st, c, n).reply.files ==> Readable(st.slots, c, f)
  {
    ReadNOutcome(cfg, st, c, n);
    var after := DoReadN(st, c, n).st.slots;
    PassingIsQuiet(cfg, st, after, c, n);
    SameFilesKeep(st.slots, after);
    ReadableAre(st.slots, c);
  }

  // ---------------------------------------------------------------- disconnects

  /** What a disconnect makes of a slot: the client's own files are closed, with what
      was visible as their contents, and belong to nobody; the others stay. */
  function Released(s: Slot, c: int): Slot {
    if s.owner == c then
      s.(owner := OWNER_NULL, data := Contents(s), working := None, added := 0, freq := s.freq + 1, used := true)
    else s
  }

  lemma ReleasedExactly(s: Slot, c: int)
    requires Coherent(s) && Settled(s) && c > 0
    ensures s.owner == c ==> Close(s, c) == (Released(s, c), OK, 0)
    ensures SameFile(s, Released(s, c)) && Settled(Released(s, c)) && SameBirth(s, Released(s, c))
  {
    if s.working.Some? && |s.working.value| == 0 {
      assert s.data == [];
    }
  }

  lemma {:induction false} ReleaseClosedForm(a: seq<Slot>, now: seq<Slot>, c: int, i: nat)
    requires AllCoherent(a) && (forall j :: 0 <= j < |a| ==> Settled(a[j])) && c > 0 && i <= |a| == |now|
    requires forall j: nat :: j < |a| ==> now[j] == if j < i then Released(a[j], c) else a[j]
    ensures var (after, diff) := ReleaseFrom(now, c, i, 0);
            && |after| == |a| && diff == 0
            && forall j: nat :: j < |a| ==> after[j] == Released(a[j], c)
    decreases |a| - i
  {
    if i < |a| {
      assert Coherent(a[i]) && Settled(a[i]) && now[i] == a[i];
      ReleasedExactly(a[i], c);
      assert a[i].owner != c ==> now[i := Released(a[i], c)] == now;
      ReleaseClosedForm(a, now[i := Released(a[i], c)], c, i + 1);
    }
  }

  /** A disconnect changes no file; the client's files end closed and nobody's, and
      no other slot is touched. */
  lemma DisconnectSound(cfg: Config, st: State, c: int)
    requires SlotsOk(cfg, st) && c > 0 && c != OWNER_ADMIN
    ensures Sound(cfg, c, st, CloseConnection, DoDisconnect(st, c))
    ensures var slots := DoDisconnect(st, c).st.slots;
            && |slots| == |st.slots|
            && forall i: nat :: i < |slots| ==>
                 && slots[i] == Released(st.slots[i], c) && slots[i].owner != c
                 && (st.slots[i].owner == c ==> slots[i].working.None?)
  {
    ReleaseClosedForm(st.slots, st.slots, c, 0);
    var slots := ReleaseFrom(st.slots, c, 0, 0).0;
    forall i | 0 <= i < |slots| ensures QuietlyUsed(c, st.slots[i], slots[i]) {
      assert Coherent(st.slots[i]) && Settled(st.slots[i]);
      ReleasedExactly(st.slots[i], c);
    }
    QuietEverywhere(cfg, st, slots, c);
    SameFilesKeep(st.slots, slots);
  }

  // ------------------------------------------------- requests that change files

  /** Filling a free slot with a new file, opened. */
  lemma CreateStep(cfg: Config, st: State, c: int, f: nat, s: Slot)
    requires SlotsOk(cfg, st) && c > 0 && c != OWNER_ADMIN && f < |st.slots| && st.slots[f] == FREE
    requires Coherent(s) && Exists(s) && Mine(c, s) && s.working == Some([]) && Find(st.slots, s.name) == None
    ensures SlotsOk(cfg, st.(slots := st.slots[f := s], nfiles := st.nfiles + 1))
    ensures AllAllowed(c, st.slots, st.slots[f := s], [])
    ensures forall n :: FileAt(st.slots[f := s], n) == if n == s.name then Some(Contents(s)) else FileAt(st.slots, n)
    ensures Contents(s) == [] && Find(st.slots[f := s], s.name) == Some(f)
  {
    CreationUpdate(st.slots, f, s);
    TotalsUpdate(st.slots, f, s);
  }

  /** A file just created: open, empty, and as old as the clock says. */
  function Newborn(name: Name, owner: int, now: int): Slot {
    Slot(owner, name, [], Some([]), 0, now, 2, true)
  }

  /** A creation succeeds exactly if the name is not in use and a slot is free; the
      new file is open, empty, and locked exactly if that was asked for. */
  lemma CreateSound(cfg: Config, st: State, k: nat, c: int, name: Name, lock: bool, now: int)
    requires SlotsOk(cfg, st) && c > 0 && c != OWNER_ADMIN && k < |st.clients|
    ensures Sound(cfg, c, st, OpenFile(name, true, lock),
                  DoCreate(st, k, name, if lock then c else OWNER_NULL, lock, now))
    ensures var out := DoCreate(st, k, name, if lock then c else OWNER_NULL, lock, now);
            var free := FreeFrom(st.slots, 0);
            && (out.reply.status == AlreadyExists <==> Find(st.slots, name).Some?)
            && (out.reply.status == Success <==> Find(st.slots, name).None? && free.Some?)
            && (out.reply.status == MaxFiles <==> Find(st.slots, name).None? && free.None?)
            && !out.failed
            && out.st.slots == (if out.reply.status != Success then st.slots
                                else st.slots[free.value := Newborn(name, if lock then c else OWNER_NULL, now)])
  {
    var owner := if lock then c else OWNER_NULL;
    var f := FreeFrom(st.slots, 0);
    if Find(st.slots, name).None? && f.Some? {
      assert Coherent(st.slots[f.value]) && st.slots[f.value] == FREE;
      CreateStep(cfg, st, c, f.value, Open(Create(FREE, name, owner, now).0, owner).0);
    }
  }

  lemma RemoveStep(cfg: Config, st: State, c: int, f: nat)
    requires SlotsOk(cfg, st) && c > 0 && c != OWNER_ADMIN && f < |st.slots| && st.slots[f].owner == c
    ensures SlotsOk(cfg, st.(slots := st.slots[f := FREE], nfiles := st.nfiles - 1,
                             storage := st.storage - SizeOf(st.slots[f])))
    ensures AllAllowed(c, st.slots, st.slots[f := FREE], [])
    ensures forall n :: FileAt(st.slots[f := FREE], n) == if n == st.slots[f].name then None else FileAt(st.slots, n)
  {
    RemovalUpdate(st.slots, f);
    TotalsUpdate(st.slots, f, FREE);
  }

  /** What becomes of the slot, and how the reply tells. */
  ghost predicate RemovesExactly(st: State, c: int, name: Name, out: Outcome)
    requires |out.st.slots| == |st.slots|
  {
    var s, t := SlotOf(st.slots, name, st.slots), SlotOf(st.slots, name, out.st.slots);
    && out.Returned?
    && (out.reply.status == Success <==> s.Some? && s.value.owner == c)
    && (out.reply.status == Success ==> t.value == FREE)
    && (out.reply.status == NotLocked <==> s.Some? && s.value.owner == OWNER_NULL)
  }

  lemma RemoveOutcome(st: State, c: int, name: Name)
    requires c > 0
    ensures |DoRemove(st, c, name).st.slots| == |st.slots| && RemovesExactly(st, c, name, DoRemove(st, c, name))
  {
  }

  /** A removal succeeds for the owner alone, and frees the slot. */
  lemma RemoveSound(cfg: Config, st: State, c: int, name: Name)
    requires SlotsOk(cfg, st) && c > 0 && c != OWNER_ADMIN
    ensures Sound(cfg, c, st, RemoveFile(name), DoRemove(st, c, name))
    ensures |DoRemove(st, c, name).st.slots| == |st.slots| && RemovesExactly(st, c, name, DoRemove(st, c, name))
  {
    RemoveOutcome(st, c, name);
    var f := Find(st.slots, name);
    if f.Some? {
      if st.slots[f.value].owner == c {
        RemoveStep(cfg, st, c, f.value);
      } else {
        assert st.(slots := st.slots[f.value := st.slots[f.value]]) == st;
      }
    }
  }

  lemma SurvivorsAllowed(st: State, t: State, c: int, prot: Name, shipped: seq<Frame>)
    requires Survivors(st.slots, t.slots, prot, shipped)
    ensures AllAllowed(c, st.slots, t.slots, shipped)
    ensures (forall i :: 0 <= i < |st.slots| ==> Settled(st.slots[i])) ==>
            (forall i :: 0 <= i < |t.slots| ==> Settled(t.slots[i]))
  {
    forall i | 0 <= i < |st.slots|
      ensures Allowed(c, st.slots[i], t.slots[i], shipped) && (Settled(st.slots[i]) ==> Settled(t.slots[i]))
    {
      assert Kept(st.slots[i], t.slots[i]) || Left(st.slots[i], t.slots[i], prot, shipped);
    }
  }

  /** Eviction never takes the file the payload is meant for. */
  lemma TargetSurvives(st: State, t: State, prot: Name, shipped: seq<Frame>, f: nat)
    requires Survivors(st.slots, t.slots, prot, shipped)
    requires f < |st.slots| && Holds(st.slots[f], prot)
    ensures Kept(st.slots[f], t.slots[f])
  {
    assert Kept(st.slots[f], t.slots[f]) || Left(st.slots[f], t.slots[f], prot, shipped);
  }

  function Stored(s: Slot, c: int, payload: Bytes, append: bool): (Slot, Errno) {
    if append then Append(s, c, payload) else Write(s, c, payload)
  }

  /** What storing does to the slot. */
  lemma StoredSlot(s: Slot, c: int, payload: Bytes, append: bool)
    requires Coherent(s) && Exists(s)
    ensures var (t, e) := Stored(s, c, payload, append);
            if e == OK then
              && Coherent(t) && Exists(t) && t.name == s.name && t.working.Some? && Mine(c, s) && Mine(c, t)
              && Contents(t) == Contents(s) + payload && SizeOf(t) == SizeOf(s) + |payload|
              && (!append ==> Contents(s) == [])
            else t == s
  {
    GrowingOperations(s, c, payload);
    assert [] + payload == payload;
  }

  /** The payload meets a table the eviction loop left with room for it. */
  lemma StoreAfterEviction(
    cfg: Config, st: State, c: int, payload: Bytes, f: nat, append: bool)
    requires SlotsOk(cfg, st) && c > 0 && c != OWNER_ADMIN && f < |st.slots| && Exists(st.slots[f])
    requires st.storage + |payload| <= cfg.maxStorage
    ensures var (t, e) := Store(st, c, payload, f, append);
            && SlotsOk(cfg, t)
            && (forall i :: 0 <= i < |st.slots| && i != f ==> t.slots[i] == st.slots[i])
            && Allowed(c, st.slots[f], t.slots[f], [])
            && (forall n :: FileAt(t.slots, n) ==
                  if e == OK && n == st.slots[f].name then Some(Contents(st.slots[f]) + payload)
                  else FileAt(st.slots, n))
            && (e == OK && !append ==> Contents(st.slots[f]) == [])
  {
    assert Coherent(st.slots[f]);
    StoredSlot(st.slots[f], c, payload, append);
    var (s, e) := Stored(st.slots[f], c, payload, append);
    if e == OK {
      ContentUpdate(st.slots, f, s);
      TotalsUpdate(st.slots, f, s);
    } else {
      assert st.slots[f := s] == st.slots;
    }
  }

  lemma AllowedAfterEviction(c: int, a: seq<Slot>, b: seq<Slot>, d: seq<Slot>, prot: Name, shipped: seq<Frame>, f: nat)
    requires Survivors(a, b, prot, shipped) && f < |a| && Holds(a[f], prot)
    requires |d| == |b| && Allowed(c, b[f], d[f], []) && forall i :: 0 <= i < |b| && i != f ==> d[i] == b[i]
    requires forall i :: 0 <= i < |a| ==> a[i].owner != OWNER_ADMIN
    ensures AllAllowed(c, a, d, shipped)
  {
    forall i | 0 <= i < |a| ensures Allowed(c, a[i], d[i], shipped) {
      assert Kept(a[i], b[i]) || Left(a[i], b[i], prot, shipped);
    }
  }

  /** What the payload does to the file of one name. */
  lemma StoreRefinesAt(
    a: seq<Slot>, b: seq<Slot>, name: Name, payload: Bytes, shipped: seq<Frame>, held: Bytes, req: Request,
    reply: Reply, n: Name, now: Option<Bytes>)
    requires WellFormed(a) && Survivors(a, b, name, shipped)
    requires FileAt(a, name) == Some(held) && reply.shipped == shipped
    requires req == AppendFile(name, payload) ||
             (req == WriteFile(name, payload) && (reply.status == Success ==> held == []))
    requires now == if reply.status == Success && n == name then Some(held + payload) else FileAt(b, n)
    ensures now == After(FileAt(a, n), n, req, reply)
  {
    SurvivorsFiles(a, b, name, shipped, n);
    assert [] + payload == payload;
  }

  lemma StoreRefines(
    a: seq<Slot>, b: seq<Slot>, d: seq<Slot>, name: Name, payload: Bytes, shipped: seq<Frame>, f: nat, req: Request,
    reply: Reply)
    requires WellFormed(a) && Survivors(a, b, name, shipped) && Find(a, name) == Some(f) && f < |b|
    requires req == AppendFile(name, payload) ||
             (req == WriteFile(name, payload) && (reply.status == Success ==> Contents(b[f]) == []))
    requires reply.shipped == shipped
    requires forall n :: FileAt(d, n) ==
               if reply.status == Success && n == name then Some(Contents(b[f]) + payload) else FileAt(b, n)
    ensures Refines(a, d, req, reply)
    ensures FileAt(a, name) == Some(Contents(b[f]))
  {
    SurvivorsFiles(a, b, name, shipped, name);
    assert FileAt(b, name) == FileAt(a, name) == Some(Contents(b[f]));
    forall n ensures FileAt(d, n) == After(FileAt(a, n), n, req, reply) {
      StoreRefinesAt(a, b, name, payload, shipped, Contents(b[f]), req, reply, n, FileAt(d, n));
    }
  }

  lemma SurvivorsWhole(a: seq<Slot>, b: seq<Slot>, prot: Name, shipped: seq<Frame>)
    requires WellFormed(a) && Survivors(a, b, prot, shipped)
    ensures Whole(a, shipped)
  {
    forall f | f in shipped ensures FileAt(a, f.name) == Some(f.bytes) {
      var i :| 0 <= i < |a| && Exists(a[i]) && b[i] == FREE && FrameOf(a[i]) == f;
      FindUnique(a, i);
    }
  }

  /** The payload stored after an eviction loop that made room for it. */
  lemma StoredSound(cfg: Config, st: State, t: State, c: int, name: Name, payload: Bytes, f: nat, append: bool,
                    shipped: seq<Frame>, req: Request, out: Outcome)
    requires SlotsOk(cfg, st) && c > 0 && c != OWNER_ADMIN && Find(st.slots, name) == Some(f)
    requires Tidy(t) && t.storage + |payload| <= cfg.maxStorage && Survivors(st.slots, t.slots, name, shipped)
    requires req == if append then AppendFile(name, payload) else WriteFile(name, payload)
    requires var (d, e) := Store(t, c, payload, f, append);
             out.Returned? && out.st == d && out.reply.shipped == shipped && (out.reply.status == Success <==> e == OK)
    ensures Sound(cfg, c, st, req, out)
    ensures out.reply.status == Success && !append ==> FileAt(st.slots, name) == Some([])
  {
    SurvivorsWhole(st.slots, t.slots, name, shipped);
    SurvivorsAllowed(st, t, c, name, shipped);
    TargetSurvives(st, t, name, shipped, f);
    StoreAfterEviction(cfg, t, c, payload, f, append);
    AllowedAfterEviction(c, st.slots, t.slots, out.st.slots, name, shipped, f);
    StoreRefines(st.slots, t.slots, out.st.slots, name, payload, shipped, f, req, out.reply);
  }

  lemma StoreSound(
    cfg: Config, st: State, c: int, name: Name, payload: Bytes, f: nat, append: bool, turns: seq<int>)
    requires SlotsOk(cfg, st) && c > 0 && c != OWNER_ADMIN && Find(st.slots, name) == Some(f)
    ensures Sound(cfg, c, st, if append then AppendFile(name, payload) else WriteFile(name, payload),
                  DoStore(cfg, st, c, name, payload, f, append, turns))
    ensures var out := DoStore(cfg, st, c, name, payload, f, append, turns);
            out.Returned? && out.reply.status == Success && !append ==> FileAt(st.slots, name) == Some([])
  {
    var loop := EvictLoop(cfg, st, name, |payload|, turns, 0, []);
    var out := DoStore(cfg, st, c, name, payload, f, append, turns);
    var req := if append then AppendFile(name, payload) else WriteFile(name, payload);
    EvictLoopCorrect(cfg, st, name, |payload|, turns);
    if |payload| <= cfg.maxStorage && loop.Fits? {
      StoredSound(cfg, st, loop.st, c, name, payload, f, append, loop.shipped, req, out);
    }
  }

  /** What a write or append of a payload the server accepts is answered, from the
      slot it is meant for. */
  function StoreVerdict(s: Slot, c: int, payload: Bytes, append: bool): Status {
    if payload == [] then NoFlag
    else if append then
      if !Mine(c, s) then NotLocked else if s.working.None? then NotOpen else Success
    else if s.owner != c then NotLocked
    else if s.working.None? then NotOpen
    else if Contents(s) != [] then AlreadyExists
    else Success
  }

  /** The slot after a payload was stored behind what it held. */
  function Extended(s: Slot, payload: Bytes): Slot {
    s.(working := Some(Contents(s) + payload), added := s.added + |payload|, freq := s.freq + 1, used := true)
  }

  lemma StoredExactly(s: Slot, c: int, payload: Bytes, append: bool)
    requires Coherent(s) && Exists(s) && c > 0
    ensures var (t, e) := Stored(s, c, payload, append);
            && StatusOf(e, NotLocked) == StoreVerdict(s, c, payload, append)
            && (e == EINVAL <==> payload == []) && (append ==> e != EEXIST)
            && t == if e == OK then Extended(s, payload) else s
  {
    assert [] + payload == payload;
    if s.working.Some? && |s.working.value| == 0 {
      assert s.data == [];
    }
  }

  /** What a write or append that returns has answered and done to its slot: a payload
      over the capacity is dropped without a flag, an empty one is an error, and
      anything else is answered as the slot deserves and stored if it is Success.  The
      search for victims may have cleared the slot's reference bit, no more. */
  ghost predicate StoresExactly(
    cfg: Config, st: State, c: int, f: nat, payload: Bytes, append: bool, out: Outcome)
    requires f < |st.slots|
  {
    var s := st.slots[f];
    var status := if |payload| > cfg.maxStorage then NoFlag else StoreVerdict(s, c, payload, append);
    && out.Returned? && |out.st.slots| == |st.slots|
    && out.reply == Reply(status, [], [], out.reply.shipped)
    && (|payload| > cfg.maxStorage ==> out.st == st && out.reply.shipped == [])
    && (out.failed <==> payload == [])
    && if status == Success then out.st.slots[f] == Extended(s, payload) else Kept(s, out.st.slots[f])
  }

  lemma StoreOutcome(
    cfg: Config, st: State, c: int, name: Name, payload: Bytes, f: nat, append: bool, turns: seq<int>)
    requires SlotsOk(cfg, st) && c > 0 && c != OWNER_ADMIN && Find(st.slots, name) == Some(f)
    requires DoStore(cfg, st, c, name, payload, f, append, turns).Returned?
    ensures StoresExactly(cfg, st, c, f, payload, append, DoStore(cfg, st, c, name, payload, f, append, turns))
  {
    if |payload| <= cfg.maxStorage {
      var loop := EvictLoop(cfg, st, name, |payload|, turns, 0, []);
      EvictLoopCorrect(cfg, st, name, |payload|, turns);
      TargetSurvives(st, loop.st, name, loop.shipped, f);
      assert Coherent(st.slots[f]) && Coherent(loop.st.slots[f]);
      KeptStores(st.slots[f], loop.st.slots[f], c, payload, append);
    }
  }

  /** A slot whose bit the search cleared takes the payload like the one before. */
  lemma KeptStores(s: Slot, t: Slot, c: int, payload: Bytes, append: bool)
    requires Coherent(s) && Coherent(t) && Exists(s) && Kept(s, t) && c > 0
    ensures var (u, e) := Stored(t, c, payload, append);
            && StatusOf(e, NotLocked) == StoreVerdict(s, c, payload, append)
            && (e == EINVAL <==> payload == []) && (append ==> e != EEXIST)
            && u == if e == OK then Extended(s, payload) else t
  {
    StoredExactly(t, c, payload, append);
  }

  /** A write is turned away without the token; otherwise the file's slot decides. */
  lemma WriteSound(cfg: Config, st: State, k: nat, c: int, name: Name, payload: Bytes, turns: seq<int>)
    requires SlotsOk(cfg, st) && c > 0 && c != OWNER_ADMIN && k < |st.clients|
    ensures Sound(cfg, c, st, WriteFile(name, payload), DoWrite(cfg, st, k, c, name, payload, turns))
    ensures var st1, f, out := SetLastop(st, k, []), Find(st.slots, name), DoWrite(cfg, st, k, c, name, payload, turns);
            if st.clients[k].lastop != name then out == Returned(st, Answer(NoFlag), false)
            else if f.None? then out == Returned(st1, Answer(NotExists), false)
            else out.Returned? ==> StoresExactly(cfg, st1, c, f.value, payload, false, out)
  {
    var st1, f := SetLastop(st, k, []), Find(st.slots, name);
    assert SlotsOk(cfg, st1);
    if st.clients[k].lastop == name && f.Some? {
      StoreSound(cfg, st1, c, name, payload, f.value, false, turns);
      if DoWrite(cfg, st, k, c, name, payload, turns).Returned? {
        StoreOutcome(cfg, st1, c, name, payload, f.value, false, turns);
      }
    }
  }

  /** An append of an acceptable payload that returns succeeds if and only if the file
      is open and nobody else's, and the file then holds what it held and the payload. */
  lemma AppendSound(cfg: Config, st: State, c: int, name: Name, payload: Bytes, turns: seq<int>)
    requires SlotsOk(cfg, st) && c > 0 && c != OWNER_ADMIN
    ensures Sound(cfg, c, st, AppendFile(name, payload), DoAppend(cfg, st, c, name, payload, turns))
    ensures var f, out := Find(st.slots, name), DoAppend(cfg, st, c, name, payload, turns);
            if f.None? then out == Returned(st, Answer(NotExists), false)
            else out.Returned? ==>
              && StoresExactly(cfg, st, c, f.value, payload, true, out)
              && (0 < |payload| <= cfg.maxStorage ==>
                    (out.reply.status == Success <==> Mine(c, st.slots[f.value]) && st.slots[f.value].working.Some?))
              && (out.reply.status == Success ==>
                    !out.failed && FileAt(out.st.slots, name) == Some(Contents(st.slots[f.value]) + payload))
  {
    var f, out := Find(st.slots, name), DoAppend(cfg, st, c, name, payload, turns);
    if f.Some? {
      StoreSound(cfg, st, c, name, payload, f.value, true, turns);
      if out.Returned? {
        StoreOutcome(cfg, st, c, name, payload, f.value, true, turns);
        if out.reply.status == Success {
          AppendedFile(st, name, payload, f.value, out);
        }
      }
    }
  }

  lemma AppendedFile(st: State, name: Name, payload: Bytes, f: nat, out: Outcome)
    requires Find(st.slots, name) == Some(f) && out.Returned? && out.reply.status == Success
    requires |out.st.slots| == |st.slots| && WellFormed(out.st.slots)
    requires out.st.slots[f] == Extended(st.slots[f], payload)
    ensures FileAt(out.st.slots, name) == Some(Contents(st.slots[f]) + payload)
  {
    FindUnique(out.st.slots, f);
  }

  lemma SimpleSound(cfg: Config, st: State, c: int, req: Request)
    requires SlotsOk(cfg, st) && c > 0 && c != OWNER_ADMIN && Simple(req)
    ensures Sound(cfg, c, st, req, DoSimple(st, c, req))
  {
    match req
    case CloseFile(name) => CloseSound(cfg, st, c, name);
    case ReadFile(name) => ReadSound(cfg, st, c, name);
    case ReadN(n) => ReadNSound(cfg, st, c, n);
    case LockFile(name) => LockSound(cfg, st, c, name);
    case UnlockFile(name) => UnlockSound(cfg, st, c, name);
    case RemoveFile(name) => RemoveSound(cfg, st, c, name);
  }

  /** Every request of every connected client that returns is sound: totals stay
      exact and within the capacity, other clients' slots are left alone, and the
      map changes exactly as the reply says. */
  lemma HandleSound(cfg: Config, st: State, c: int, req: Request, clock: Clock)
    requires SlotsOk(cfg, st) && c > 0 && c != OWNER_ADMIN
    ensures Sound(cfg, c, st, req, Handle(cfg, st, c, req, clock))
  {
    if FindClient(st.clients, c).Some? {
      var k := FindClient(st.clients, c).value;
      var st1 := SetLastop(st, k, []);
      assert SlotsOk(cfg, st1);
      match req {
        case OpenFile(name, create, lock) =>
          if create {
            CreateSound(cfg, st1, k, c, name, lock, clock.now);
          } else {
            OpenSound(cfg, st1, c, name, lock, req);
          }
        case WriteFile(name, payload) => WriteSound(cfg, st, k, c, name, payload, clock.turns);
        case AppendFile(name, payload) => AppendSound(cfg, st1, c, name, payload, clock.turns);
        case CloseConnection => DisconnectSound(cfg, st, c);
        case Unknown =>
        case _ => SimpleSound(cfg, st1, c, req);
      }
    }
  }
}
