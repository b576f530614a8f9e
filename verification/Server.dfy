/** The server as the object its handlers update in place: an array of file slots
    and the shared state.  Every method is proved against its function in
    Eviction.dfy or Requests.dfy, so everything shown about those holds of it.
    One request runs at a time here; Interleaved.dfy is about several workers. */
module Servers {
  import opened Basics
  import opened Slots
  import opened FileSlots
  import opened Table
  import opened ServerState
  import opened Eviction
  import opened Requests

  class Server {
    const cfg: Config
    const files: seq<FileSlot>
    ghost var slots: seq<Slot>
    var clients: seq<Client>
    var storage: int
    var nfiles: int
    var nconns: int
    var peakStorage: int
    var peakFiles: int
    var peakConns: int
    var misses: int
    var lruPos: nat

    ghost predicate InStep(i: int)
      reads this, files
    {
      && |slots| == |files| && lruPos < |files|
      && (forall j, k :: 0 <= j < k < |files| ==> files[j] != files[k])
      && (forall j :: 0 <= j < |files| ==> files[j].Valid())
      && (forall j :: 0 <= j < |files| && j != i ==> files[j].View() == slots[j])
    }

    /** `slots` is what the file objects show. */
    ghost predicate Valid()
      reads this, files
    {
      InStep(-1)
    }

    ghost function View(): State
      reads this
    {
      State(slots, clients, storage, nfiles, nconns, peakStorage, peakFiles, peakConns, misses, lruPos)
    }

    /** init_shared_state and initialize_file_structure. */
    constructor (cfg: Config, files: seq<FileSlot>)
      requires |files| > 0 && forall j, k :: 0 <= j < k < |files| ==> files[j] != files[k]
      requires forall j :: 0 <= j < |files| ==> files[j].Valid() && files[j].View() == FREE
      ensures Valid() && View() == Initial(cfg, |files|) && this.cfg == cfg && this.files == files
    {
      this.cfg := cfg;
      this.files := files;
      slots := seq(|files|, _ => FREE);
      clients := seq(cfg.maxConns, _ => Client(-1, []));
      storage, nfiles, nconns, peakStorage, peakFiles, peakConns, misses, lruPos := 0, 0, 0, 0, 0, 0, 0, 0;
    }

    ghost method Sync(i: nat)
      requires i < |files| && InStep(i)
      modifies this`slots
      ensures Valid() && slots == old(slots)[i := files[i].View()]
    {
      slots := slots[i := files[i].View()];
    }

    // ------------------------------------------------------------- searches

    method GetFile(name: Name) returns (r: Option<nat>)
      requires Valid()
      ensures r == Find(slots, name)
    {
      var i := 0;
      while i < |files|
        invariant i <= |files| && FindFrom(slots, name, i) == Find(slots, name)
      {
        assert files[i].View() == slots[i];
        if files[i].owner >= OWNER_NULL {
          if files[i].name == name { return Some(i); }
        }
        i := i + 1;
      }
      return None;
    }

    method GetEmptySlot() returns (r: Option<nat>)
      requires Valid()
      ensures r == FreeFrom(slots, 0)
    {
      var i := 0;
      while i < |files|
        invariant i <= |files| && FreeFrom(slots, i) == FreeFrom(slots, 0)
      {
        assert files[i].View() == slots[i];
        if files[i].owner == OWNER_NEXIST { return Some(i); }
        i := i + 1;
      }
      return None;
    }

    method GetClient(fd: int) returns (r: Option<nat>)
      ensures r == FindClient(clients, fd)
    {
      var i := 0;
      while i < |clients|
        invariant i <= |clients| && ClientFrom(clients, fd, i) == FindClient(clients, fd)
      {
        if clients[i].fd == fd { return Some(i); }
        i := i + 1;
      }
      return None;
    }

    method LoopCheck(i: nat, prot: Name) returns (ok: bool)
      requires Valid() && i < |files|
      ensures ok == Eligible(slots[i], prot)
    {
      assert files[i].View() == slots[i];
      var f := files[i];
      if f.owner == OWNER_ADMIN { return false; }
      if f.owner == OWNER_NEXIST { return false; }
      if f.name == prot { return false; }
      return |f.data| + f.newSize > 0;
    }

    // ------------------------------------------------------------- eviction

    /** The scan of evict_FIFO and evict_LFU. */
    method ScanLeast(algo: Algorithm, prot: Name, limit: int) returns (best: Option<nat>)
      requires Valid()
      ensures best == PickFrom(algo, slots, prot, 0, None, limit)
    {
      var i, bound := 0, limit;
      best := None;
      while i < |files|
        invariant i <= |files| && (best.Some? ==> best.value < |files|)
        invariant PickFrom(algo, slots, prot, i, best, bound) == PickFrom(algo, slots, prot, 0, None, limit)
      {
        var ok := LoopCheck(i, prot);
        assert files[i].View() == slots[i];
        var key := if algo == FIFO then files[i].created else files[i].freq;
        if ok && key < bound {
          bound := key;
          best := Some(i);
        }
        i := i + 1;
      }
    }

    /** LRU_loop_do: a set bit is cleared and spares its file; a clear one stops the scan. */
    method ClockTurn(pos: nat, prot: Name) returns (stop: bool)
      requires Valid() && pos < |files|
      modifies this`slots, files
      ensures Valid() && stop == (Eligible(old(slots[pos]), prot) && !old(slots[pos]).used)
      ensures slots ==
              if Eligible(old(slots[pos]), prot) && !stop then old(slots)[pos := old(slots[pos]).(used := false)]
              else old(slots)
    {
      var ok := LoopCheck(pos, prot);
      assert files[pos].View() == slots[pos];
      if !ok { return false; }
      if files[pos].used {
        files[pos].UpdateUsed(false);
        Sync(pos);
        return false;
      }
      return true;
    }

    /** The loop of evict_LRU: one revolution of the clock at most. */
    method ScanClock(prot: Name) returns (expel: Option<nat>)
      requires Valid()
      modifies this`slots, files
      ensures Valid() && (slots, expel) == Sweep(old(slots), prot, lruPos, |files|)
    {
      var pos: nat, k: nat := lruPos, |files|;
      while k > 0
        invariant Valid() && pos < |files|
        invariant Sweep(slots, prot, pos, k) == Sweep(old(slots), prot, lruPos, |files|)
        decreases k
      {
        var stop := ClockTurn(pos, prot);
        if stop { return Some(pos); }
        pos := Next(pos, |files|);
        k := k - 1;
      }
      return None;
    }

    /** The part of delete_evicted that works on the slot: claim and open it, read
        it whole, remove it. */
    method Expel(i: nat) returns (frame: Frame, size: int)
      requires Valid() && i < |files| && Exists(slots[i]) && slots[i].owner != OWNER_ADMIN
      modifies this`slots, files
      ensures Valid() && slots == old(slots)[i := FREE]
      ensures frame == FrameOf(old(slots[i])) && size == SizeOf(old(slots[i]))
    {
      assert files[i].View() == slots[i];
      var err := files[i].ForceOpen();
      var err2, bytes := files[i].Read(OWNER_ADMIN);
      var name := files[i].name;
      var err3, n := files[i].Remove(OWNER_ADMIN);
      Sync(i);
      return Frame(name, bytes), n;
    }

    /** delete_evicted: ... and take it off the totals. */
    method DeleteEvicted(i: nat) returns (frame: Frame)
      requires Valid() && i < |files| && Exists(slots[i]) && slots[i].owner != OWNER_ADMIN
      modifies this`slots, this`storage, this`nfiles, files
      ensures Valid() && frame == FrameOf(old(slots[i]))
      ensures View() == old(View()).(slots := old(slots)[i := FREE], storage := old(storage) - SizeOf(old(slots[i])),
                                     nfiles := old(nfiles) - 1)
    {
      var f, size := Expel(i);
      storage := storage - size;
      nfiles := nfiles - 1;
      frame := f;
    }

    method EvictVictim(v: nat) returns (frame: Option<Frame>)
      requires Valid() && v < |files| && Exists(slots[v]) && slots[v].owner != OWNER_ADMIN
      modifies this, files
      ensures Valid() && (View(), frame) == EvictAt(cfg, old(View()), v)
    {
      var f := DeleteEvicted(v);
      if cfg.algo == LRU {
        lruPos := Next(v, |files|);
      }
      if f.bytes == [] { return None; }
      misses := misses + 1;
      return Some(f);
    }

    method CacheMissOnce(prot: Name, now: int) returns (frame: Option<Frame>)
      requires Valid()
      modifies this, files
      ensures Valid() && (View(), frame) == CacheMiss(cfg, old(View()), prot, now)
    {
      var victim: Option<nat>;
      match cfg.algo {
        case FIFO => victim := ScanLeast(FIFO, prot, now);
        case LFU => victim := ScanLeast(LFU, prot, INT_MAX);
        case LRU => victim := ScanClock(prot);
      }
      VictimEligible(old(slots), prot, old(lruPos), now);
      if victim.None? { return None; }
      frame := EvictVictim(victim.value);
    }

    lemma VictimEligible(slots: seq<Slot>, prot: Name, pos: nat, now: int)
      requires pos < |slots|
      ensures var (after, victim) := Victim(cfg.algo, slots, prot, pos, now);
              victim.Some? ==> Eligible(after[victim.value], prot)
    {
      if cfg.algo == LRU {
        SweepClosedForm(slots, prot, pos, |slots|);
        var victim := Sweep(slots, prot, pos, |slots|).1;
        if victim.Some? {
          assert !(Distance(pos, victim.value, |slots|) < Distance(pos, victim.value, |slots|));
        }
      } else {
        var limit := if cfg.algo == FIFO then now else INT_MAX;
        PickFromLeast(cfg.algo, slots, prot, limit, 0, None, limit);
      }
    }

    /** do_cache_miss; it gives up when it has used all the clock readings, where
        the source would go on turning. */
    method MakeRoom(prot: Name, payload: nat, turns: seq<int>) returns (done: bool, shipped: seq<Frame>)
      requires Valid()
      modifies this, files
      ensures Valid()
      ensures EvictLoop(cfg, old(View()), prot, payload, turns, 0, []) ==
              if done then Fits(View(), shipped) else StillFull(View(), shipped)
    {
      var i := 0;
      shipped := [];
      while storage + payload > cfg.maxStorage
        invariant Valid() && i <= |turns|
        invariant EvictLoop(cfg, View(), prot, payload, turns, i, shipped) ==
                  EvictLoop(cfg, old(View()), prot, payload, turns, 0, [])
        decreases |turns| - i
      {
        if i == |turns| { return false, shipped; }
        var frame := CacheMissOnce(prot, turns[i]);
        if frame.Some? {
          shipped := shipped + [frame.value];
        }
        i := i + 1;
      }
      return true, shipped;
    }

    // ------------------------------------------------------------- handlers

    method CreateInSlot(f: nat, name: Name, owner: int, now: int) returns (res: Errno)
      requires Valid() && f < |files|
      modifies this`slots, files
      ensures Valid() && slots == old(slots)[f := slots[f]]
      ensures (slots[f], res) == Create(old(slots[f]), name, owner, now)
    {
      assert files[f].View() == slots[f];
      res := files[f].Create(name, owner, now);
      Sync(f);
    }

    method OpenInSlot(f: nat, owner: int) returns (res: Errno)
      requires Valid() && f < |files|
      modifies this`slots, files
      ensures Valid() && slots == old(slots)[f := slots[f]] && (slots[f], res) == Open(old(slots[f]), owner)
    {
      assert files[f].View() == slots[f];
      res := files[f].Open(owner);
      Sync(f);
    }

    method CloseInSlot(f: nat, c: int) returns (res: Errno, diff: int)
      requires Valid() && f < |files|
      modifies this`slots, files
      ensures Valid() && slots == old(slots)[f := slots[f]] && (slots[f], res, diff) == Close(old(slots[f]), c)
    {
      assert files[f].View() == slots[f];
      res, diff := files[f].Close(c);
      Sync(f);
    }

    method RemoveInSlot(f: nat, c: int) returns (res: Errno, size: int)
      requires Valid() && f < |files|
      modifies this`slots, files
      ensures Valid() && slots == old(slots)[f := slots[f]] && (slots[f], res, size) == Remove(old(slots[f]), c)
    {
      assert files[f].View() == slots[f];
      res, size := files[f].Remove(c);
      Sync(f);
    }

    method SetToken(k: nat, name: Name)
      requires k < |clients|
      modifies this`clients
      ensures View() == SetLastop(old(View()), k, name)
    {
      clients := clients[k := clients[k].(lastop := name)];
    }

    method CountFile()
      modifies this`nfiles, this`peakFiles
      ensures nfiles == old(nfiles) + 1 && peakFiles == Max(old(peakFiles), nfiles)
    {
      nfiles := nfiles + 1;
      if nfiles > peakFiles { peakFiles := nfiles; }
    }

    /** What follows a successful creation: count the file, open it, set the token. */
    method OpenCreated(k: nat, f: nat, name: Name, owner: int, lock: bool) returns (reply: Reply, failed: bool)
      requires Valid() && k < |clients| && f < |files|
      modifies this`slots, this`nfiles, this`peakFiles, this`clients, files
      ensures Valid()
      ensures var (s, e) := Open(old(slots[f]), owner);
              var st := old(View()).(slots := old(slots)[f := s], nfiles := old(nfiles) + 1,
                                     peakFiles := Max(old(peakFiles), old(nfiles) + 1));
              (View(), reply, failed) ==
              if e != OK then (st, Answer(NoFlag), true)
              else (if lock then SetLastop(st, k, name) else st, Answer(Success), false)
    {
      CountFile();
      var opn := OpenInSlot(f, owner);
      if opn != OK { return Answer(NoFlag), true; }
      if lock {
        SetToken(k, name);
      }
      return Answer(Success), false;
    }

    method FillSlot(k: nat, f: nat, name: Name, owner: int, lock: bool, now: int)
      returns (reply: Reply, failed: bool)
      requires Valid() && k < |clients| && f < |files|
      modifies this, files
      ensures Valid() && CreateAt(old(View()), k, f, name, owner, lock, now) == Returned(View(), reply, failed)
    {
      var res := CreateInSlot(f, name, owner, now);
      if res != OK {
        assert slots == old(slots);
        return Answer(if res == EEXIST then AlreadyExists else NoFlag), res != EEXIST;
      }
      reply, failed := OpenCreated(k, f, name, owner, lock);
      assert old(slots)[f := Create(old(slots[f]), name, owner, now).0][f := slots[f]] == old(slots)[f := slots[f]];
    }

    method OpenFileCreate(k: nat, name: Name, owner: int, lock: bool, now: int) returns (reply: Reply, failed: bool)
      requires Valid() && k < |clients|
      modifies this, files
      ensures Valid() && DoCreate(old(View()), k, name, owner, lock, now) == Returned(View(), reply, failed)
    {
      var fslot := GetFile(name);
      if fslot.Some? { return Answer(AlreadyExists), false; }
      var nof := GetEmptySlot();
      if nof.None? { return Answer(MaxFiles), false; }
      reply, failed := FillSlot(k, nof.value, name, owner, lock, now);
    }

    method OpenFileOpen(name: Name, owner: int) returns (reply: Reply, failed: bool)
      requires Valid()
      modifies this`slots, files
      ensures Valid() && DoOpenExisting(old(View()), name, owner) == Returned(View(), reply, failed)
    {
      var fslot := GetFile(name);
      if fslot.None? { return Answer(NotExists), false; }
      var e := OpenInSlot(fslot.value, owner);
      return Answer(StatusOf(e, NotOwner)), e == EINVAL || e == EPERM;
    }

    method CloseFile(c: int, name: Name) returns (reply: Reply, failed: bool)
      requires Valid()
      modifies this, files
      ensures Valid() && DoClose(old(View()), c, name) == Returned(View(), reply, failed)
    {
      var fex := GetFile(name);
      if fex.None? { return Answer(NotExists), false; }
      var e, diff := CloseInSlot(fex.value, c);
      if e == OK {
        storage := storage - diff;
      }
      return Answer(StatusOf(e, NotOwner)), e == EINVAL;
    }

    method ReadFile(c: int, name: Name) returns (reply: Reply, failed: bool)
      requires Valid()
      modifies this`slots, files
      ensures Valid() && DoRead(old(View()), c, name) == Returned(View(), reply, failed)
    {
      var fex := GetFile(name);
      if fex.None? { return Answer(NotExists), false; }
      assert files[fex.value].View() == slots[fex.value];
      var e, bytes := files[fex.value].Read(c);
      Sync(fex.value);
      return Answer(StatusOf(e, NotOwner)).(bytes := bytes), e == EINVAL;
    }

    /** One turn of the readN loop. */
    method ReadNth(c: int, i: nat) returns (bytes: Option<Bytes>, diff: int)
      requires Valid() && i < |files|
      modifies this`slots, files
      ensures Valid() && slots == old(slots)[i := slots[i]]
      ensures (slots[i], bytes, diff) == ReadNSlot(old(slots[i]), c)
    {
      assert files[i].View() == slots[i];
      diff, bytes := 0, None;
      var wasClosed := files[i].openSize == -1;
      var opn := files[i].Open(c);
      if opn == OK {
        var res, data := files[i].Read(c);
        if wasClosed {
          var e, d := files[i].Close(c);
          diff := d;
        }
        bytes := if res == OK then Some(data) else None;
      }
      Sync(i);
    }

    /** The loop of readN started on `start` has got this far. */
    ghost predicate Reading(start: seq<Slot>, c: int, n: int, slots: seq<Slot>, i: int, sent: seq<Frame>, total: int) {
      0 <= i <= |slots| && ReadNFrom(slots, c, n, i, sent, total) == ReadNFrom(start, c, n, 0, [], 0)
    }

    lemma ReadNEnds(slots: seq<Slot>, c: int, n: int, i: nat, sent: seq<Frame>, total: int)
      requires i <= |slots| && (i == |slots| || !(n <= 0 || |sent| < n))
      ensures ReadNFrom(slots, c, n, i, sent, total) == (slots, sent, total)
    {
    }

    method ReadTurn(c: int, n: int, i: nat, sent: seq<Frame>, total: int) returns (sent': seq<Frame>, total': int)
      requires Valid() && i < |files| && (n <= 0 || |sent| < n)
      modifies this`slots, files
      ensures Valid() && forall start :: Reading(start, c, n, old(slots), i, sent, total) ==>
                                           Reading(start, c, n, slots, i + 1, sent', total')
    {
      var bytes, diff := ReadNth(c, i);
      assert files[i].View() == slots[i];
      sent', total' := sent, total + diff;
      if bytes.Some? {
        sent' := sent + [Frame(files[i].name, bytes.value)];
      }
    }

    method ReadAll(c: int, n: int) returns (sent: seq<Frame>, total: int)
      requires Valid()
      modifies this`slots, files
      ensures Valid() && (slots, sent, total) == ReadNFrom(old(slots), c, n, 0, [], 0)
    {
      var i := 0;
      sent, total := [], 0;
      while i < |files| && (n <= 0 || |sent| < n)
        invariant Valid() && i <= |files|
        invariant Reading(old(slots), c, n, slots, i, sent, total)
        decreases |files| - i
      {
        sent, total := ReadTurn(c, n, i, sent, total);
        i := i + 1;
      }
      ReadNEnds(slots, c, n, i, sent, total);
    }

    method ReadNFiles(c: int, n: int) returns (reply: Reply, failed: bool)
      requires Valid()
      modifies this, files
      ensures Valid() && DoReadN(old(View()), c, n) == Returned(View(), reply, failed)
    {
      var sent, total := ReadAll(c, n);
      storage := storage - total;
      return Answer(Success).(files := sent), false;
    }

    /** The write or append proper. */
    method StoreBytes(c: int, payload: Bytes, f: nat, append: bool) returns (e: Errno)
      requires Valid() && f < |files|
      modifies this`slots, files
      ensures Valid() && slots == old(slots)[f := slots[f]]
      ensures (slots[f], e) == if append then Append(old(slots[f]), c, payload) else Write(old(slots[f]), c, payload)
    {
      assert files[f].View() == slots[f];
      if append {
        e := files[f].Append(c, payload);
      } else {
        e := files[f].Write(c, payload);
      }
      Sync(f);
    }

    method ReserveStorage(n: nat)
      modifies this`storage, this`peakStorage
      ensures storage == old(storage) + n
      ensures peakStorage == if storage >= old(peakStorage) then storage else old(peakStorage)
    {
      storage := storage + n;
      if storage >= peakStorage { peakStorage := storage; }
    }

    /** Reserve, write or append, and release again if that failed. */
    method StoreNow(c: int, payload: Bytes, f: nat, append: bool) returns (e: Errno)
      requires Valid() && f < |files|
      modifies this, files
      ensures Valid() && (View(), e) == Store(old(View()), c, payload, f, append)
    {
      ReserveStorage(|payload|);
      e := StoreBytes(c, payload, f, append);
      if e != OK {
        storage := storage - |payload|;
      }
    }

    /** What do_write_file and do_append_file share once they know the slot. */
    method StoreInto(c: int, name: Name, payload: Bytes, f: nat, append: bool, turns: seq<int>)
      returns (reply: Reply, failed: bool, done: bool)
      requires Valid() && f < |files|
      modifies this, files
      ensures Valid()
      ensures DoStore(cfg, old(View()), c, name, payload, f, append, turns) ==
              if done then Returned(View(), reply, failed) else Spinning(View())
    {
      if |payload| > cfg.maxStorage { return Answer(NoFlag), false, true; }
      var fits, shipped := MakeRoom(name, |payload|, turns);
      if !fits { return Answer(NoFlag), false, false; }
      var e := StoreNow(c, payload, f, append);
      return Answer(StatusOf(e, NotLocked)).(shipped := shipped), e == EINVAL || (append && e == EEXIST), true;
    }

    method WriteFile(k: nat, c: int, name: Name, payload: Bytes, turns: seq<int>)
      returns (reply: Reply, failed: bool, done: bool)
      requires Valid() && k < |clients|
      modifies this, files
      ensures Valid()
      ensures DoWrite(cfg, old(View()), k, c, name, payload, turns) ==
              if done then Returned(View(), reply, failed) else Spinning(View())
    {
      if clients[k].lastop != name { return Answer(NoFlag), false, true; }
      SetToken(k, []);
      var f := GetFile(name);
      if f.None? { return Answer(NotExists), false, true; }
      reply, failed, done := StoreInto(c, name, payload, f.value, false, turns);
    }

    method AppendFile(c: int, name: Name, payload: Bytes, turns: seq<int>)
      returns (reply: Reply, failed: bool, done: bool)
      requires Valid()
      modifies this, files
      ensures Valid()
      ensures DoAppend(cfg, old(View()), c, name, payload, turns) ==
              if done then Returned(View(), reply, failed) else Spinning(View())
    {
      var f := GetFile(name);
      if f.None? { return Answer(NotExists), false, true; }
      reply, failed, done := StoreInto(c, name, payload, f.value, true, turns);
    }

    method LockFile(c: int, name: Name) returns (reply: Reply, failed: bool)
      requires Valid()
      modifies this`slots, files
      ensures Valid() && DoLock(old(View()), c, name) == Returned(View(), reply, failed)
    {
      var fex := GetFile(name);
      if fex.None? { return Answer(NotExists), false; }
      assert files[fex.value].View() == slots[fex.value];
      var e := files[fex.value].Lock(c);
      Sync(fex.value);
      return Answer(StatusOf(e, NotOwner)), e == EINVAL;
    }

    method UnlockFile(c: int, name: Name) returns (reply: Reply, failed: bool)
      requires Valid()
      modifies this`slots, files
      ensures Valid() && DoUnlock(old(View()), c, name) == Returned(View(), reply, failed)
    {
      var fex := GetFile(name);
      if fex.None? { return Answer(NotExists), false; }
      assert files[fex.value].View() == slots[fex.value];
      var e := files[fex.value].Unlock(c);
      Sync(fex.value);
      return Answer(StatusOf(e, NotOwner)), e == EINVAL;
    }

    method RemoveFile(c: int, name: Name) returns (reply: Reply, failed: bool)
      requires Valid()
      modifies this, files
      ensures Valid() && DoRemove(old(View()), c, name) == Returned(View(), reply, failed)
    {
      var fex := GetFile(name);
      if fex.None? { return Answer(NotExists), false; }
      assert files[fex.value].View() == slots[fex.value];
      if files[fex.value].owner == OWNER_NULL { return Answer(NotLocked), false; }
      var e, size := RemoveInSlot(fex.value, c);
      if e == OK {
        nfiles := nfiles - 1;
        storage := storage - size;
      }
      return Answer(StatusOf(e, NotOwner)), e == EINVAL;
    }

    method AddClient(fd: int) returns (ok: bool)
      modifies this`clients, this`nconns, this`peakConns
      ensures slots == old(slots) && (View(), ok) == Requests.AddClient(cfg, old(View()), fd)
    {
      if fd < 0 || nconns >= cfg.maxConns { return false; }
      var k := GetClient(-1);
      if k.None? { return false; }
      clients := clients[k.value := Client(fd, [])];
      nconns := nconns + 1;
      if nconns > peakConns { peakConns := nconns; }
      return true;
    }

    method RemoveClient(fd: int) returns (ok: bool)
      modifies this`clients, this`nconns
      ensures slots == old(slots) && (View(), ok) == Requests.RemoveClient(old(View()), fd)
    {
      if fd < 0 || nconns <= 0 { return false; }
      var k := GetClient(fd);
      if k.None? { return false; }
      clients := clients[k.value := clients[k.value].(fd := -1)];
      nconns := nconns - 1;
      return true;
    }

    /** One turn of the disconnect loop. */
    method ReleaseNth(c: int, i: nat) returns (diff: int)
      requires Valid() && i < |files|
      modifies this`slots, files
      ensures Valid()
      ensures forall d :: ReleaseFrom(old(slots), c, i, d) == ReleaseFrom(slots, c, i + 1, d + diff)
    {
      assert files[i].View() == slots[i];
      diff := 0;
      if files[i].owner != OWNER_NEXIST && files[i].owner == c {
        var e, d := files[i].Close(c);
        Sync(i);
        diff := d;
      }
    }

    method ReleaseAll(c: int) returns (total: int)
      requires Valid()
      modifies this`slots, files
      ensures Valid() && (slots, total) == ReleaseFrom(old(slots), c, 0, 0)
    {
      var i := 0;
      total := 0;
      while i < |files|
        invariant Valid() && i <= |files|
        invariant ReleaseFrom(slots, c, i, total) == ReleaseFrom(old(slots), c, 0, 0)
      {
        var diff := ReleaseNth(c, i);
        total := total + diff;
        i := i + 1;
      }
    }

    method ReleaseAndSettle(c: int)
      requires Valid()
      modifies this`slots, this`storage, files
      ensures var (after, diff) := ReleaseFrom(old(slots), c, 0, 0);
              Valid() && View() == old(View()).(slots := after, storage := old(storage) - diff)
    {
      var total := ReleaseAll(c);
      storage := storage - total;
    }

    method CloseConnection(c: int) returns (reply: Reply, failed: bool)
      requires Valid()
      modifies this, files
      ensures Valid() && DoDisconnect(old(View()), c) == Returned(View(), reply, failed)
    {
      ReleaseAndSettle(c);
      var removed := RemoveClient(c);
      return Answer(NoFlag), !removed;
    }

    method HandleSimple(c: int, req: Request) returns (reply: Reply, failed: bool)
      requires Valid() && Simple(req)
      modifies this, files
      ensures Valid() && DoSimple(old(View()), c, req) == Returned(View(), reply, failed)
    {
      match req {
        case CloseFile(name) => reply, failed := CloseFile(c, name);
        case ReadFile(name) => reply, failed := ReadFile(c, name);
        case ReadN(n) => reply, failed := ReadNFiles(c, n);
        case LockFile(name) => reply, failed := LockFile(c, name);
        case UnlockFile(name) => reply, failed := UnlockFile(c, name);
        case RemoveFile(name) => reply, failed := RemoveFile(c, name);
      }
    }

    method OpenFile(k: nat, c: int, name: Name, create: bool, lock: bool, now: int) returns (reply: Reply, failed: bool)
      requires Valid() && k < |clients|
      modifies this, files
      ensures Valid() && DoOpen(old(View()), k, c, name, create, lock, now) == Returned(View(), reply, failed)
    {
      SetToken(k, []);
      var owner := if lock then c else OWNER_NULL;
      if create {
        reply, failed := OpenFileCreate(k, name, owner, lock, now);
      } else {
        reply, failed := OpenFileOpen(name, owner);
      }
    }

    /** The dispatch of worker_do, for the client in entry k. */
    method Dispatch(k: nat, c: int, req: Request, clock: Clock) returns (reply: Reply, failed: bool, done: bool)
      requires Valid() && c >= 0 && FindClient(clients, c) == Some(k)
      modifies this, files
      ensures Valid()
      ensures Handle(cfg, old(View()), c, req, clock) ==
              if done then Returned(View(), reply, failed) else Spinning(View())
    {
      done := true;
      match req {
        case OpenFile(name, create, lock) => reply, failed := OpenFile(k, c, name, create, lock, clock.now);
        case WriteFile(name, payload) => reply, failed, done := WriteFile(k, c, name, payload, clock.turns);
        case AppendFile(name, payload) =>
          SetToken(k, []);
          reply, failed, done := AppendFile(c, name, payload, clock.turns);
        case CloseConnection => reply, failed := CloseConnection(c);
        case Unknown => reply, failed := Answer(NoFlag), false;
        case _ => reply, failed := ForgetAndHandle(k, c, req);
      }
    }

    method ForgetAndHandle(k: nat, c: int, req: Request) returns (reply: Reply, failed: bool)
      requires Valid() && Simple(req) && k < |clients|
      modifies this, files
      ensures Valid() && DoSimple(SetLastop(old(View()), k, []), c, req) == Returned(View(), reply, failed)
    {
      SetToken(k, []);
      reply, failed := HandleSimple(c, req);
    }

    /** worker_do: look the client up and dispatch its message. */
    method HandleRequest(c: int, req: Request, clock: Clock) returns (reply: Reply, failed: bool, done: bool)
      requires Valid()
      modifies this, files
      ensures Valid()
      ensures Handle(cfg, old(View()), c, req, clock) ==
              if done then Returned(View(), reply, failed) else Spinning(View())
    {
      if c < 0 { return Answer(NoFlag), true, true; }
      var client := GetClient(c);
      if client.None? { return Answer(NoFlag), true, true; }
      reply, failed, done := Dispatch(client.value, c, req, clock);
    }
  }
}
