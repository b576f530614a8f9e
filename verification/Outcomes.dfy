/** The requests about one file, told from that file alone: what a client is answered
    and what becomes of the file, without saying how the handlers get there. */
module Outcomes {
  import opened Basics
  import opened Slots
  import opened Table
  import opened ServerState
  import opened Requests
  import opened Refinement
  import opened Operations

  /** An open of an existing file, a close, a read, a lock, an unlock or a removal. */
  predicate AboutOne(req: Request) {
    || (req.OpenFile? && !req.create) || req.CloseFile? || req.ReadFile?
    || req.LockFile? || req.UnlockFile? || req.RemoveFile?
  }

  /** The answer the file gives to client c.  Only an open may ask on nobody's behalf,
      and then it must be nobody's file; what is closed can be opened, closed and
      removed only; and a file without an owner is not locked enough to be removed. */
  function Verdict(req: Request, c: int, s: Slot): Status
    requires AboutOne(req)
  {
    if req.RemoveFile? && s.owner == OWNER_NULL then NotLocked
    else if s.owner != c && (s.owner != OWNER_NULL || req.UnlockFile?) then NotOwner
    else if req.OpenFile? && !req.lock && s.owner == c then NotOwner
    else if (req.ReadFile? || req.LockFile?) && !IsOpen(s) then NotOpen
    else Success
  }

  /** The file after the request succeeded. */
  function Served(req: Request, c: int, s: Slot): Slot
    requires AboutOne(req)
  {
    var t := s.(freq := s.freq + 1, used := true);
    match req
    case OpenFile(_, _, lock) => t.(working := Some(Contents(s)), owner := if lock then c else OWNER_NULL)
    case CloseFile(_) => t.(data := Contents(s), working := None, added := 0, owner := OWNER_NULL)
    case ReadFile(_) => t
    case LockFile(_) => t.(owner := c)
    case UnlockFile(_) => t.(owner := OWNER_NULL)
    case RemoveFile(_) => FREE
  }

  function AnswerOf(req: Request, c: int, s: Slot): Reply
    requires AboutOne(req)
  {
    var status := Verdict(req, c, s);
    Answer(status).(bytes := if req.ReadFile? && status == Success then Contents(s) else [])
  }

  function Handled(st: State, c: int, req: Request): Outcome
    requires AboutOne(req)
  {
    if req.OpenFile? then DoOpenExisting(st, req.name, if req.lock then c else OWNER_NULL) else DoSimple(st, c, req)
  }

  /** The state the request leaves: only its file changes, and the totals by what a
      removal takes away. */
  function Leaves(st: State, c: int, req: Request, f: nat): State
    requires AboutOne(req) && f < |st.slots|
  {
    var s := st.slots[f];
    if Verdict(req, c, s) != Success then st
    else
      var gone := req.RemoveFile?;
      st.(slots := st.slots[f := Served(req, c, s)], nfiles := st.nfiles - if gone then 1 else 0,
          storage := st.storage - if gone then |Contents(s)| else 0)
  }

  lemma SlotOutcome(s: Slot, c: int, req: Request)
    requires AboutOne(req) && Coherent(s) && Settled(s) && Exists(s) && ClientId(c)
    ensures var (t, e) :=
              match req
              case OpenFile(_, _, lock) => Open(s, if lock then c else OWNER_NULL)
              case CloseFile(_) => (Close(s, c).0, Close(s, c).1)
              case ReadFile(_) => (Read(s, c).0, Read(s, c).1)
              case LockFile(_) => Lock(s, c)
              case UnlockFile(_) => Unlock(s, c)
              case RemoveFile(_) => (Remove(s, c).0, Remove(s, c).1);
            && t == (if Verdict(req, c, s) == Success then Served(req, c, s) else s)
            && e != EINVAL && e != ENOENT && e != EEXIST
            && (Verdict(req, c, s) != NotLocked ==> StatusOf(e, NotOwner) == Verdict(req, c, s))
  {
    var who := if req.OpenFile? && !req.lock then OWNER_NULL else c;
    OpenExactly(s, who);
    CloseExactly(s, c);
    ReadExactly(s, c);
    LockExactly(s, c);
    UnlockExactly(s, c);
    RemoveExactly(s, c);
  }

  predicate ClientId(c: int) {
    c > OWNER_NULL && c != OWNER_ADMIN
  }

  ghost predicate ExactlyHandled(st: State, c: int, req: Request, out: Outcome)
    requires AboutOne(req)
  {
    out == match Find(st.slots, req.name)
           case None => Returned(st, Answer(NotExists), false)
           case Some(f) => Returned(Leaves(st, c, req, f), AnswerOf(req, c, st.slots[f]), false)
  }

  lemma OpenHandled(st: State, c: int, name: Name, lock: bool, f: nat)
    requires Find(st.slots, name) == Some(f) && Coherent(st.slots[f]) && Settled(st.slots[f]) && ClientId(c)
    ensures ExactlyHandled(st, c, OpenFile(name, false, lock), Handled(st, c, OpenFile(name, false, lock)))
  {
    SlotOutcome(st.slots[f], c, OpenFile(name, false, lock));
    assert st.slots[f := st.slots[f]] == st.slots;
  }

  lemma SimpleHandled(st: State, c: int, req: Request, f: nat)
    requires AboutOne(req) && !req.OpenFile? && Find(st.slots, req.name) == Some(f)
    requires Coherent(st.slots[f]) && Settled(st.slots[f]) && ClientId(c)
    ensures ExactlyHandled(st, c, req, Handled(st, c, req))
  {
    SlotOutcome(st.slots[f], c, req);
    assert st.slots[f := st.slots[f]] == st.slots;
    CloseExactly(st.slots[f], c);
    ReadExactly(st.slots[f], c);
    RemoveExactly(st.slots[f], c);
  }

  /** Every such request is answered exactly so, and leaves exactly that state. */
  lemma AboutOneExactly(cfg: Config, st: State, c: int, req: Request)
    requires SlotsOk(cfg, st) && ClientId(c) && AboutOne(req)
    ensures ExactlyHandled(st, c, req, Handled(st, c, req))
  {
    var found := Find(st.slots, req.name);
    if found.Some? {
      assert Coherent(st.slots[found.value]) && Settled(st.slots[found.value]);
      if req.OpenFile? {
        OpenHandled(st, c, req.name, req.lock, found.value);
      } else {
        SimpleHandled(st, c, req, found.value);
      }
    }
  }

  /** ... also through the dispatch, which forgets the client's last operation first. */
  lemma HandleOneExactly(cfg: Config, st: State, c: int, req: Request, clock: Clock, k: nat)
    requires SlotsOk(cfg, st) && ClientId(c) && AboutOne(req) && FindClient(st.clients, c) == Some(k)
    ensures Handle(cfg, st, c, req, clock) ==
            match Find(st.slots, req.name)
            case None => Returned(SetLastop(st, k, []), Answer(NotExists), false)
            case Some(f) => Returned(Leaves(SetLastop(st, k, []), c, req, f), AnswerOf(req, c, st.slots[f]), false)
  {
    AboutOneExactly(cfg, SetLastop(st, k, []), c, req);
  }

  /** So an acknowledgement means that the file was there and was served. */
  lemma AcknowledgedServes(cfg: Config, st: State, c: int, req: Request, clock: Clock, out: Outcome)
    requires SlotsOk(cfg, st) && ClientId(c) && AboutOne(req)
    requires out == Handle(cfg, st, c, req, clock) && out.Returned? && out.reply.status == Success
    ensures var f := Find(st.slots, req.name);
            && f.Some? && Verdict(req, c, st.slots[f.value]) == Success
            && out.reply == AnswerOf(req, c, st.slots[f.value])
            && out.st.slots == st.slots[f.value := Served(req, c, st.slots[f.value])]
  {
    HandleOneExactly(cfg, st, c, req, clock, FindClient(st.clients, c).value);
  }
}
