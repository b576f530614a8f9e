/** Whole runs of the server, one request at a time: any number of clients come,
    ask and go, as long as every handler returns. */
module Runs {
  import opened Basics
  import opened Slots
  import opened Table
  import opened ServerState
  import opened EvictionProofs
  import opened Requests
  import opened Refinement

  // ----------------------------------------------------------- the invariant

  function LiveClient(k: Client): int {
    if k.fd != -1 then 1 else 0
  }

  ghost predicate ClientsOk(cfg: Config, st: State) {
    && |st.clients| == cfg.maxConns
    && (forall i :: 0 <= i < |st.clients| ==>
          st.clients[i].fd == -1 || (st.clients[i].fd > 0 && st.clients[i].fd != OWNER_ADMIN))
    && (forall i, j :: 0 <= i < j < |st.clients| && st.clients[i].fd != -1 ==> st.clients[i].fd != st.clients[j].fd)
    && st.nconns == Sum(st.clients, LiveClient)
  }

  ghost predicate OwnersLive(st: State) {
    forall i :: 0 <= i < |st.slots| && st.slots[i].owner > OWNER_NULL ==>
      FindClient(st.clients, st.slots[i].owner).Some?
  }

  /** The file p exists, is open, is still empty and belongs to fd. */
  predicate FreshlyCreated(s: Slot, p: Name, fd: int) {
    Holds(s, p) && s.owner == fd && s.working == Some([])
  }

  ghost predicate TokenSound(slots: seq<Slot>, k: Client) {
    k.fd != -1 && k.lastop != [] ==> exists i :: 0 <= i < |slots| && FreshlyCreated(slots[i], k.lastop, k.fd)
  }

  ghost predicate Inv(cfg: Config, st: State) {
    && SlotsOk(cfg, st)
    && ClientsOk(cfg, st)
    && OwnersLive(st)
    && forall i :: 0 <= i < |st.clients| ==> TokenSound(st.slots, st.clients[i])
  }

  lemma FindClientUnique(cfg: Config, st: State, k: nat)
    requires ClientsOk(cfg, st) && k < |st.clients| && st.clients[k].fd != -1
    ensures FindClient(st.clients, st.clients[k].fd) == Some(k)
  {
    assert FindClient(st.clients, st.clients[k].fd).Some?;
  }

  // --------------------------------------- what a request does to the clients

  /** The token after a request that leaves the client connected. */
  function LastopAfter(lastop: Name, req: Request, status: Status): Name {
    match req
    case OpenFile(name, create, lock) => if create && lock && status == Success then name else []
    case WriteFile(name, _) => if lastop == name then [] else lastop
    case Unknown => lastop
    case _ => []
  }

  /** A write or append leaves the client table alone. */
  lemma StoreClients(cfg: Config, st: State, c: int, name: Name, payload: Bytes, f: nat, append: bool, turns: seq<int>)
    requires Tidy(st) && f < |st.slots| && DoStore(cfg, st, c, name, payload, f, append, turns).Returned?
    ensures var t := DoStore(cfg, st, c, name, payload, f, append, turns).st;
            t.clients == st.clients && t.nconns == st.nconns
  {
    EvictLoopCorrect(cfg, st, name, |payload|, turns);
  }

  lemma HandleClients(cfg: Config, st: State, c: int, req: Request, clock: Clock)
    requires Tidy(st) && c > 0 && FindClient(st.clients, c).Some? && !req.CloseConnection?
    requires Handle(cfg, st, c, req, clock).Returned?
    ensures var k, out := FindClient(st.clients, c).value, Handle(cfg, st, c, req, clock);
            && out.st.clients ==
               st.clients[k := Client(c, LastopAfter(st.clients[k].lastop, req, out.reply.status))]
            && out.st.nconns == st.nconns
  {
    var k := FindClient(st.clients, c).value;
    var st1 := SetLastop(st, k, []);
    var f := if req.WriteFile? || req.AppendFile? then Find(st.slots, req.name) else None;
    assert st.clients[k := Client(c, st.clients[k].lastop)] == st.clients;
    match req {
      case WriteFile(name, payload) =>
        if st.clients[k].lastop == name && f.Some? {
          StoreClients(cfg, st1, c, name, payload, f.value, false, clock.turns);
        }
      case AppendFile(name, payload) =>
        if f.Some? {
          StoreClients(cfg, st1, c, name, payload, f.value, true, clock.turns);
        }
      case _ =>
    }
  }

  /** A create-and-lock that succeeds leaves the new file open, empty and owned. */
  lemma CreateGivesToken(st: State, k: nat, name: Name, c: int, now: int)
    requires AllCoherent(st.slots) && c > 0 && k < |st.clients|
    requires DoCreate(st, k, name, c, true, now).reply.status == Success
    ensures var slots := DoCreate(st, k, name, c, true, now).st.slots;
            exists i :: 0 <= i < |slots| && FreshlyCreated(slots[i], name, c)
  {
    var f := FreeFrom(st.slots, 0).value;
    var slots := DoCreate(st, k, name, c, true, now).st.slots;
    assert st.slots[f] == FREE;
    assert FreshlyCreated(slots[f], name, c);
  }

  /** Another client's request does not touch a freshly created file: it is not
      the other's to open and, being empty, not eligible for eviction. */
  lemma TokenSurvives(a: seq<Slot>, b: seq<Slot>, c: int, k: Client, shipped: seq<Frame>)
    requires AllCoherent(a) && AllAllowed(c, a, b, shipped) && TokenSound(a, k) && k.fd != c && k.fd != OWNER_NULL
    ensures TokenSound(b, k)
  {
    if k.fd != -1 && k.lastop != [] {
      var i :| 0 <= i < |a| && FreshlyCreated(a[i], k.lastop, k.fd);
      assert Coherent(a[i]) && Allowed(c, a[i], b[i], shipped);
      assert FreshlyCreated(b[i], k.lastop, k.fd);
    }
  }

  /** A request that keeps the token did not touch the table. */
  lemma TokenKeptMeansUnchanged(cfg: Config, st: State, c: int, req: Request, clock: Clock)
    requires Tidy(st) && c > 0 && FindClient(st.clients, c).Some? && Handle(cfg, st, c, req, clock).Returned?
    requires req.Unknown? || (req.WriteFile? && st.clients[FindClient(st.clients, c).value].lastop != req.name)
    ensures Handle(cfg, st, c, req, clock).st == st
  {
  }

  lemma SameClients(a: seq<Client>, b: seq<Client>, fd: int)
    requires |a| == |b| && forall i :: 0 <= i < |a| ==> a[i].fd == b[i].fd
    ensures FindClient(a, fd).Some? == FindClient(b, fd).Some?
  {
    var r, s := FindClient(a, fd), FindClient(b, fd);
    if r.Some? {
      assert b[r.value].fd == fd;
    }
    if s.Some? {
      assert a[s.value].fd == fd;
    }
  }

  /** Owners stay connected if c does. */
  lemma OwnersStayLive(st: State, t: State, c: int, shipped: seq<Frame>)
    requires OwnersLive(st) && AllAllowed(c, st.slots, t.slots, shipped) && FindClient(st.clients, c).Some?
    requires |t.clients| == |st.clients| && forall i :: 0 <= i < |t.clients| ==> t.clients[i].fd == st.clients[i].fd
    ensures OwnersLive(t)
  {
    forall i | 0 <= i < |t.slots| && t.slots[i].owner > OWNER_NULL
      ensures FindClient(t.clients, t.slots[i].owner).Some?
    {
      assert Allowed(c, st.slots[i], t.slots[i], shipped);
      SameClients(st.clients, t.clients, t.slots[i].owner);
    }
  }

  lemma TokensSurvive(st: State, t: State, c: int, k: nat, shipped: seq<Frame>)
    requires AllCoherent(st.slots) && AllAllowed(c, st.slots, t.slots, shipped) && |t.clients| == |st.clients|
    requires forall i :: 0 <= i < |st.clients| ==> TokenSound(st.slots, st.clients[i])
    requires forall i :: 0 <= i < |st.clients| && i != k ==>
               t.clients[i] == st.clients[i] && st.clients[i].fd !in {c, OWNER_NULL}
    ensures forall i :: 0 <= i < |t.clients| && i != k ==> TokenSound(t.slots, t.clients[i])
  {
    forall i | 0 <= i < |t.clients| && i != k ensures TokenSound(t.slots, t.clients[i]) {
      TokenSurvives(st.slots, t.slots, c, st.clients[i], shipped);
    }
  }

  lemma OwnTokenSound(cfg: Config, st: State, c: int, req: Request, clock: Clock)
    requires Inv(cfg, st) && c > 0 && !req.CloseConnection? && FindClient(st.clients, c).Some?
    requires Handle(cfg, st, c, req, clock).Returned?
    ensures var k, out := FindClient(st.clients, c).value, Handle(cfg, st, c, req, clock);
            TokenSound(out.st.slots, Client(c, LastopAfter(st.clients[k].lastop, req, out.reply.status)))
  {
    var k := FindClient(st.clients, c).value;
    if req.Unknown? || (req.WriteFile? && st.clients[k].lastop != req.name) {
      TokenKeptMeansUnchanged(cfg, st, c, req, clock);
      assert TokenSound(st.slots, st.clients[k]);
    } else if req.OpenFile? && req.create && req.lock && Handle(cfg, st, c, req, clock).reply.status == Success {
      CreateGivesToken(SetLastop(st, k, []), k, req.name, c, clock.now);
    }
  }

  lemma HandleKeepsInv(cfg: Config, st: State, c: int, req: Request, clock: Clock)
    requires Inv(cfg, st) && c > 0 && c != OWNER_ADMIN && !req.CloseConnection? && FindClient(st.clients, c).Some?
    requires Handle(cfg, st, c, req, clock).Returned?
    ensures Inv(cfg, Handle(cfg, st, c, req, clock).st)
  {
    var k, out := FindClient(st.clients, c).value, Handle(cfg, st, c, req, clock);
    var t, shipped := out.st, out.reply.shipped;
    HandleSound(cfg, st, c, req, clock);
    HandleClients(cfg, st, c, req, clock);
    OwnTokenSound(cfg, st, c, req, clock);
    SumUpdate(st.clients, k, t.clients[k], LiveClient);
    OwnersStayLive(st, t, c, shipped);
    TokensSurvive(st, t, c, k, shipped);
  }

  lemma DisconnectClients(cfg: Config, st: State, c: int)
    requires ClientsOk(cfg, st) && c > 0 && FindClient(st.clients, c).Some?
    ensures var k, out := FindClient(st.clients, c).value, DoDisconnect(st, c);
            && !out.failed && out.st.clients == st.clients[k := st.clients[k].(fd := -1)]
            && ClientsOk(cfg, out.st) && FindClient(out.st.clients, c).None?
  {
    var k, t := FindClient(st.clients, c).value, DoDisconnect(st, c).st;
    SumNonNegative(st.clients, LiveClient);
    assert LiveClient(st.clients[k]) == 1;
    SumUpdate(st.clients, k, st.clients[k].(fd := -1), LiveClient);
  }

  lemma DisconnectKeepsInv(cfg: Config, st: State, c: int)
    requires Inv(cfg, st) && c > 0 && c != OWNER_ADMIN && FindClient(st.clients, c).Some?
    ensures Inv(cfg, DoDisconnect(st, c).st)
  {
    var k, t := FindClient(st.clients, c).value, DoDisconnect(st, c).st;
    DisconnectSound(cfg, st, c);
    DisconnectClients(cfg, st, c);
    TokensSurvive(st, t, c, k, []);
    OthersStayLive(st, t, c, k);
  }

  /** Owners stay connected when c, who owns nothing any more, leaves. */
  lemma OthersStayLive(st: State, t: State, c: int, k: nat)
    requires OwnersLive(st) && AllAllowed(c, st.slots, t.slots, [])
    requires forall i :: 0 <= i < |t.slots| ==> t.slots[i].owner != c
    requires k < |st.clients| && st.clients[k].fd == c && t.clients == st.clients[k := st.clients[k].(fd := -1)]
    ensures OwnersLive(t)
  {
    forall i | 0 <= i < |t.slots| && t.slots[i].owner > OWNER_NULL
      ensures FindClient(t.clients, t.slots[i].owner).Some?
    {
      assert Allowed(c, st.slots[i], t.slots[i], []);
      var j := FindClient(st.clients, t.slots[i].owner).value;
      assert j != k && t.clients[j].fd == t.slots[i].owner;
    }
  }

  lemma ConnectKeepsInv(cfg: Config, st: State, fd: int)
    requires Inv(cfg, st) && fd > 0 && fd != OWNER_ADMIN && FindClient(st.clients, fd).None?
    ensures Inv(cfg, Connect(cfg, st, fd).0)
    ensures var (t, ok) := Connect(cfg, st, fd);
            && t.slots == st.slots
            && (ok <==> Sum(st.clients, LiveClient) < cfg.maxConns)
            && (ok ==> FindClient(t.clients, fd).Some?)
  {
    var (t, ok) := Connect(cfg, st, fd);
    if st.nconns < cfg.maxConns && FindClient(st.clients, -1).None? {
      AllLive(st.clients);
      assert false;
    }
    if ok {
      var k := FindClient(st.clients, -1).value;
      SumUpdate(st.clients, k, t.clients[k], LiveClient);
      assert t.clients[k].fd == fd;
      forall i | 0 <= i < |t.slots| && t.slots[i].owner > OWNER_NULL
        ensures FindClient(t.clients, t.slots[i].owner).Some?
      {
        var j := FindClient(st.clients, t.slots[i].owner).value;
        assert t.clients[j].fd == t.slots[i].owner;
      }
    }
  }

  lemma {:induction false} AllLive(clients: seq<Client>)
    requires forall i :: 0 <= i < |clients| ==> clients[i].fd != -1
    ensures Sum(clients, LiveClient) == |clients|
  {
    if |clients| > 0 {
      AllLive(clients[..|clients| - 1]);
    }
  }

  // -------------------------------------------------------------------- runs

  /** A client connects on fd, or the client on c sends a request. */
  datatype Event = Arrive(fd: int) | Ask(c: int, req: Request, clock: Clock)

  datatype Entry = Entry(event: Event, reply: Reply)

  function Step(cfg: Config, st: State, e: Event): (out: Outcome)
    requires st.lruPos < |st.slots|
  {
    match e
    case Arrive(fd) => var (t, ok) := Connect(cfg, st, fd); Returned(t, Answer(if ok then Success else NoFlag), false)
    case Ask(c, req, clock) => Handle(cfg, st, c, req, clock)
  }

  /** Connection numbers are positive, never the administrator's, and the kernel
      does not hand out one that is in use. */
  predicate EventOk(st: State, e: Event) {
    match e
    case Arrive(fd) => fd > 0 && fd != OWNER_ADMIN && FindClient(st.clients, fd).None?
    case Ask(c, _, _) => c > 0 && c != OWNER_ADMIN
  }

  datatype Trace = Start | Then(before: Trace, event: Event)

  /** A run of a server with `files` slots, from start-up to state st: every
      handler on the way returned.  `log` is what a witness of all the requests
      and replies would have written down. */
  ghost predicate Run(cfg: Config, files: nat, tr: Trace, st: State, log: seq<Entry>) {
    match tr
    case Start => st == Initial(cfg, files) && log == []
    case Then(before, e) =>
      exists prior: State, past: seq<Entry> ::
        && Run(cfg, files, before, prior, past)
        && StepTo(cfg, prior, e, st, past, log)
  }

  ghost predicate StepTo(cfg: Config, prior: State, e: Event, st: State, past: seq<Entry>, log: seq<Entry>) {
    && prior.lruPos < |prior.slots|
    && EventOk(prior, e)
    && var out := Step(cfg, prior, e);
       out.Returned? && out.st == st && log == past + [Entry(e, out.reply)]
  }

  lemma InitialInv(cfg: Config, files: nat)
    requires files > 0
    ensures Inv(cfg, Initial(cfg, files))
  {
    var st := Initial(cfg, files);
    SumZero(st.slots, Size);
    SumZero(st.slots, One);
    SumZero(st.clients, LiveClient);
  }

  lemma StepKeepsInv(cfg: Config, st: State, e: Event)
    requires Inv(cfg, st) && EventOk(st, e) && Step(cfg, st, e).Returned?
    ensures Inv(cfg, Step(cfg, st, e).st)
  {
    match e
    case Arrive(fd) => ConnectKeepsInv(cfg, st, fd);
    case Ask(c, req, clock) =>
      if FindClient(st.clients, c).Some? {
        if req.CloseConnection? {
          DisconnectKeepsInv(cfg, st, c);
        } else {
          HandleKeepsInv(cfg, st, c, req, clock);
        }
      }
  }

  /** The invariant holds at the end of every run. */
  lemma {:induction false} RunInvariant(cfg: Config, files: nat, tr: Trace, st: State, log: seq<Entry>)
    requires files > 0 && Run(cfg, files, tr, st, log)
    ensures Inv(cfg, st) && |st.slots| == files
  {
    match tr
    case Start => InitialInv(cfg, files);
    case Then(before, e) =>
      var prior: State, past: seq<Entry> :|
        Run(cfg, files, before, prior, past) && StepTo(cfg, prior, e, st, past, log);
      RunInvariant(cfg, files, before, prior, past);
      StepKeepsInv(cfg, prior, e);
      if e.Ask? {
        HandleSound(cfg, prior, e.c, e.req, e.clock);
      }
  }

  // -------------------------------------------- the map, told from the replies

  /** What the replies of a run say is stored under n: empty since the last
      successful creation, extended by every successful write and append since,
      nothing after a removal or an eviction. */
  function History(log: seq<Entry>, n: Name): Option<Bytes> {
    if |log| == 0 then None
    else
      var before := History(log[..|log| - 1], n);
      var last := log[|log| - 1];
      if last.event.Ask? then After(before, n, last.event.req, last.reply) else before
  }

  /** At the end of every run the table holds exactly what the replies say. */
  lemma {:induction false} RunRefinesHistory(cfg: Config, files: nat, tr: Trace, st: State, log: seq<Entry>, n: Name)
    requires files > 0 && Run(cfg, files, tr, st, log)
    ensures FileAt(st.slots, n) == History(log, n)
  {
    match tr
    case Start =>
      assert forall i :: 0 <= i < |st.slots| ==> !Holds(st.slots[i], n);
    case Then(before, e) =>
      var prior: State, past: seq<Entry> :|
        Run(cfg, files, before, prior, past) && StepTo(cfg, prior, e, st, past, log);
      RunRefinesHistory(cfg, files, before, prior, past, n);
      RunInvariant(cfg, files, before, prior, past);
      assert log[..|log| - 1] == past;
      if e.Ask? {
        HandleSound(cfg, prior, e.c, e.req, e.clock);
      } else {
        ConnectKeepsInv(cfg, prior, e.fd);
      }
  }
}
