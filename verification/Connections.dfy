/** The client table of src/source/shared_state.c told from the replies: who is
    connected, how many they are, and the most there ever were. */
module Connections {
  import opened Basics
  import opened Table
  import opened ServerState
  import opened EvictionProofs
  import opened Requests
  import opened Runs

  /** Accepted and not hung up since. */
  function Live(log: seq<Entry>): set<int> {
    if |log| == 0 then {}
    else
      var before, last := Live(log[..|log| - 1]), log[|log| - 1];
      match last.event
      case Arrive(fd) => if last.reply.status == Success then before + {fd} else before
      case Ask(c, req, _) => if req.CloseConnection? then before - {c} else before
  }

  function MostLive(log: seq<Entry>): int {
    if |log| == 0 then 0 else Max(MostLive(log[..|log| - 1]), |Live(log)|)
  }

  ghost predicate TableIs(st: State, live: set<int>) {
    && (forall fd :: fd > 0 ==> (fd in live <==> FindClient(st.clients, fd).Some?))
    && (forall fd :: fd in live ==> fd > 0)
    && st.nconns == |live|
  }

  /** One entry of the table changes whose it is; every other client is found as before. */
  lemma EntryChanged(clients: seq<Client>, k: nat, e: Client)
    requires k < |clients|
    requires forall i :: 0 <= i < |clients| && i != k ==> clients[i].fd == -1 || clients[i].fd != clients[k].fd
    ensures forall fd :: fd > 0 ==>
              (FindClient(clients[k := e], fd).Some? <==>
               fd == e.fd || (fd != clients[k].fd && FindClient(clients, fd).Some?))
  {
    var after := clients[k := e];
    forall fd | fd > 0
      ensures FindClient(after, fd).Some? <==> fd == e.fd || (fd != clients[k].fd && FindClient(clients, fd).Some?)
    {
      var r := FindClient(clients, fd);
      assert after[k].fd == e.fd;
      if r.Some? && r.value != k {
        assert after[r.value].fd == fd;
      }
      if FindClient(after, fd).Some? && FindClient(after, fd).value != k {
        assert clients[FindClient(after, fd).value].fd == fd;
      }
    }
  }

  lemma StorePeaks(cfg: Config, st: State, c: int, name: Name, payload: Bytes, f: nat, append: bool, turns: seq<int>)
    requires Tidy(st) && f < |st.slots| && DoStore(cfg, st, c, name, payload, f, append, turns).Returned?
    ensures DoStore(cfg, st, c, name, payload, f, append, turns).st.peakConns == st.peakConns
  {
    EvictLoopCorrect(cfg, st, name, |payload|, turns);
  }

  lemma HandlePeaks(cfg: Config, st: State, c: int, req: Request, clock: Clock)
    requires Tidy(st) && Handle(cfg, st, c, req, clock).Returned?
    ensures Handle(cfg, st, c, req, clock).st.peakConns == st.peakConns
  {
    if c >= 0 && FindClient(st.clients, c).Some? && (req.WriteFile? || req.AppendFile?) &&
       Find(st.slots, req.name).Some? {
      var k, f := FindClient(st.clients, c).value, Find(st.slots, req.name).value;
      var st1 := SetLastop(st, k, []);
      if req.AppendFile? {
        StorePeaks(cfg, st1, c, req.name, req.payload, f, true, clock.turns);
      } else if st.clients[k].lastop == req.name {
        StorePeaks(cfg, st1, c, req.name, req.payload, f, false, clock.turns);
      }
    }
  }

  /** What the table says after one entry changed. */
  lemma EntryCounts(st: State, t: State, k: nat, e: Client, live: set<int>, after: set<int>)
    requires TableIs(st, live) && k < |st.clients| && t.clients == st.clients[k := e] && t.nconns == |after|
    requires forall i :: 0 <= i < |st.clients| && i != k ==>
               st.clients[i].fd == -1 || st.clients[i].fd != st.clients[k].fd
    requires after == (live - {st.clients[k].fd}) + if e.fd > 0 then {e.fd} else {}
    ensures TableIs(t, after)
  {
    EntryChanged(st.clients, k, e);
  }

  lemma ArriveCounts(cfg: Config, st: State, fd: int, live: set<int>)
    requires Inv(cfg, st) && TableIs(st, live) && EventOk(st, Arrive(fd))
    ensures var (t, ok) := Connect(cfg, st, fd);
            && TableIs(t, if ok then live + {fd} else live)
            && t.peakConns == if ok then Max(st.peakConns, |live| + 1) else st.peakConns
  {
    var (t, ok) := Connect(cfg, st, fd);
    if ok {
      var k := FindClient(st.clients, -1).value;
      assert fd !in live && -1 !in live;
      EntryCounts(st, t, k, Client(fd, []), live, live + {fd});
    }
  }

  lemma HangUpCounts(cfg: Config, st: State, c: int, live: set<int>)
    requires Inv(cfg, st) && TableIs(st, live) && c > 0 && FindClient(st.clients, c).Some?
    ensures TableIs(DoDisconnect(st, c).st, live - {c})
  {
    var k, t := FindClient(st.clients, c).value, DoDisconnect(st, c).st;
    DisconnectClients(cfg, st, c);
    assert c in live;
    EntryCounts(st, t, k, t.clients[k], live, live - {c});
  }

  lemma ServedCounts(cfg: Config, st: State, c: int, req: Request, clock: Clock, live: set<int>)
    requires Inv(cfg, st) && TableIs(st, live) && c > 0 && FindClient(st.clients, c).Some? && !req.CloseConnection?
    requires Handle(cfg, st, c, req, clock).Returned?
    ensures TableIs(Handle(cfg, st, c, req, clock).st, live)
  {
    var k, t := FindClient(st.clients, c).value, Handle(cfg, st, c, req, clock).st;
    HandleClients(cfg, st, c, req, clock);
    assert c in live;
    assert live - {c} + {c} == live;
    EntryCounts(st, t, k, t.clients[k], live, live);
  }

  lemma StrangerCounts(cfg: Config, st: State, c: int, req: Request, clock: Clock, live: set<int>)
    requires st.lruPos < |st.slots| && TableIs(st, live) && c > 0 && FindClient(st.clients, c).None?
    ensures Handle(cfg, st, c, req, clock).st == st && live - {c} == live
  {
    assert c !in live;
  }

  lemma AskCounts(cfg: Config, st: State, c: int, req: Request, clock: Clock, live: set<int>)
    requires Inv(cfg, st) && TableIs(st, live) && c > 0 && Handle(cfg, st, c, req, clock).Returned?
    ensures TableIs(Handle(cfg, st, c, req, clock).st, if req.CloseConnection? then live - {c} else live)
  {
    if FindClient(st.clients, c).None? {
      StrangerCounts(cfg, st, c, req, clock, live);
    } else if req.CloseConnection? {
      assert Handle(cfg, st, c, req, clock) == DoDisconnect(st, c);
      HangUpCounts(cfg, st, c, live);
    } else {
      ServedCounts(cfg, st, c, req, clock, live);
    }
  }

  ghost predicate Counted(st: State, log: seq<Entry>) {
    TableIs(st, Live(log)) && st.peakConns == MostLive(log)
  }

  lemma StepCounts(cfg: Config, prior: State, e: Event, st: State, past: seq<Entry>, log: seq<Entry>)
    requires Inv(cfg, prior) && StepTo(cfg, prior, e, st, past, log) && Counted(prior, past)
    ensures Counted(st, log)
  {
    assert log[..|log| - 1] == past;
    LiveWithinPeak(past);
    if e.Arrive? {
      ArriveCounts(cfg, prior, e.fd, Live(past));
    } else {
      AskCounts(cfg, prior, e.c, e.req, e.clock, Live(past));
      HandlePeaks(cfg, prior, e.c, e.req, e.clock);
    }
  }

  /** Over every run the table lists exactly the clients that were accepted and
      have not hung up, never more than allowed; current_conns is their number, and
      max_reached_conns the largest it ever was. */
  lemma {:induction false} RunCountsConnections(cfg: Config, files: nat, tr: Trace, st: State, log: seq<Entry>)
    requires files > 0 && Run(cfg, files, tr, st, log)
    ensures Counted(st, log) && |Live(log)| <= cfg.maxConns
  {
    RunInvariant(cfg, files, tr, st, log);
    LiveAtMost(st.clients);
    match tr
    case Start =>
    case Then(before, e) =>
      var prior: State, past: seq<Entry> :|
        Run(cfg, files, before, prior, past) && StepTo(cfg, prior, e, st, past, log);
      RunCountsConnections(cfg, files, before, prior, past);
      RunInvariant(cfg, files, before, prior, past);
      StepCounts(cfg, prior, e, st, past, log);
  }

  lemma {:induction false} LiveWithinPeak(log: seq<Entry>)
    ensures |Live(log)| <= MostLive(log)
  {
  }

  lemma {:induction false} LiveAtMost(clients: seq<Client>)
    ensures Sum(clients, LiveClient) <= |clients|
  {
    if |clients| > 0 {
      LiveAtMost(clients[..|clients| - 1]);
    }
  }
}
