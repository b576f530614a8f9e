/** Runs of the server that show where it does not do what one would expect. */
module Witnesses {
  import opened Basics
  import opened Slots
  import opened Table
  import opened ServerState
  import opened EvictionProofs
  import opened Requests
  import opened Runs
  import Framing

  const ALICE := 5
  const BOB := 6
  const NAME: Name := [97]

  lemma RunMore(cfg: Config, files: nat, tr: Trace, st: State, log: seq<Entry>, e: Event)
    requires Run(cfg, files, tr, st, log) && st.lruPos < |st.slots| && EventOk(st, e) && Step(cfg, st, e).Returned?
    ensures var out := Step(cfg, st, e);
            Run(cfg, files, Then(tr, e), out.st, log + [Entry(e, out.reply)])
  {
    assert StepTo(cfg, st, e, Step(cfg, st, e).st, log, log + [Entry(e, Step(cfg, st, e).reply)]);
  }

  /** The one slot of a server after its creation, opened and without the lock. */
  const CREATED := Slot(OWNER_NULL, NAME, [], Some([]), 0, 10, 2, true)

  function Connected(clients: seq<Client>, slots: seq<Slot>, n: nat, conns: nat): State {
    State(slots, clients, n, if slots == [FREE] then 0 else 1, conns, n, if slots == [FREE] then 0 else 1, conns, 0, 0)
  }

  lemma Arrives(cfg: Config, clients: seq<Client>, conns: nat, fd: int, k: nat)
    requires conns < cfg.maxConns && k < |clients| && fd > 0
    requires clients[k].fd == -1 && forall i :: 0 <= i < k ==> clients[i].fd != -1
    ensures Connect(cfg, Connected(clients, [FREE], 0, conns), fd) ==
            (Connected(clients[k := Client(fd, [])], [FREE], 0, conns + 1), true)
  {
    assert FindClient(clients, -1) == Some(k);
  }

  /** Alice's creation of the file, without the lock. */
  lemma Creates(cfg: Config, clients: seq<Client>, conns: nat)
    requires |clients| > 0 && clients[0] == Client(ALICE, [])
    ensures Handle(cfg, Connected(clients, [FREE], 0, conns), ALICE, OpenFile(NAME, true, false), Clock(10, [])) ==
            Returned(Connected(clients, [CREATED], 0, conns), Answer(Success), false)
  {
    assert FindClient(clients, ALICE) == Some(0);
    assert clients[0 := clients[0].(lastop := [])] == clients;
    assert Find([FREE], NAME) == None;
    assert FreeFrom([FREE], 0) == Some(0);
  }

  // ------------------------------------------------------ an append that hangs

  /** A server of one slot and one byte, full with Alice's one-byte file. */
  function FullServer(): State {
    Connected([Client(ALICE, []), Client(BOB, [])], [CREATED.(working := Some([7]), added := 1, freq := 3)], 1, 2)
  }

  lemma Appends(cfg: Config)
    requires cfg.maxStorage == 1
    ensures var clients := [Client(ALICE, []), Client(BOB, [])];
            Handle(cfg, Connected(clients, [CREATED], 0, 2), ALICE, AppendFile(NAME, [7]), Clock(0, [])) ==
            Returned(FullServer(), Answer(Success), false)
  {
    var clients := [Client(ALICE, []), Client(BOB, [])];
    assert FindClient(clients, ALICE) == Some(0);
    assert clients[0 := clients[0].(lastop := [])] == clients;
    assert Find([CREATED], NAME) == Some(0);
    assert [] + [7] == [7] && [CREATED][0 := FullServer().slots[0]] == FullServer().slots;
    assert Append(CREATED, ALICE, [7]) == (FullServer().slots[0], OK);
  }

  /** Both clients connect, Alice creates the file and appends one byte to it. */
  lemma FullServerRuns(cfg: Config) returns (tr: Trace, log: seq<Entry>)
    requires cfg.maxStorage == 1 && cfg.maxConns == 2
    ensures Run(cfg, 1, tr, FullServer(), log)
  {
    var none, one := [Client(-1, []), Client(-1, [])], [Client(ALICE, []), Client(-1, [])];
    var two := [Client(ALICE, []), Client(BOB, [])];
    assert Initial(cfg, 1) == Connected(none, [FREE], 0, 0);
    tr, log := Start, [];
    Arrives(cfg, none, 0, ALICE, 0);
    assert none[0 := Client(ALICE, [])] == one;
    RunMore(cfg, 1, tr, Initial(cfg, 1), log, Arrive(ALICE));
    tr, log := Then(tr, Arrive(ALICE)), log + [Entry(Arrive(ALICE), Answer(Success))];
    Arrives(cfg, one, 1, BOB, 1);
    assert one[1 := Client(BOB, [])] == two;
    RunMore(cfg, 1, tr, Connected(one, [FREE], 0, 1), log, Arrive(BOB));
    tr, log := Then(tr, Arrive(BOB)), log + [Entry(Arrive(BOB), Answer(Success))];
    var create := Ask(ALICE, OpenFile(NAME, true, false), Clock(10, []));
    Creates(cfg, two, 2);
    RunMore(cfg, 1, tr, Connected(two, [FREE], 0, 2), log, create);
    tr, log := Then(tr, create), log + [Entry(create, Answer(Success))];
    var append := Ask(ALICE, AppendFile(NAME, [7]), Clock(0, []));
    Appends(cfg);
    RunMore(cfg, 1, tr, Connected(two, [CREATED], 0, 2), log, append);
    tr, log := Then(tr, append), log + [Entry(append, Answer(Success))];
  }

  /** Not every request comes back: in a state the server does get into, Bob's append
      of one byte, a payload the server accepts, never leaves the eviction loop.
      AppendReturnsExactly says which appends do. */
  lemma AppendCanHang(cfg: Config, turns: seq<int>) returns (tr: Trace, log: seq<Entry>)
    requires cfg.maxStorage == 1 && cfg.maxConns == 2
    ensures Run(cfg, 1, tr, FullServer(), log)
    ensures EventOk(FullServer(), Ask(BOB, AppendFile(NAME, [8]), Clock(0, turns)))
    ensures Step(cfg, FullServer(), Ask(BOB, AppendFile(NAME, [8]), Clock(0, turns))).Spinning?
  {
    tr, log := FullServerRuns(cfg);
    RunInvariant(cfg, 1, tr, FullServer(), log);
    var st := FullServer();
    var st1 := SetLastop(st, 1, []);
    assert FindClient(st.clients, BOB) == Some(1);
    FindUnique(st.slots, 0);
    assert StuckBytes(cfg.algo, st1.slots, NAME) == 1 by {
      assert st1.slots[..0] == [];
    }
    EvictLoopSpins(cfg, st1, NAME, 1, turns, 0, []);
  }

  // ------------------------------------------- a reply that cannot be decoded

  /** Alice connects and creates a file. */
  lemma EmptyFileRuns(cfg: Config) returns (tr: Trace, log: seq<Entry>)
    requires cfg.maxConns == 1
    ensures Run(cfg, 1, tr, Connected([Client(ALICE, [])], [CREATED], 0, 1), log)
  {
    var none, one := [Client(-1, [])], [Client(ALICE, [])];
    assert Initial(cfg, 1) == Connected(none, [FREE], 0, 0);
    tr, log := Start, [];
    Arrives(cfg, none, 0, ALICE, 0);
    assert none[0 := Client(ALICE, [])] == one;
    RunMore(cfg, 1, tr, Initial(cfg, 1), log, Arrive(ALICE));
    tr, log := Then(tr, Arrive(ALICE)), log + [Entry(Arrive(ALICE), Answer(Success))];
    var create := Ask(ALICE, OpenFile(NAME, true, false), Clock(10, []));
    Creates(cfg, one, 1);
    RunMore(cfg, 1, tr, Connected(one, [FREE], 0, 1), log, create);
    tr, log := Then(tr, create), log + [Entry(create, Answer(Success))];
  }

  /** Then she reads everything: the server answers with success, and her client
      cannot decode the answer, but Alice, who never asked for the lock, now owns the
      file.  ReadNDecodesExactly says which answers it can. */
  lemma ReadNReplyUndecodable(cfg: Config) returns (tr: Trace, st: State, log: seq<Entry>)
    requires cfg.maxConns == 1
    ensures Run(cfg, 1, tr, st, log) && |log| > 0
    ensures var last := log[|log| - 1];
            && last.event == Ask(ALICE, ReadN(0), Clock(0, []))
            && last.reply == Answer(Success).(files := [Frame(NAME, [])])
            && Framing.Decode(Framing.Encode(last.reply.files)) == None
    ensures |st.slots| == 1 && st.slots[0].owner == ALICE
  {
    tr, log := EmptyFileRuns(cfg);
    var before, read := Connected([Client(ALICE, [])], [CREATED], 0, 1), Ask(ALICE, ReadN(0), Clock(0, []));
    ReadsEmpty(cfg);
    RunMore(cfg, 1, tr, before, log, read);
    st := Step(cfg, before, read).st;
    tr, log := Then(tr, read), log + [Entry(read, Step(cfg, before, read).reply)];
    EmptyFrameLost();
  }

  lemma EmptyFrameLost()
    ensures Framing.Decode(Framing.Encode([Frame(NAME, [])])) == None
  {
    var files := [Frame(NAME, [])];
    assert Framing.Sendable(files[0]);
    Framing.PayloadRoundTrip(files);
  }

  lemma ReadsEmpty(cfg: Config)
    ensures var out := Handle(cfg, Connected([Client(ALICE, [])], [CREATED], 0, 1), ALICE, ReadN(0), Clock(0, []));
            && out.Returned? && out.reply == Answer(Success).(files := [Frame(NAME, [])])
            && |out.st.slots| == 1 && out.st.slots[0].owner == ALICE
  {
    assert FindClient([Client(ALICE, [])], ALICE) == Some(0);
    var (t, bytes, diff) := ReadNSlot(CREATED, ALICE);
    assert bytes == Some([]) && t.name == NAME && diff == 0;
    assert [CREATED][0 := t] == [t] && [] + [Frame(NAME, [])] == [Frame(NAME, [])];
    assert ReadNFrom([CREATED], ALICE, 0, 0, [], 0) == ReadNFrom([t], ALICE, 0, 1, [Frame(NAME, [])], 0);
    assert DoReadN(Connected([Client(ALICE, [])], [CREATED], 0, 1), ALICE, 0).reply.files == [Frame(NAME, [])];
    assert SetLastop(Connected([Client(ALICE, [])], [CREATED], 0, 1), 0, []) ==
           Connected([Client(ALICE, [])], [CREATED], 0, 1);
  }
}
