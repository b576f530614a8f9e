/** A schedule in which an acknowledged file is evicted and shipped to nobody.
    InterleavedProofs.EvictionShipsWhatItRemoves says when that happens: exactly
    when the file is empty at the time it is claimed. */
module LostFile {
  import opened Basics
  import opened Slots
  import opened Interleaved
  import opened Schedules

  const BOTH := Game(2, Below(2))

  /** Client 1's append of two bytes to the file in slot 0. */
  const LARGE := Job(1, 0, [7, 7], true, [])
  /** Client 2's append of one byte to its own file in slot 1. */
  const SMALL := Job(2, 1, [7], true, [])

  const SHARED := NewFile([96], OWNER_NULL, 0)
  const MINE := NewFile([97], 2, 0)
  const GROWN := Stored(MINE, SMALL).0
  const THEIRS := NewFile([98], 3, 0)

  function Worlds(second: Slot, storage: int, files: int, peak: int, peakFiles: int, p: Worker, q: Worker): World {
    World([SHARED, second], storage, files, peak, peakFiles, [p, q])
  }

  lemma Pairs<T>(a: T, b: T, x: T)
    ensures [a, b][0 := x] == [x, b] && [a, b][1 := x] == [a, x]
  {
  }

  /** Worker 1 creates a file nobody owns and one of client 2's. */
  lemma TwoFiles()
    ensures Leads(BOTH, Start(2, 2), Worlds(MINE, 0, 2, 0, 2, Idle, Idle))
  {
    var w0, w1, w2 := Start(2, 2), Worlds(FREE, 0, 1, 0, 1, Idle, Idle), Worlds(MINE, 0, 2, 0, 2, Idle, Idle);
    assert w0 == World([FREE, FREE], 0, 0, 0, 0, [Idle, Idle]);
    Pairs(FREE, FREE, SHARED);
    Creation(BOTH, w0, w1, 1, [96], 0, OWNER_NULL, 0);
    Pairs(SHARED, FREE, MINE);
    Creation(BOTH, w1, w2, 1, [97], 1, 2, 0);
    LeadsOn(BOTH, w0, w1, w2);
  }

  /** Client 2 appends a byte to it. */
  lemma OneByte()
    ensures Leads(BOTH, Worlds(MINE, 0, 2, 0, 2, Idle, Idle), Worlds(GROWN, 1, 2, 1, 2, Idle, Idle))
  {
    var w, end := Worlds(MINE, 0, 2, 0, 2, Idle, Idle), Worlds(GROWN, 1, 2, 1, 2, Idle, Idle);
    var begun := At(w, 1, Checking(SMALL));
    Pass(BOTH, w, 1, Begin(2, 1, [7], true), Checking(SMALL));
    Pairs(SHARED, MINE, GROWN);
    Pairs(Idle, Checking(SMALL), Idle);
    Pairs(Idle, Idle, Checking(SMALL));
    FittingStore(BOTH, begun, end, 1, SMALL);
    LeadsOn(BOTH, w, begun, end);
  }

  /** Worker 0 finds that client 1's append does not fit ... */
  lemma FindsNoRoom()
    ensures Leads(BOTH, Worlds(GROWN, 1, 2, 1, 2, Idle, Idle), Worlds(GROWN, 1, 2, 1, 2, Scanning(LARGE), Idle))
  {
    var w, end := Worlds(GROWN, 1, 2, 1, 2, Idle, Idle), Worlds(GROWN, 1, 2, 1, 2, Scanning(LARGE), Idle);
    var begun := Worlds(GROWN, 1, 2, 1, 2, Checking(LARGE), Idle);
    Pairs(Idle, Idle, Checking(LARGE));
    Pairs(Checking(LARGE), Idle, Scanning(LARGE));
    Pass(BOTH, w, 0, Begin(1, 0, [7, 7], true), Checking(LARGE));
    Pass(BOTH, begun, 0, Check, Scanning(LARGE));
    LeadsOn(BOTH, w, begun, end);
  }

  /** ... and decides for the file in slot 1, the only other one and not empty. */
  lemma Decides()
    ensures Leads(BOTH, Worlds(GROWN, 1, 2, 1, 2, Idle, Idle), Worlds(GROWN, 1, 2, 1, 2, Claiming(LARGE, 1), Idle))
  {
    var w, end := Worlds(GROWN, 1, 2, 1, 2, Idle, Idle), Worlds(GROWN, 1, 2, 1, 2, Claiming(LARGE, 1), Idle);
    var scanning := Worlds(GROWN, 1, 2, 1, 2, Scanning(LARGE), Idle);
    FindsNoRoom();
    Pairs(Scanning(LARGE), Idle, Claiming(LARGE, 1));
    Pass(BOTH, scanning, 0, Choose(Some(1)), Claiming(LARGE, 1));
    LeadsOn(BOTH, w, scanning, end);
  }

  /** Meanwhile worker 1 removes that file for its owner, and creates client 3's in
      the slot it left. */
  lemma Replaced()
    ensures Leads(BOTH, Worlds(GROWN, 1, 2, 1, 2, Claiming(LARGE, 1), Idle),
                  Worlds(THEIRS, 0, 2, 1, 2, Claiming(LARGE, 1), Idle))
  {
    var w := Worlds(GROWN, 1, 2, 1, 2, Claiming(LARGE, 1), Idle);
    var gone := Worlds(FREE, 0, 1, 1, 2, Claiming(LARGE, 1), Idle);
    var end := Worlds(THEIRS, 0, 2, 1, 2, Claiming(LARGE, 1), Idle);
    Pairs(SHARED, GROWN, FREE);
    RemoveOnce(BOTH, w, 1, 1, 2);
    Pairs(SHARED, FREE, THEIRS);
    Creation(BOTH, gone, end, 1, [98], 1, 3, 0);
    LeadsOn(BOTH, w, gone, end);
  }

  /** Worker 0 goes on with its decision. */
  lemma Expelled()
    ensures Leads(Game(2, {0}), Worlds(THEIRS, 0, 2, 1, 2, Claiming(LARGE, 1), Idle),
                  Worlds(FREE, 0, 1, 1, 2, Checking(LARGE), Idle))
  {
    var w, end := Worlds(THEIRS, 0, 2, 1, 2, Claiming(LARGE, 1), Idle), Worlds(FREE, 0, 1, 1, 2, Checking(LARGE), Idle);
    Expelling(Game(2, {0}), w, 0, LARGE, 1);
    Pairs(SHARED, THEIRS, FREE);
    Pairs(Claiming(LARGE, 1), Idle, Checking(LARGE));
    assert LARGE.(shipped := LARGE.shipped) == LARGE;
  }

  /** In a server of two slots and two bytes: client 3's create-and-lock has been
      served, and then worker 0 alone makes its file disappear.  Nobody asked for that,
      and no reply carries the file. */
  lemma AcknowledgedFileLost() returns (before: seq<Move>, rest: seq<Move>, v: World, w: World)
    ensures Play(2, Start(2, 2), before) == Some(v) && Play(2, v, rest) == Some(w) && MovedBy({0}, rest)
    ensures v.slots == [SHARED, THEIRS] && THEIRS.owner == 3 && THEIRS.name == [98] && THEIRS.working == Some([])
    ensures w.slots == [SHARED, FREE]
    ensures v.workers == [Claiming(LARGE, 1), Idle] && w.workers == [Checking(LARGE), Idle] && LARGE.shipped == []
  {
    var a, b := Worlds(MINE, 0, 2, 0, 2, Idle, Idle), Worlds(GROWN, 1, 2, 1, 2, Idle, Idle);
    var c := Worlds(GROWN, 1, 2, 1, 2, Claiming(LARGE, 1), Idle);
    v, w := Worlds(THEIRS, 0, 2, 1, 2, Claiming(LARGE, 1), Idle), Worlds(FREE, 0, 1, 1, 2, Checking(LARGE), Idle);
    TwoFiles();
    OneByte();
    Decides();
    Replaced();
    Expelled();
    LeadsOn(BOTH, Start(2, 2), a, b);
    LeadsOn(BOTH, Start(2, 2), b, c);
    LeadsOn(BOTH, Start(2, 2), c, v);
    before := LeadsPlays(BOTH, Start(2, 2), v);
    rest := LeadsPlays(Game(2, {0}), v, w);
  }
}
