/** No connection is ever lost or held twice, and no finished worker is forgotten. */
module HandshakeProofs {
  import opened Basics
  import opened Handshake

  // ------------------------------------------------------ where a connection is

  function InSlot(f: int): int -> int {
    fd => if fd == f then 1 else 0
  }

  function Bit(b: bool): int {
    if b then 1 else 0
  }

  /** How often a worker holds connection f. */
  function Held(acceptor: int, f: int, th: Thread): int {
    match th.status
    case Free => 0
    case Do => if th.pc.Finishing? then Bit(th.pc.conn == f) + Bit(th.pc.newconn == f) else Bit(th.inConn == f)
    case Done => Bit(th.inConn == f) + Bit(th.inConn == acceptor && th.addConn == f)
  }

  function Holding(acceptor: int, f: int): Thread -> int {
    (th: Thread) => Held(acceptor, f, th)
  }

  /** In how many places connection f is: poll slots, the acceptor's slot, the
      main thread's hands, the workers. */
  function Places(cfg: Setup, w: World, f: int): int {
    Sum(w.poll, InSlot(f)) + Bit(w.acceptorSlot == f) + Bit(w.main.Assigning? && w.main.fd == f) +
    Sum(w.threads, Holding(cfg.acceptor, f))
  }

  function Busy(th: Thread): int {
    if th.status == Free then 0 else 1
  }

  predicate ThreadGood(cfg: Setup, th: Thread) {
    && (th.pc.Working? || th.pc.Finishing? ==> th.status == Do)
    && (th.pc.Finishing? ==> (th.pc.newconn > 0 && th.pc.conn == cfg.acceptor) || th.pc.newconn == -1)
    && (th.status == Do && !th.pc.Finishing? ==> th.inConn > 0)
  }

  ghost predicate TokensOk(cfg: Setup, w: World) {
    forall f :: f > 0 ==> Places(cfg, w, f) == Bit(f in w.clients || f == cfg.acceptor)
  }

  /** Every DONE worker is covered: by the pending signal, by its own signal still
      to be sent, or by a sweep that has not reached it. */
  predicate Covered(w: World, t: nat)
    requires t < |w.threads|
  {
    w.threads[t].status == Done ==>
      w.pending || w.threads[t].pc == Signalling || (w.main.Sweeping? && w.main.next <= t)
  }

  ghost predicate Inv(cfg: Setup, w: World) {
    && cfg.acceptor > 0 && cfg.acceptor !in w.clients
    && |w.poll| == cfg.maxConns && |w.clients| <= cfg.maxConns
    && (forall f :: f in w.clients ==> f > 0)
    && (forall j :: 0 <= j < |w.poll| ==> w.poll[j] == -1 || (w.poll[j] > 0 && w.poll[j] != cfg.acceptor))
    && (w.acceptorSlot == -1 || w.acceptorSlot == cfg.acceptor)
    && (w.main.Assigning? ==> w.main.fd > 0)
    && (forall t :: 0 <= t < |w.threads| ==> ThreadGood(cfg, w.threads[t]))
    && TokensOk(cfg, w)
    && w.working == Sum(w.threads, Busy)
    && (w.main.Draining? ==> w.pending)
    && (forall t: nat :: t < |w.threads| ==> Covered(w, t))
    && (w.main.Assigning? ==> exists t :: w.main.next <= t < |w.threads| && w.threads[t].status == Free)
    && !w.main.Broken?
  }

  // ------------------------------------------------------- putting one back

  /** The first free entry from i on. */
  ghost predicate FirstFree(poll: seq<int>, i: nat, k: int) {
    i <= k < |poll| && poll[k] == -1 && forall m :: i <= m < k ==> poll[m] != -1
  }

  lemma {:induction false} AddToPollFinds(poll: seq<int>, fd: int, i: nat, j: nat)
    requires i <= j < |poll| && poll[j] == -1
    ensures exists k :: k <= j && FirstFree(poll, i, k) && AddToPoll(poll, fd, i) == poll[k := fd]
    decreases j - i
  {
    if poll[i] != -1 {
      AddToPollFinds(poll, fd, i + 1, j);
      var k :| k <= j && FirstFree(poll, i + 1, k) && AddToPoll(poll, fd, i + 1) == poll[k := fd];
      assert FirstFree(poll, i, k);
    } else {
      assert FirstFree(poll, i, i);
    }
  }

  /** Distinct elements of a set are no more than the set has. */
  lemma {:induction false} DistinctWithin(s: seq<int>, t: set<int>)
    requires forall i, j :: 0 <= i < j < |s| ==> s[i] != s[j]
    requires forall i :: 0 <= i < |s| ==> s[i] in t
    ensures |s| <= |t|
  {
    if |s| > 0 {
      DistinctWithin(s[..|s| - 1], t - {s[|s| - 1]});
    }
  }

  lemma {:induction false} CountTwice(poll: seq<int>, f: int, i: nat, j: nat)
    requires i < j < |poll| && poll[i] == f && poll[j] == f
    ensures Sum(poll, InSlot(f)) >= 2
  {
    var rest := poll[i := -1 - f];
    SumUpdate(poll, i, -1 - f, InSlot(f));
    SumNonNegative(rest, InSlot(f));
    assert InSlot(f)(rest[j]) == 1;
  }

  lemma PlacesParts(cfg: Setup, w: World, f: int)
    requires f > 0
    ensures Sum(w.poll, InSlot(f)) >= 0 && Sum(w.threads, Holding(cfg.acceptor, f)) >= 0
    ensures forall t :: 0 <= t < |w.threads| ==>
              0 <= Holding(cfg.acceptor, f)(w.threads[t]) <= Sum(w.threads, Holding(cfg.acceptor, f))
    ensures (exists j :: 0 <= j < |w.poll| && w.poll[j] == f) ==> Sum(w.poll, InSlot(f)) >= 1
  {
    SumNonNegative(w.poll, InSlot(f));
    SumNonNegative(w.threads, Holding(cfg.acceptor, f));
    if j :| 0 <= j < |w.poll| && w.poll[j] == f {
      assert InSlot(f)(w.poll[j]) == 1;
    }
  }

  /** No connection is in two poll entries, and none of them is held by a worker too. */
  lemma PollEntryOnce(cfg: Setup, w: World, i: nat, t: nat, fd: int)
    requires TokensOk(cfg, w) && i < |w.poll| && w.poll[i] > 0 && w.poll[i] != cfg.acceptor
    requires t < |w.threads| && fd > 0 && fd in w.clients && Holding(cfg.acceptor, fd)(w.threads[t]) >= 1
    ensures w.poll[i] in w.clients - {fd}
    ensures forall k :: i < k < |w.poll| ==> w.poll[k] != w.poll[i]
  {
    var f := w.poll[i];
    PlacesParts(cfg, w, f);
    PlacesParts(cfg, w, fd);
    assert Places(cfg, w, f) >= 1;
    if k :| i < k < |w.poll| && w.poll[k] == f {
      CountTwice(w.poll, f, i, k);
      assert false;
    }
  }

  /** A client held by a worker always finds a free poll entry: the entries hold
      other clients, each once, and there are as many entries as clients may be. */
  lemma FreeEntryExists(cfg: Setup, w: World, t: nat, fd: int) returns (j: nat)
    requires Inv(cfg, w) && t < |w.threads| && fd in w.clients && Holding(cfg.acceptor, fd)(w.threads[t]) >= 1
    ensures j < |w.poll| && w.poll[j] == -1
  {
    if forall i :: 0 <= i < |w.poll| ==> w.poll[i] != -1 {
      forall i | 0 <= i < |w.poll|
        ensures w.poll[i] in w.clients - {fd} && forall k :: i < k < |w.poll| ==> w.poll[k] != w.poll[i]
      {
        PollEntryOnce(cfg, w, i, t, fd);
      }
      DistinctWithin(w.poll, w.clients - {fd});
      assert false;
    }
    j :| 0 <= j < |w.poll| && w.poll[j] == -1;
  }

  lemma ThreadPlaces(cfg: Setup, w: World, t: nat, th: Thread)
    requires t < |w.threads|
    ensures forall f :: Sum(w.threads[t := th], Holding(cfg.acceptor, f)) ==
                        Sum(w.threads, Holding(cfg.acceptor, f)) - Held(cfg.acceptor, f, w.threads[t]) +
                        Held(cfg.acceptor, f, th)
    ensures Sum(w.threads[t := th], Busy) == Sum(w.threads, Busy) - Busy(w.threads[t]) + Busy(th)
  {
    forall f
      ensures Sum(w.threads[t := th], Holding(cfg.acceptor, f)) ==
              Sum(w.threads, Holding(cfg.acceptor, f)) - Held(cfg.acceptor, f, w.threads[t]) + Held(cfg.acceptor, f, th)
    {
      SumUpdate(w.threads, t, th, Holding(cfg.acceptor, f));
    }
    SumUpdate(w.threads, t, th, Busy);
  }

  lemma PollPlaces(poll: seq<int>, j: nat, fd: int)
    requires j < |poll|
    ensures forall f :: Sum(poll[j := fd], InSlot(f)) == Sum(poll, InSlot(f)) - Bit(poll[j] == f) + Bit(fd == f)
  {
    forall f ensures Sum(poll[j := fd], InSlot(f)) == Sum(poll, InSlot(f)) - Bit(poll[j] == f) + Bit(fd == f) {
      SumUpdate(poll, j, fd, InSlot(f));
    }
  }

  // --------------------------------------------------------- the main thread

  lemma IdleExists(cfg: Setup, w: World)
    requires w.working == Sum(w.threads, Busy) && w.working < |w.threads|
    ensures exists t :: 0 <= t < |w.threads| && w.threads[t].status == Free
  {
    if forall t :: 0 <= t < |w.threads| ==> w.threads[t].status != Free {
      AllBusy(w.threads);
    }
  }

  lemma {:induction false} AllBusy(threads: seq<Thread>)
    requires forall t :: 0 <= t < |threads| ==> threads[t].status != Free
    ensures Sum(threads, Busy) == |threads|
  {
    if |threads| > 0 {
      AllBusy(threads[..|threads| - 1]);
    }
  }

  lemma PollingKeepsInv(cfg: Setup, w: World, a: Action)
    requires Inv(cfg, w) && !w.main.Sweeping? && !w.main.Assigning? && MainStep(cfg, w, a).Some?
    ensures Inv(cfg, MainStep(cfg, w, a).value)
  {
    var v := MainStep(cfg, w, a).value;
    if w.main.Polling? && w.working < |w.threads| {
      IdleExists(cfg, w);
    }
    if a.PollClient? {
      PollPlaces(w.poll, a.slot, -1);
    }
    forall f | f > 0 ensures Places(cfg, v, f) == Bit(f in v.clients || f == cfg.acceptor) {
      assert Places(cfg, w, f) == Bit(f in w.clients || f == cfg.acceptor);
    }
    forall t: nat | t < |v.threads| ensures Covered(v, t) {
      assert Covered(w, t);
    }
  }

  /** The worker the main thread looks at is idle: it takes the connection. */
  lemma AssignKeepsInv(cfg: Setup, w: World)
    requires Inv(cfg, w) && w.main.Assigning? && w.main.next < |w.threads| && w.threads[w.main.next].status == Free
    ensures Inv(cfg, MainStep(cfg, w, AssignOne).value)
  {
    var v, k := MainStep(cfg, w, AssignOne).value, w.main.next;
    ThreadPlaces(cfg, w, k, v.threads[k]);
    assert ThreadGood(cfg, w.threads[k]);
    forall f | f > 0 ensures Places(cfg, v, f) == Bit(f in v.clients || f == cfg.acceptor) {
      assert Places(cfg, w, f) == Bit(f in w.clients || f == cfg.acceptor);
    }
    forall t: nat | t < |v.threads| ensures Covered(v, t) {
      assert Covered(w, t);
    }
  }

  /** It is not: the main thread looks at the next one. */
  lemma SkipKeepsInv(cfg: Setup, w: World)
    requires Inv(cfg, w) && w.main.Assigning? && w.main.next < |w.threads| && w.threads[w.main.next].status != Free
    ensures Inv(cfg, MainStep(cfg, w, AssignOne).value)
  {
    var v := w.(main := Assigning(w.main.fd, w.main.next + 1));
    assert MainStep(cfg, w, AssignOne) == Some(v);
    forall f | f > 0 ensures Places(cfg, v, f) == Bit(f in v.clients || f == cfg.acceptor) {
      assert Places(cfg, w, f) == Bit(f in w.clients || f == cfg.acceptor);
    }
    forall t: nat | t < |v.threads| ensures Covered(v, t) {
      assert Covered(w, t);
    }
  }

  /** Putting a client back into the poll array. */
  lemma PutBack(cfg: Setup, w: World, t: nat, fd: int)
    requires Inv(cfg, w) && t < |w.threads| && fd in w.clients && Held(cfg.acceptor, fd, w.threads[t]) >= 1
    ensures var poll := AddToPoll(w.poll, fd, 0);
            && |poll| == |w.poll|
            && (forall i :: 0 <= i < |poll| ==> poll[i] == w.poll[i] || poll[i] == fd)
            && (forall f :: f > 0 ==> Sum(poll, InSlot(f)) == Sum(w.poll, InSlot(f)) + Bit(fd == f))
  {
    var j := FreeEntryExists(cfg, w, t, fd);
    AddToPollFinds(w.poll, fd, 0, j);
    var k: nat :| k <= j && FirstFree(w.poll, 0, k) && AddToPoll(w.poll, fd, 0) == w.poll[k := fd];
    PollPlaces(w.poll, k, fd);
  }

  /** Where a finished worker's connections are, before they go back. */
  lemma DoneHolds(cfg: Setup, w: World, k: nat)
    requires Inv(cfg, w) && k < |w.threads| && w.threads[k].status == Done
    ensures var th := w.threads[k];
            && (th.inConn == cfg.acceptor ==> w.acceptorSlot == -1 && (th.addConn > 0 ==> th.addConn in w.clients))
            && (th.inConn != cfg.acceptor && th.inConn > 0 ==> th.inConn in w.clients)
  {
    var th := w.threads[k];
    if th.inConn == cfg.acceptor {
      PlacesParts(cfg, w, cfg.acceptor);
      assert Holding(cfg.acceptor, cfg.acceptor)(th) >= 1;
      if th.addConn > 0 {
        PlacesParts(cfg, w, th.addConn);
        assert Holding(cfg.acceptor, th.addConn)(th) >= 1;
        assert Places(cfg, w, th.addConn) >= 1;
        assert Places(cfg, w, cfg.acceptor) == 1;
      }
    } else if th.inConn > 0 {
      PlacesParts(cfg, w, th.inConn);
      assert Holding(cfg.acceptor, th.inConn)(th) >= 1;
      assert Places(cfg, w, th.inConn) >= 1;
    }
  }

  lemma TakeBackTokens(cfg: Setup, w: World, k: nat)
    requires Inv(cfg, w) && k < |w.threads| && w.main.Sweeping?
    ensures var v := TakeBack(cfg, w, k).(main := Sweeping(k + 1));
            && (forall f :: f > 0 ==> Places(cfg, v, f) == Places(cfg, w, f))
            && |v.poll| == |w.poll|
            && (forall j :: 0 <= j < |v.poll| ==> v.poll[j] == -1 || (v.poll[j] > 0 && v.poll[j] != cfg.acceptor))
            && v.working == Sum(v.threads, Busy)
  {
    var th := w.threads[k];
    if th.status == Done {
      DoneHolds(cfg, w, k);
      ThreadPlaces(cfg, w, k, th.(status := Free));
      if th.inConn == cfg.acceptor && th.addConn > 0 {
        PutBack(cfg, w, k, th.addConn);
      } else if th.inConn != cfg.acceptor && th.inConn > 0 {
        PutBack(cfg, w, k, th.inConn);
      }
    }
  }

  lemma TakeBackShape(cfg: Setup, w: World, k: nat)
    requires k < |w.threads| && forall t :: 0 <= t < |w.threads| ==> ThreadGood(cfg, w.threads[t])
    requires w.acceptorSlot == -1 || w.acceptorSlot == cfg.acceptor
    ensures var v := TakeBack(cfg, w, k).(main := Sweeping(k + 1));
            && v.clients == w.clients && (v.acceptorSlot == -1 || v.acceptorSlot == cfg.acceptor)
            && forall t :: 0 <= t < |v.threads| ==> ThreadGood(cfg, v.threads[t])
  {
    assert ThreadGood(cfg, w.threads[k]);
  }

  /** The sweep goes on past worker k, which is no longer DONE. */
  lemma SweepStaysCovered(cfg: Setup, w: World, k: nat)
    requires k < |w.threads| && w.main == Sweeping(k) && forall t: nat :: t < |w.threads| ==> Covered(w, t)
    ensures var v := TakeBack(cfg, w, k).(main := Sweeping(k + 1));
            |v.threads| == |w.threads| && forall t: nat :: t < |v.threads| ==> Covered(v, t)
  {
    var v := TakeBack(cfg, w, k).(main := Sweeping(k + 1));
    forall t: nat | t < |v.threads| ensures Covered(v, t) {
      assert Covered(w, t);
    }
  }

  lemma SweepOneKeepsInv(cfg: Setup, w: World, k: nat)
    requires Inv(cfg, w) && k < |w.threads| && w.main == Sweeping(k)
    ensures Inv(cfg, TakeBack(cfg, w, k).(main := Sweeping(k + 1)))
  {
    var v := TakeBack(cfg, w, k).(main := Sweeping(k + 1));
    TakeBackTokens(cfg, w, k);
    TakeBackShape(cfg, w, k);
    SweepStaysCovered(cfg, w, k);
    assert TokensOk(cfg, v) by {
      forall f | f > 0 ensures Places(cfg, v, f) == Bit(f in v.clients || f == cfg.acceptor) {
        assert Places(cfg, w, f) == Bit(f in w.clients || f == cfg.acceptor);
      }
    }
  }

  lemma SweepEndKeepsInv(cfg: Setup, w: World)
    requires Inv(cfg, w) && w.main.Sweeping? && w.main.next >= |w.threads|
    ensures Inv(cfg, w.(main := Polling))
  {
    var v := w.(main := Polling);
    forall f | f > 0 ensures Places(cfg, v, f) == Bit(f in v.clients || f == cfg.acceptor) {
      assert Places(cfg, w, f) == Bit(f in w.clients || f == cfg.acceptor);
    }
    forall t: nat | t < |v.threads| ensures Covered(v, t) {
      assert Covered(w, t);
    }
  }

  // --------------------------------------------------------------- the workers

  /** A worker's own step moves no connection but those that come and go with the
      client, and can only finish by being about to signal. */
  lemma ThreadStepLocal(cfg: Setup, th: Thread, clients: set<int>, a: Action)
    requires cfg.acceptor > 0 && cfg.acceptor !in clients && |clients| <= cfg.maxConns
    requires ThreadGood(cfg, th) && ThreadStep(cfg, th, clients, a).Some?
    requires th.pc.Working? && th.inConn != cfg.acceptor ==> th.inConn in clients
    requires forall f :: f in clients ==> f > 0
    ensures var (th', clients') := ThreadStep(cfg, th, clients, a).value;
            && ThreadGood(cfg, th') && th.status == Do
            && (th'.status == Do || (th'.status == Done && th'.pc == Signalling))
            && cfg.acceptor !in clients' && |clients'| <= cfg.maxConns
            && (forall f :: f in clients' ==> f > 0)
            && forall f :: f > 0 ==>
                 Held(cfg.acceptor, f, th') - Held(cfg.acceptor, f, th) == Bit(f in clients') - Bit(f in clients)
  {
  }

  lemma WorkingOnClient(cfg: Setup, w: World, t: nat)
    requires Inv(cfg, w) && t < |w.threads| && w.threads[t].pc.Working? && w.threads[t].inConn != cfg.acceptor
    ensures w.threads[t].inConn in w.clients
  {
    var th := w.threads[t];
    assert ThreadGood(cfg, th);
    PlacesParts(cfg, w, th.inConn);
    assert Holding(cfg.acceptor, th.inConn)(th) >= 1;
    assert Places(cfg, w, th.inConn) >= 1;
  }

  /** What is left of the invariant once a worker's own part is settled. */
  lemma ThreadChangeKeepsInv(cfg: Setup, w: World, t: nat, th: Thread, v: World)
    requires Inv(cfg, w) && t < |w.threads| && ThreadGood(cfg, th)
    requires w.threads[t].status == Free <==> th.status == Free
    requires v == w.(threads := w.threads[t := th], clients := v.clients, pending := v.pending)
    requires w.pending ==> v.pending
    requires cfg.acceptor !in v.clients && |v.clients| <= cfg.maxConns && forall f :: f in v.clients ==> f > 0
    requires th.status == Done ==> th.pc == Signalling || v.pending
    requires forall f :: f > 0 ==> Held(cfg.acceptor, f, th) - Held(cfg.acceptor, f, w.threads[t]) ==
                                   Bit(f in v.clients) - Bit(f in w.clients)
    ensures Inv(cfg, v)
  {
    ThreadPlaces(cfg, w, t, th);
    forall f | f > 0 ensures Places(cfg, v, f) == Bit(f in v.clients || f == cfg.acceptor) {
      assert Places(cfg, w, f) == Bit(f in w.clients || f == cfg.acceptor);
    }
    forall u: nat | u < |v.threads| ensures Covered(v, u) {
      assert Covered(w, u);
    }
    if w.main.Assigning? {
      var i :| w.main.next <= i < |w.threads| && w.threads[i].status == Free;
      assert v.threads[i].status == Free;
    }
  }

  lemma ThreadKeepsInv(cfg: Setup, w: World, t: nat, a: Action)
    requires Inv(cfg, w) && OfThread(cfg, w, t, a).Some?
    ensures Inv(cfg, OfThread(cfg, w, t, a).value)
  {
    var th, v := w.threads[t], OfThread(cfg, w, t, a).value;
    assert ThreadGood(cfg, th);
    if th.pc.Working? && th.inConn != cfg.acceptor {
      WorkingOnClient(cfg, w, t);
    }
    ThreadStepLocal(cfg, th, w.clients, a);
    ThreadChangeKeepsInv(cfg, w, t, v.threads[t], v);
  }

  lemma SignalKeepsInv(cfg: Setup, w: World, t: nat)
    requires Inv(cfg, w) && Step(cfg, w, Signal(t)).Some?
    ensures Inv(cfg, Step(cfg, w, Signal(t)).value)
  {
    var v := Step(cfg, w, Signal(t)).value;
    assert ThreadGood(cfg, w.threads[t]);
    ThreadChangeKeepsInv(cfg, w, t, v.threads[t], v);
  }

  // ---------------------------------------------------------------- every run

  lemma NothingElseToDo(cfg: Setup, w: World, a: Action)
    requires w.main.Assigning? && MainStep(cfg, w, a).Some?
    requires exists t :: w.main.next <= t < |w.threads| && w.threads[t].status == Free
    ensures a == AssignOne && w.main.next < |w.threads|
  {
  }

  lemma AssigningKeepsInv(cfg: Setup, w: World, a: Action)
    requires Inv(cfg, w) && w.main.Assigning? && MainStep(cfg, w, a).Some?
    ensures Inv(cfg, MainStep(cfg, w, a).value)
  {
    NothingElseToDo(cfg, w, a);
    if w.threads[w.main.next].status == Free {
      AssignKeepsInv(cfg, w);
    } else {
      SkipKeepsInv(cfg, w);
    }
  }

  lemma SweepingKeepsInv(cfg: Setup, w: World, a: Action)
    requires Inv(cfg, w) && w.main.Sweeping? && MainStep(cfg, w, a).Some?
    ensures Inv(cfg, MainStep(cfg, w, a).value)
  {
    if a.SweepOne? {
      SweepOneKeepsInv(cfg, w, w.main.next);
    } else {
      SweepEndKeepsInv(cfg, w);
    }
  }

  lemma MainKeepsInv(cfg: Setup, w: World, a: Action)
    requires Inv(cfg, w) && MainStep(cfg, w, a).Some?
    ensures Inv(cfg, MainStep(cfg, w, a).value)
  {
    if w.main.Sweeping? {
      SweepingKeepsInv(cfg, w, a);
    } else if w.main.Assigning? {
      AssigningKeepsInv(cfg, w, a);
    } else {
      PollingKeepsInv(cfg, w, a);
    }
  }

  lemma StepKeepsInv(cfg: Setup, w: World, a: Action)
    requires Inv(cfg, w) && Step(cfg, w, a).Some?
    ensures Inv(cfg, Step(cfg, w, a).value)
  {
    match a
    case Signal(t) => SignalKeepsInv(cfg, w, t);
    case Wake(t) => ThreadKeepsInv(cfg, w, t, a);
    case AcceptNobody(t) => ThreadKeepsInv(cfg, w, t, a);
    case AcceptClient(t, _) => ThreadKeepsInv(cfg, w, t, a);
    case Serve(t) => ThreadKeepsInv(cfg, w, t, a);
    case HangUp(t) => ThreadKeepsInv(cfg, w, t, a);
    case Publish(t) => ThreadKeepsInv(cfg, w, t, a);
    case _ => MainKeepsInv(cfg, w, a);
  }

  lemma StepKeepsThreads(cfg: Setup, w: World, a: Action)
    requires Step(cfg, w, a).Some?
    ensures |Step(cfg, w, a).value.threads| == |w.threads|
  {
  }

  lemma StartInv(cfg: Setup, workers: nat)
    requires cfg.acceptor > 0
    ensures Inv(cfg, Start(cfg, workers))
  {
    var w := Start(cfg, workers);
    forall f | f > 0 ensures Places(cfg, w, f) == Bit(f in w.clients || f == cfg.acceptor) {
      SumZero(w.poll, InSlot(f));
      SumZero(w.threads, Holding(cfg.acceptor, f));
    }
    SumZero(w.threads, Busy);
  }

  ghost predicate Reachable(cfg: Setup, workers: nat, actions: seq<Action>, w: World) {
    cfg.acceptor > 0 && Play(cfg, Start(cfg, workers), actions) == Some(w)
  }

  lemma {:induction false} ReachableInv(cfg: Setup, workers: nat, actions: seq<Action>, w: World)
    requires Reachable(cfg, workers, actions, w)
    ensures Inv(cfg, w) && |w.threads| == workers
  {
    StartInv(cfg, workers);
    if |actions| > 0 {
      var before := Play(cfg, Start(cfg, workers), actions[..|actions| - 1]).value;
      ReachableInv(cfg, workers, actions[..|actions| - 1], before);
      StepKeepsInv(cfg, before, actions[|actions| - 1]);
      StepKeepsThreads(cfg, before, actions[|actions| - 1]);
    }
  }

  /** Tokens are conserved: in every reachable state each registered client, and the
      acceptor, is in exactly one place, nothing else is anywhere, and
      working_threads is the number of workers that are not idle. */
  lemma TokensConserved(cfg: Setup, workers: nat, actions: seq<Action>, w: World, f: int)
    requires Reachable(cfg, workers, actions, w) && f > 0
    ensures Places(cfg, w, f) == if f in w.clients || f == cfg.acceptor then 1 else 0
    ensures w.working == Sum(w.threads, Busy)
  {
    ReachableInv(cfg, workers, actions, w);
  }

  /** thread_assign_work never runs out of workers. */
  lemma AssignmentNeverFails(cfg: Setup, workers: nat, actions: seq<Action>, w: World)
    requires Reachable(cfg, workers, actions, w)
    ensures w.main != Broken
    ensures w.main.Assigning? ==> exists t :: w.main.next <= t < |w.threads| && w.threads[t].status == Free
  {
    ReachableInv(cfg, workers, actions, w);
  }

  /** add_connection_to_poll never drops a connection: whenever a finished worker's
      result is taken back, a free entry is found for every client in it. */
  lemma PollEntryAlwaysFree(cfg: Setup, workers: nat, actions: seq<Action>, w: World, t: nat, fd: int)
    requires Reachable(cfg, workers, actions, w) && t < |w.threads| && w.threads[t].status == Done
    requires fd in w.clients && Held(cfg.acceptor, fd, w.threads[t]) >= 1
    ensures exists k :: FirstFree(w.poll, 0, k) && AddToPoll(w.poll, fd, 0) == w.poll[k := fd]
  {
    ReachableInv(cfg, workers, actions, w);
    var j := FreeEntryExists(cfg, w, t, fd);
    AddToPollFinds(w.poll, fd, 0, j);
  }

  /** No completion is lost: when the main thread blocks in poll with no signal
      pending, every finished worker is still about to send its own. */
  lemma NoLostCompletion(cfg: Setup, workers: nat, actions: seq<Action>, w: World, t: nat)
    requires Reachable(cfg, workers, actions, w) && w.main == Polling && !w.pending
    requires t < |w.threads| && w.threads[t].status == Done
    ensures w.threads[t].pc == Signalling && Step(cfg, w, Signal(t)).Some? && Step(cfg, w, Signal(t)).value.pending
  {
    ReachableInv(cfg, workers, actions, w);
    assert Covered(w, t);
  }

  /** If the main thread blocks, no signal is pending and no worker can move, then
      nothing is stranded: every worker is idle, poll watches everything, and every
      registered client and the acceptor is in the poll array. */
  lemma NothingStranded(cfg: Setup, workers: nat, actions: seq<Action>, w: World)
    requires Reachable(cfg, workers, actions, w) && w.main == Polling && !w.pending
    requires forall t :: 0 <= t < |w.threads| ==> w.threads[t].pc == Waiting && w.threads[t].status != Do
    ensures forall t :: 0 <= t < |w.threads| ==> w.threads[t].status == Free
    ensures w.working == 0 && w.acceptorSlot == cfg.acceptor
    ensures forall f :: f in w.clients ==> exists j :: 0 <= j < |w.poll| && w.poll[j] == f
  {
    ReachableInv(cfg, workers, actions, w);
    forall t: nat | t < |w.threads| ensures w.threads[t].status == Free {
      assert Covered(w, t);
    }
    SumZero(w.threads, Busy);
    forall f | f > 0 ensures Sum(w.threads, Holding(cfg.acceptor, f)) == 0 {
      SumZero(w.threads, Holding(cfg.acceptor, f));
    }
    assert Places(cfg, w, cfg.acceptor) == 1;
    if w.acceptorSlot != cfg.acceptor {
      SumZero(w.poll, InSlot(cfg.acceptor));
    }
    forall f | f in w.clients ensures exists j :: 0 <= j < |w.poll| && w.poll[j] == f {
      assert Places(cfg, w, f) == 1;
      if forall j :: 0 <= j < |w.poll| ==> w.poll[j] != f {
        SumZero(w.poll, InSlot(f));
      }
    }
  }

  // ---------------------------------------------------- the run, told from outside

  /** The clients that were accepted and have not hung up since. */
  function Registered(cfg: Setup, start: World, actions: seq<Action>): set<int> {
    if |actions| == 0 then {}
    else
      var past := actions[..|actions| - 1];
      var before, world := Registered(cfg, start, past), Play(cfg, start, past);
      match actions[|actions| - 1]
      case AcceptClient(_, fd) => before + {fd}
      case HangUp(t) => 
        if world.Some? && t < |world.value.threads| then before - {world.value.threads[t].inConn} else before
      case _ => before
  }

  /** A worker has signalled since the main thread last read the signal. */
  function SignalWaits(actions: seq<Action>): bool {
    |actions| > 0 &&
    match actions[|actions| - 1]
    case Signal(_) => true
    case Drain => false
    case _ => SignalWaits(actions[..|actions| - 1])
  }

  lemma StepTold(cfg: Setup, w: World, a: Action)
    requires Step(cfg, w, a).Some?
    ensures var v := Step(cfg, w, a).value;
            && v.pending == (a.Signal? || (w.pending && a != Drain))
            && v.clients == match a
                            case AcceptClient(_, fd) => w.clients + {fd}
                            case HangUp(t) => w.clients - {w.threads[t].inConn}
                            case _ => w.clients
  {
  }

  /** Whoever is accepted is registered until it hangs up, and nobody else is; and a
      signal is pending exactly from when it is sent until it is read. */
  lemma {:induction false} RunTold(cfg: Setup, workers: nat, actions: seq<Action>, w: World)
    requires Reachable(cfg, workers, actions, w)
    ensures w.clients == Registered(cfg, Start(cfg, workers), actions) && w.pending == SignalWaits(actions)
  {
    if |actions| > 0 {
      var past := actions[..|actions| - 1];
      var before := Play(cfg, Start(cfg, workers), past).value;
      RunTold(cfg, workers, past, before);
      StepTold(cfg, before, actions[|actions| - 1]);
    }
  }

  /** A client that has hung up is nowhere any more: not registered, not polled, not
      with any worker. */
  lemma HungUpIsGone(cfg: Setup, workers: nat, actions: seq<Action>, w: World, t: nat)
    requires Reachable(cfg, workers, actions, w) && Step(cfg, w, HangUp(t)).Some?
    ensures var f, v := w.threads[t].inConn, Step(cfg, w, HangUp(t)).value;
            && f in w.clients && v.clients == w.clients - {f}
            && Places(cfg, v, f) == 0 && f !in v.poll
  {
    var f, v := w.threads[t].inConn, Step(cfg, w, HangUp(t)).value;
    ReachableInv(cfg, workers, actions, w);
    WorkingOnClient(cfg, w, t);
    StepKeepsInv(cfg, w, HangUp(t));
    StepTold(cfg, w, HangUp(t));
    assert Places(cfg, v, f) == 0;
    PlacesParts(cfg, v, f);
  }
}
