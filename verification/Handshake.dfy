/** The main loop of the server and its workers (src/source/server/server_loop.c and
    worker_routine of src/source/worker.c): how connections wander between the
    poll array and the workers, and how a worker announces that it is done.  Every
    critical section of a worker's mutex, every return of poll, and every signal
    is one step; the pending SIGUSR1 is one bit because it does not queue. */
module Handshake {
  import opened Basics

  datatype Status = Free | Do | Done

  /** What a worker is at: waiting on its condition variable, serving, about to
      publish its result, or about to signal the main thread. */
  datatype Pc = Waiting | Working | Finishing(conn: int, newconn: int) | Signalling

  /** `status`, `inConn`, `addConn` are do_work, in_conn and add_conn. */
  datatype Thread = Thread(status: Status, inConn: int, addConn: int, pc: Pc)

  /** The main thread: at poll, about to read the signal, in the middle of
      thread_has_finished or of thread_assign_work, or stopped because the latter
      found no idle worker. */
  datatype Main = Polling | Draining | Sweeping(next: nat) | Assigning(fd: int, next: nat) | Broken

  datatype World = World(
    poll: seq<int>,
    acceptorSlot: int,
    threads: seq<Thread>,
    working: int,
    pending: bool,
    main: Main,
    clients: set<int>)

  /** The listening descriptor and the number of client entries. */
  datatype Setup = Setup(acceptor: int, maxConns: nat)

  function Start(cfg: Setup, workers: nat): World {
    World(seq(cfg.maxConns, _ => -1), cfg.acceptor, seq(workers, _ => Thread(Free, -1, -1, Waiting)), 0, false,
          Polling, {})
  }

  datatype Action =
    // the main thread
    | PollSignal
    | PollAcceptor
    | PollClient(slot: nat)
    | Drain
    | SweepOne
    | SweepEnd
    | AssignOne
    | AssignFail
    // worker t
    | Wake(t: nat)
    | AcceptNobody(t: nat)
    | AcceptClient(t: nat, fd: int)
    | Serve(t: nat)
    | HangUp(t: nat)
    | Publish(t: nat)
    | Signal(t: nat)

  /** add_connection_to_poll: the first free entry; if there is none the
      connection is silently dropped. */
  function AddToPoll(poll: seq<int>, fd: int, i: nat): (r: seq<int>)
    requires i <= |poll|
    ensures |r| == |poll|
    decreases |poll| - i
  {
    if i == |poll| then poll
    else if poll[i] == -1 then poll[i := fd]
    else AddToPoll(poll, fd, i + 1)
  }

  /** What thread_has_finished does with one worker's result. */
  function TakeBack(cfg: Setup, w: World, k: nat): World
    requires k < |w.threads|
  {
    var th := w.threads[k];
    if th.status != Done then w
    else
      var v := w.(threads := w.threads[k := th.(status := Free)], working := w.working - 1);
      if th.inConn == cfg.acceptor then
        v.(acceptorSlot := th.inConn, poll := if th.addConn > 0 then AddToPoll(w.poll, th.addConn, 0) else w.poll)
      else
        v.(poll := if th.inConn > 0 then AddToPoll(w.poll, th.inConn, 0) else w.poll)
  }

  function MainStep(cfg: Setup, w: World, a: Action): Option<World> {
    var n := |w.threads|;
    match (w.main, a)
    case (Polling, PollSignal) => if w.pending then Some(w.(main := Draining)) else None
    case (Polling, PollAcceptor) =>
      if !w.pending && w.working < n && w.acceptorSlot != -1 then
        Some(w.(acceptorSlot := -1, main := Assigning(w.acceptorSlot, 0)))
      else None
    case (Polling, PollClient(j)) =>
      if !w.pending && w.working < n && j < |w.poll| && w.poll[j] != -1 then
        Some(w.(poll := w.poll[j := -1], main := Assigning(w.poll[j], 0)))
      else None
    case (Draining, Drain) => Some(w.(pending := false, main := Sweeping(0)))
    case (Sweeping(k), SweepOne) => if k < n then Some(TakeBack(cfg, w, k).(main := Sweeping(k + 1))) else None
    case (Sweeping(k), SweepEnd) => if k >= n then Some(w.(main := Polling)) else None
    case (Assigning(fd, k), AssignOne) =>
      if k >= n then None
      else if w.threads[k].status == Free then
        Some(w.(threads := w.threads[k := w.threads[k].(status := Do, inConn := fd)],
                working := w.working + 1, main := Polling))
      else Some(w.(main := Assigning(fd, k + 1)))
    case (Assigning(fd, k), AssignFail) => if k >= n then Some(w.(main := Broken)) else None
    case _ => None
  }

  /** One step of worker t, or None: what becomes of it and of the registered clients. */
  function ThreadStep(cfg: Setup, th: Thread, clients: set<int>, a: Action): Option<(Thread, set<int>)> {
    match (th.pc, a)
    case (Waiting, Wake(_)) => if th.status == Do then Some((th.(pc := Working), clients)) else None
    case (Working, AcceptNobody(_)) =>
      if th.inConn == cfg.acceptor then Some((th.(pc := Finishing(th.inConn, -1)), clients)) else None
    case (Working, AcceptClient(_, fd)) =>
      if th.inConn == cfg.acceptor && |clients| < cfg.maxConns && fd > 0 && fd != cfg.acceptor && fd !in clients then
        Some((th.(pc := Finishing(th.inConn, fd)), clients + {fd}))
      else None
    case (Working, Serve(_)) =>
      if th.inConn != cfg.acceptor then Some((th.(pc := Finishing(th.inConn, -1)), clients)) else None
    case (Working, HangUp(_)) =>
      if th.inConn != cfg.acceptor then Some((th.(pc := Finishing(-1, -1)), clients - {th.inConn})) else None
    case (Finishing(conn, newconn), Publish(_)) => Some((Thread(Done, conn, newconn, Signalling), clients))
    case _ => None
  }

  function Step(cfg: Setup, w: World, a: Action): Option<World> {
    match a
    case Signal(t) =>
      if t < |w.threads| && w.threads[t].pc == Signalling then
        Some(w.(threads := w.threads[t := w.threads[t].(pc := Waiting)], pending := true))
      else None
    case Wake(t) => OfThread(cfg, w, t, a)
    case AcceptNobody(t) => OfThread(cfg, w, t, a)
    case AcceptClient(t, _) => OfThread(cfg, w, t, a)
    case Serve(t) => OfThread(cfg, w, t, a)
    case HangUp(t) => OfThread(cfg, w, t, a)
    case Publish(t) => OfThread(cfg, w, t, a)
    case _ => MainStep(cfg, w, a)
  }

  function OfThread(cfg: Setup, w: World, t: nat, a: Action): Option<World> {
    if t >= |w.threads| then None
    else
      match ThreadStep(cfg, w.threads[t], w.clients, a)
      case None => None
      case Some(r) => Some(w.(threads := w.threads[t := r.0], clients := r.1))
  }

  function Play(cfg: Setup, w: World, actions: seq<Action>): Option<World> {
    if |actions| == 0 then Some(w)
    else
      match Play(cfg, w, actions[..|actions| - 1])
      case None => None
      case Some(v) => Step(cfg, v, actions[|actions| - 1])
  }
}
