/** The loops of src/source/server/server_loop.c and server_subcalls.c as the main
    thread runs them, on its poll array and the workers' data.  They are proved
    against the steps of Handshake.dfy taken without anybody in between; what
    happens when workers do get in between is HandshakeProofs.dfy's business. */
module Dispatchers {
  import opened Basics
  import opened Handshake

  /** thread_has_finished from worker k on. */
  function SweepFrom(cfg: Setup, w: World, k: nat): (v: World)
    requires k <= |w.threads|
    decreases |w.threads| - k
  {
    if k == |w.threads| then w else SweepFrom(cfg, TakeBack(cfg, w, k), k + 1)
  }

  /** thread_assign_work from worker k on: the first idle one gets the connection. */
  function AssignFrom(w: World, fd: int, k: nat): Option<World>
    requires k <= |w.threads|
    decreases |w.threads| - k
  {
    if k == |w.threads| then None
    else if w.threads[k].status == Free then
      Some(w.(threads := w.threads[k := w.threads[k].(status := Do, inConn := fd)], working := w.working + 1))
    else AssignFrom(w, fd, k + 1)
  }

  function Repeated(a: Action, n: nat): (r: seq<Action>)
    ensures |r| == n
  {
    if n == 0 then [] else [a] + Repeated(a, n - 1)
  }

  /** Sweeping n times from worker k on is what SweepFrom does. */
  ghost predicate SweptIn(cfg: Setup, w: World, k: nat, n: nat)
    requires k <= |w.threads|
  {
    Play(cfg, w, Repeated(SweepOne, n)) == Some(SweepFrom(cfg, w, k).(main := Sweeping(|w.threads|)))
  }

  lemma SweepMore(cfg: Setup, w: World, k: nat, n: nat)
    requires k < |w.threads| && w.main == Sweeping(k)
    requires var next := TakeBack(cfg, w, k).(main := Sweeping(k + 1));
             |next.threads| == |w.threads| && SweptIn(cfg, next, k + 1, n)
    ensures SweptIn(cfg, w, k, n + 1)
  {
    SweepIgnoresMain(cfg, TakeBack(cfg, w, k), k + 1, Sweeping(k + 1));
    PlayFirst(cfg, w, SweepOne, Repeated(SweepOne, n));
  }

  /** A sweep is the sweeping steps in a row. */
  lemma {:induction false} SweepIsSteps(cfg: Setup, w: World, k: nat)
    requires k <= |w.threads| && w.main == Sweeping(k)
    ensures SweptIn(cfg, w, k, |w.threads| - k)
    decreases |w.threads| - k
  {
    if k < |w.threads| {
      TakeBackKeepsThreads(cfg, w, k);
      SweepIsSteps(cfg, TakeBack(cfg, w, k).(main := Sweeping(k + 1)), k + 1);
      SweepMore(cfg, w, k, |w.threads| - k - 1);
    }
  }

  lemma TakeBackKeepsThreads(cfg: Setup, w: World, k: nat)
    requires k < |w.threads|
    ensures |TakeBack(cfg, w, k).threads| == |w.threads|
  {
  }

  lemma {:induction false} SweepIgnoresMain(cfg: Setup, w: World, k: nat, main: Main)
    requires k <= |w.threads|
    ensures SweepFrom(cfg, w.(main := main), k) == SweepFrom(cfg, w, k).(main := main)
    decreases |w.threads| - k
  {
    if k < |w.threads| {
      SweepIgnoresMain(cfg, TakeBack(cfg, w, k), k + 1, main);
      assert TakeBack(cfg, w.(main := main), k) == TakeBack(cfg, w, k).(main := main);
    }
  }

  lemma {:induction false} PlayFirst(cfg: Setup, w: World, a: Action, rest: seq<Action>)
    requires Step(cfg, w, a).Some?
    ensures Play(cfg, w, [a] + rest) == Play(cfg, Step(cfg, w, a).value, rest)
  {
    if |rest| == 0 {
      assert [a] + rest == [a];
      assert Play(cfg, w, [a][..0]) == Some(w);
    } else {
      var n := |rest| - 1;
      assert ([a] + rest)[..n + 1] == [a] + rest[..n];
      PlayFirst(cfg, w, a, rest[..n]);
    }
  }

  /** Assigning n times is what AssignFrom does; if it finds nobody, the main thread
      is left with nothing but to fail. */
  ghost predicate AssignedIn(cfg: Setup, w: World, fd: int, k: nat, n: nat)
    requires k <= |w.threads|
  {
    match AssignFrom(w, fd, k)
    case Some(v) => Play(cfg, w, Repeated(AssignOne, n)) == Some(v.(main := Polling))
    case None => Play(cfg, w, Repeated(AssignOne, n) + [AssignFail]) == Some(w.(main := Broken))
  }

  lemma AssignSkips(cfg: Setup, w: World, fd: int, k: nat, n: nat)
    requires k < |w.threads| && w.main == Assigning(fd, k) && w.threads[k].status != Free
    requires AssignedIn(cfg, w.(main := Assigning(fd, k + 1)), fd, k + 1, n)
    ensures AssignedIn(cfg, w, fd, k, n + 1)
  {
    AssignIgnoresMain(w, fd, k + 1, Assigning(fd, k + 1));
    var rest := Repeated(AssignOne, n);
    assert Step(cfg, w, AssignOne) == Some(w.(main := Assigning(fd, k + 1)));
    if AssignFrom(w, fd, k).Some? {
      PlayFirst(cfg, w, AssignOne, rest);
    } else {
      PlayFirst(cfg, w, AssignOne, rest + [AssignFail]);
      assert [AssignOne] + (rest + [AssignFail]) == Repeated(AssignOne, n + 1) + [AssignFail];
    }
  }

  lemma PlayOne(cfg: Setup, w: World, a: Action)
    ensures Play(cfg, w, [a]) == Step(cfg, w, a)
  {
    assert [a][..0] == [];
    assert Play(cfg, w, []) == Some(w);
  }

  lemma AssignEnds(cfg: Setup, w: World, fd: int, k: nat)
    requires k <= |w.threads| && w.main == Assigning(fd, k) && (k == |w.threads| || w.threads[k].status == Free)
    ensures AssignedIn(cfg, w, fd, k, if k == |w.threads| then 0 else 1)
  {
    PlayOne(cfg, w, AssignOne);
    PlayOne(cfg, w, AssignFail);
    assert Repeated(AssignOne, 0) + [AssignFail] == [AssignFail];
    assert Repeated(AssignOne, 1) == [AssignOne];
  }

  /** An assignment is the assigning steps in a row. */
  lemma {:induction false} AssignIsSteps(cfg: Setup, w: World, fd: int, k: nat) returns (n: nat)
    requires k <= |w.threads| && w.main == Assigning(fd, k)
    ensures AssignedIn(cfg, w, fd, k, n)
    decreases |w.threads| - k
  {
    if k == |w.threads| || w.threads[k].status == Free {
      AssignEnds(cfg, w, fd, k);
      n := if k == |w.threads| then 0 else 1;
    } else {
      var m := AssignIsSteps(cfg, w.(main := Assigning(fd, k + 1)), fd, k + 1);
      AssignSkips(cfg, w, fd, k, m);
      n := m + 1;
    }
  }

  lemma {:induction false} AssignIgnoresMain(w: World, fd: int, k: nat, main: Main)
    requires k <= |w.threads|
    ensures AssignFrom(w.(main := main), fd, k) ==
            match AssignFrom(w, fd, k) case None => None case Some(v) => Some(v.(main := main))
    decreases |w.threads| - k
  {
    if k < |w.threads| && w.threads[k].status != Free {
      AssignIgnoresMain(w, fd, k + 1, main);
    }
  }

  /** The assignment without the loop: the first idle worker from k on gets the
      connection and nobody else anything; it fails exactly if there is none. */
  lemma {:induction false} AssignExactly(w: World, fd: int, k: nat)
    requires k <= |w.threads|
    ensures match AssignFrom(w, fd, k)
            case None => forall t :: k <= t < |w.threads| ==> w.threads[t].status != Free
            case Some(v) =>
              exists t :: k <= t < |w.threads| && w.threads[t].status == Free &&
                (forall u :: k <= u < t ==> w.threads[u].status != Free) &&
                v == w.(threads := w.threads[t := w.threads[t].(status := Do, inConn := fd)], working := w.working + 1)
    decreases |w.threads| - k
  {
    if k < |w.threads| && w.threads[k].status != Free {
      AssignExactly(w, fd, k + 1);
    }
  }

  class Dispatcher {
    const cfg: Setup
    const poll: array<int>
    const threads: array<Thread>
    var acceptorSlot: int
    var working: int

    constructor (cfg: Setup, workers: nat)
      ensures this.cfg == cfg && fresh(poll) && fresh(threads)
      ensures forall rest: World ::
                View(rest) == Start(cfg, workers).(pending := rest.pending, main := rest.main, clients := rest.clients)
    {
      this.cfg := cfg;
      poll := new int[cfg.maxConns](_ => -1);
      threads := new Thread[workers](_ => Thread(Free, -1, -1, Waiting));
      acceptorSlot := cfg.acceptor;
      working := 0;
      new;
      assert poll[..] == seq(cfg.maxConns, _ => -1);
      assert threads[..] == seq(workers, _ => Thread(Free, -1, -1, Waiting));
    }

    /** The world with the dispatcher's part of it filled in. */
    ghost function View(rest: World): World
      reads this, poll, threads
    {
      rest.(poll := poll[..], acceptorSlot := acceptorSlot, threads := threads[..], working := working)
    }

    method AddConnectionToPoll(conn: int)
      modifies poll
      ensures poll[..] == AddToPoll(old(poll[..]), conn, 0)
    {
      var i, done := 0, false;
      while i < poll.Length && !done
        invariant 0 <= i <= poll.Length
        invariant !done ==>
                    poll[..] == old(poll[..]) && AddToPoll(poll[..], conn, i) == AddToPoll(old(poll[..]), conn, 0)
        invariant done ==> poll[..] == AddToPoll(old(poll[..]), conn, 0)
      {
        if poll[i] == -1 {
          poll[i] := conn;
          done := true;
        }
        i := i + 1;
      }
    }

    /** after_poll_acceptor: take the acceptor out of its slot. */
    method AfterPollAcceptor(ghost rest: World) returns (fd: int)
      modifies this`acceptorSlot
      ensures fd == old(acceptorSlot) && acceptorSlot == -1
      ensures rest.main == Polling && !rest.pending && working < threads.Length && fd != -1 ==>
                Step(cfg, old(View(rest)), PollAcceptor) == Some(View(rest).(main := Assigning(fd, 0)))
    {
      fd := acceptorSlot;
      acceptorSlot := -1;
    }

    /** after_poll_connection: take the first connection that has something to say
        out of the poll array. */
    method AfterPollConnection(ready: seq<bool>, ghost rest: World) returns (fd: int)
      requires |ready| == poll.Length
      modifies poll
      ensures fd != -1 && rest.main == Polling && !rest.pending && working < threads.Length ==>
                exists j :: Step(cfg, old(View(rest)), PollClient(j)) == Some(View(rest).(main := Assigning(fd, 0)))
      ensures fd == -1 ==> forall i :: 0 <= i < poll.Length && ready[i] ==> old(poll[i]) == -1
      ensures fd != -1 ==>
                exists j :: 0 <= j < poll.Length && ready[j] && fd == old(poll[j]) &&
                  poll[..] == old(poll[..])[j := -1] && forall i :: 0 <= i < j && ready[i] ==> old(poll[i]) == -1
    {
      var i := 0;
      fd := -1;
      while i < poll.Length && fd == -1
        invariant 0 <= i <= poll.Length
        invariant fd == -1 ==>
                    poll[..] == old(poll[..]) && forall k :: 0 <= k < i && ready[k] ==> old(poll[k]) == -1
        invariant fd != -1 ==>
                    exists j :: 0 <= j < poll.Length && ready[j] && fd == old(poll[j]) &&
                      poll[..] == old(poll[..])[j := -1] && forall k :: 0 <= k < j && ready[k] ==> old(poll[k]) == -1
      {
        if ready[i] {
          assert poll[i] == poll[..][i] == old(poll[i]);
          fd := poll[i];
          poll[i] := -1;
          if fd != -1 {
            assert poll[..] == old(poll[..])[i := -1];
          } else {
            assert poll[..] == old(poll[..]);
          }
        }
        i := i + 1;
      }
      if fd != -1 && rest.main == Polling && !rest.pending && working < threads.Length {
        ghost var j: nat :| j < poll.Length && ready[j] && fd == old(poll[j]) && poll[..] == old(poll[..])[j := -1];
        assert Step(cfg, old(View(rest)), PollClient(j)) == Some(View(rest).(main := Assigning(fd, 0)));
      }
    }

    method ThreadAssignWork(conn: int, ghost rest: World) returns (ok: bool)
      modifies this`working, threads
      ensures ok == AssignFrom(old(View(rest)), conn, 0).Some?
      ensures View(rest) == if ok then AssignFrom(old(View(rest)), conn, 0).value else old(View(rest))
    {
      var i := 0;
      while i < threads.Length
        invariant 0 <= i <= threads.Length && View(rest) == old(View(rest))
        invariant AssignFrom(View(rest), conn, i) == AssignFrom(old(View(rest)), conn, 0)
      {
        if threads[i].status == Free {
          ghost var before := threads[..];
          threads[i] := threads[i].(status := Do, inConn := conn);
          working := working + 1;
          assert threads[..] == before[i := before[i].(status := Do, inConn := conn)];
          return true;
        }
        i := i + 1;
      }
      return false;
    }

    method TakeBackOne(i: nat, ghost rest: World)
      requires i < threads.Length
      modifies this, poll, threads
      ensures View(rest) == TakeBack(cfg, old(View(rest)), i)
    {
      var th := threads[i];
      if th.status == Done {
        ghost var before := threads[..];
        threads[i] := th.(status := Free);
        assert threads[..] == before[i := th.(status := Free)];
        working := working - 1;
        if th.inConn == cfg.acceptor {
          acceptorSlot := th.inConn;
          if th.addConn > 0 {
            AddConnectionToPoll(th.addConn);
          }
        } else if th.inConn > 0 {
          AddConnectionToPoll(th.inConn);
        }
      }
    }

    method ThreadHasFinished(ghost rest: World)
      modifies this, poll, threads
      ensures View(rest) == SweepFrom(cfg, old(View(rest)), 0)
    {
      var i := 0;
      while i < threads.Length
        invariant 0 <= i <= threads.Length
        invariant SweepFrom(cfg, View(rest), i) == SweepFrom(cfg, old(View(rest)), 0)
      {
        TakeBackOne(i, rest);
        i := i + 1;
      }
    }
  }
}
