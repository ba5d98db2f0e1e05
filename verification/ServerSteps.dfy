/** The critical sections of the server, as they are executed on the shared queue, are steps of the state machine. */
module ServerSteps {
  import opened RequestQueue
  import opened Server
  import opened ServerRuns

  /** The state after main has decided. */
  ghost function Decided(s: Sys, outcome: Outcome, waiting: seq<Conn>, discarded: seq<Conn>, closed: seq<Conn>,
                         woken: seq<Worker>): Sys
    requires s.main.Holding?
  {
    match outcome
    case Slept => s.(main := Waiting(s.main.c))
    case Refused => s.(main := Accepting, dropped := s.dropped + multiset(closed),
                closed := s.closed + multiset(closed))
    case Admitted =>
      s.(main := Accepting, waiting := waiting, workers := woken, discarded := s.discarded + multiset(discarded),
         dropped := s.dropped + multiset(closed), closed := s.closed + multiset(closed))
  }

  lemma DecidedIsSubmit(cfg: Config, s: Sys, rand: seq<nat>, outcome: Outcome, waiting: seq<Conn>,
                        discarded: seq<Conn>, closed: seq<Conn>, woken: seq<Worker>)
    requires s.main.Holding? && Woken(s.workers, woken) && |rand| == Picks(cfg.policy, cfg.q, |s.waiting|, s.running)
    requires match Decide(cfg.policy, cfg.q, s.waiting, s.running, s.main.c, rand)
             case Sleep => outcome == Slept
             case Refuse => outcome == Refused && closed == [s.main.c]
             case Admit(w, d, c) => outcome == Admitted && discarded == d && closed == c && waiting == w
    ensures Submit(cfg, s, Decided(s, outcome, waiting, discarded, closed, woken), rand)
  {
    hide Decide, Woken;
  }

  class Pool {
    const cfg: Config
    const monitor: Monitor
    ghost var sys: Sys
    ghost var log: seq<Sys>   // the states so far

    ghost function Repr(): set<object>
      reads this, monitor, monitor.queue
    {
      {this} + monitor.Repr()
    }

    /** The log is a run of the state machine, and its last state is that of the monitor. */
    ghost predicate Valid()
      reads Repr()
    {
      && this !in monitor.Repr() && monitor.Valid()
      && monitor.queueSize == cfg.q && monitor.queue.Fds() == sys.waiting && monitor.running == sys.running
      && Run(cfg, log) && log[|log| - 1] == sys
    }

    /** createQueue, and the start of the workers. */
    constructor (cfg: Config, now: int)
      ensures Valid() && fresh(Repr()) && this.cfg == cfg && |log| == 1
    {
      this.cfg := cfg;
      monitor := new Monitor(cfg.q, now);
      sys := Sys([], 0, seq(cfg.n, _ => Ready), Accepting, 0, [], multiset{}, multiset{}, multiset{}, multiset{});
      log := [Sys([], 0, seq(cfg.n, _ => Ready), Accepting, 0, [], multiset{}, multiset{}, multiset{}, multiset{})];
    }

    /** The state machine goes to state `s`. */
    ghost method Goes(s: Sys)
      requires Run(cfg, log) && log[|log| - 1] == sys && Step(cfg, sys, s)
      modifies this`sys, this`log
      ensures sys == s && log == old(log) + [s] && Run(cfg, log)
    {
      hide Step, Init;
      log := Extend(cfg, log, s);
      sys := s;
    }

    // ----- what happens outside the critical sections

    /** Main accepts a connection. */
    ghost method MainAccepts()
      requires Valid() && sys.main == Accepting
      modifies this
      ensures Valid() && Repr() == old(Repr()) && Accept(old(sys), sys) && log == old(log) + [sys]
    {
      hide Run;
      Goes(sys.(main := Holding(sys.accepted), accepted := sys.accepted + 1));
    }

    /** Worker `i` handles its connection and closes it. */
    ghost method WorkerServes(i: nat)
      requires Valid() && i < |sys.workers| && sys.workers[i].Serving?
      modifies this
      ensures Valid() && Repr() == old(Repr()) && Serve(old(sys), sys, i) && log == old(log) + [sys]
    {
      hide Run;
      var c := sys.workers[i].c;
      var s := sys.(workers := sys.workers[i := Closing(c)], completed := sys.completed + multiset{c},
                    closed := sys.closed + multiset{c});
      assert Serve(sys, s, i);
      assert Work(cfg, sys, s);
      Goes(s);
    }

    /** A thread wakes up without a signal. */
    ghost method Wakes(s: Sys)
      requires Valid() && Spurious(sys, s)
      modifies this
      ensures Valid() && Repr() == old(Repr()) && sys == s && log == old(log) + [sys]
    {
      hide Run;
      Goes(s);
    }

    // ----- the critical sections

    /** Worker `i` looks for a connection. */
    method WorkerTakes(ghost i: nat, now: int) returns (node: QueueNode?)
      requires Valid() && i < |sys.workers| && sys.workers[i] == Ready
      modifies Repr()
      ensures Valid() && Repr() <= old(Repr()) && Take(cfg, old(sys), sys, i) && log == old(log) + [sys]
      ensures if node == null then sys.workers[i] == Asleep else sys.workers[i].Serving? && sys.workers[i].c == node.fd
    {
      hide Run;
      var signal;
      node, signal := monitor.Take(now);
      ghost var s := if node == null then sys.(workers := sys.workers[i := Asleep])
        else sys.(waiting := sys.waiting[1..], running := sys.running + 1,
                  workers := sys.workers[i := Serving(sys.waiting[0])], dispatched := sys.dispatched + [sys.waiting[0]],
                  main := Notified(sys.main, signal));
      assert Take(cfg, sys, s, i);
      assert Work(cfg, sys, s);
      Goes(s);
    }

    /** Worker `i` has handled and closed its connection. */
    method WorkerDone(ghost i: nat)
      requires Valid() && i < |sys.workers| && sys.workers[i].Closing?
      modifies this, monitor
      ensures Valid() && Repr() == old(Repr()) && Done(cfg, old(sys), sys, i) && log == old(log) + [sys]
    {
      hide Run;
      var signal := monitor.Done();
      ghost var s := sys.(workers := sys.workers[i := Ready], running := sys.running - 1,
                          main := Notified(sys.main, signal));
      assert Done(cfg, sys, s, i);
      assert Work(cfg, sys, s);
      Goes(s);
    }

    /** Main decides about the connection `c` it holds; a signal on buffer_empty leaves the workers as `woken`. */
    method MainSubmits(c: Conn, arrival: int, rand: seq<nat>, ghost woken: seq<Worker>) returns (outcome: Outcome)
      requires Valid() && sys.main == Holding(c) && Woken(sys.workers, woken)
      requires |rand| == Picks(cfg.policy, cfg.q, |sys.waiting|, sys.running)
      modifies Repr()
      ensures Valid() && fresh(Repr() - old(Repr())) && Submit(cfg, old(sys), sys, rand) && log == old(log) + [sys]
      ensures outcome == Slept <==> sys.main == Waiting(c)
    {
      hide Decide, Woken, Submit, Run;
      var discarded, closed;
      outcome, discarded, closed := monitor.Submit(c, arrival, cfg.policy, rand);
      DecidedIsSubmit(cfg, sys, rand, outcome, monitor.queue.Fds(), discarded, closed, woken);
      ghost var s := Decided(sys, outcome, monitor.queue.Fds(), discarded, closed, woken);
      assert Work(cfg, sys, s);
      Goes(s);
    }

    // ----- what runs say about the monitor

    /** running_threads counts the busy workers and, with what waits in the
      * queue, stays within the queue size; no wakeup has been lost. */
    lemma Kept()
      requires Valid()
      ensures Inv(cfg, sys)
      ensures monitor.running == BusyCount(sys.workers) && |monitor.queue.Fds()| + monitor.running <= Capacity(cfg.q)
      ensures SomeAsleep(sys.workers) ==> |monitor.queue.Fds()| <= ReadyCount(sys.workers)
      ensures sys.main.Waiting? ==> Full(cfg.q, |monitor.queue.Fds()|, monitor.running)
    {
      hide Linked;
      RunsKeep(cfg, log, |log| - 1);
    }
  }
}
