/** The thread-pool server as a state machine: one acceptor, any number of workers, one mutex, two condition variables.
  *
  * A step is one critical section, or one action outside. A signal wakes at least one waiter if there is one; a woken
  * thread has to get the mutex again and to look at its condition again; threads may also wake up without a signal.
  * Connections are named by their order of arrival.
  */
module ServerRuns {
  import opened Basics
  import opened Server

  type Conn = int

  datatype Config = Config(policy: Policy, q: int, n: nat)   // policy, queue_size, thread_num

  /** A worker is about to look for work, asleep on buffer_empty, handling
    * a connection, or done with it and about to say so. */
  datatype Worker = Ready | Asleep | Serving(c: Conn) | Closing(c: Conn)

  /** Main is about to accept, has accepted a connection and is about to decide, or is asleep on buffer_full with it. */
  datatype Main = Accepting | Holding(c: Conn) | Waiting(c: Conn)

  datatype Sys = Sys(
    waiting: seq<Conn>, running: int, workers: seq<Worker>, main: Main,
    accepted: nat,                  // connections accepted so far
    dispatched: seq<Conn>,          // taken by workers, in order
    completed: multiset<Conn>,      // handled by a worker
    dropped: multiset<Conn>,        // closed by main
    discarded: multiset<Conn>,      // freed by main without a close
    closed: multiset<Conn>          // every close of a connection
  )

  // ----- counting

  function Count(ws: seq<Worker>, weight: Worker -> int): int {
    if ws == [] then 0 else weight(ws[0]) + Count(ws[1..], weight)
  }

  const IS_READY: Worker -> int := (w: Worker) => if w == Ready then 1 else 0
  const IS_BUSY: Worker -> int := (w: Worker) => if w.Serving? || w.Closing? then 1 else 0

  /** The weight that counts the workers handling `c`. */
  function Handles(c: Conn): Worker -> int {
    (w: Worker) => if w == Serving(c) then 1 else 0
  }

  function ReadyCount(ws: seq<Worker>): int { Count(ws, IS_READY) }

  function BusyCount(ws: seq<Worker>): int { Count(ws, IS_BUSY) }

  lemma {:induction false} CountUpdate(ws: seq<Worker>, weight: Worker -> int, i: nat, w: Worker)
    requires i < |ws|
    ensures Count(ws[i := w], weight) == Count(ws, weight) - weight(ws[i]) + weight(w)
  {
    if i == 0 {
      assert ws[0 := w][1..] == ws[1..];
    } else {
      assert ws[i := w][1..] == ws[1..][i - 1 := w];
      CountUpdate(ws[1..], weight, i - 1, w);
    }
  }

  lemma {:induction false} CountBounds(ws: seq<Worker>, weight: Worker -> int, max: nat)
    requires forall w :: 0 <= weight(w) <= max
    ensures 0 <= Count(ws, weight) <= max * |ws|
    ensures forall i :: 0 <= i < |ws| ==> weight(ws[i]) <= Count(ws, weight)
  {
    if ws != [] {
      CountBounds(ws[1..], weight, max);
      assert forall i :: 1 <= i < |ws| ==> ws[i] == ws[1..][i - 1];
    }
  }

  // ----- signals

  ghost predicate SomeAsleep(ws: seq<Worker>) {
    exists i :: 0 <= i < |ws| && ws[i] == Asleep
  }

  /** Workers `ws` after some of the sleeping ones, at least one if there is one, have been woken. */
  ghost predicate Woken(ws: seq<Worker>, ws': seq<Worker>) {
    && |ws'| == |ws|
    && (forall i :: 0 <= i < |ws| ==> ws'[i] == ws[i] || (ws[i] == Asleep && ws'[i] == Ready))
    && (SomeAsleep(ws) ==> exists i :: 0 <= i < |ws| && ws[i] == Asleep && ws'[i] == Ready)
  }

  /** Main after a signal on buffer_full, if there is one. */
  function Notified(m: Main, signal: bool): Main {
    if signal && m.Waiting? then Holding(m.c) else m
  }

  // ----- steps

  ghost predicate Take(cfg: Config, s: Sys, s': Sys, i: int) {
    && 0 <= i < |s.workers| && s.workers[i] == Ready
    && if s.waiting == [] then s' == s.(workers := s.workers[i := Asleep])
       else
         s' == s.(waiting := s.waiting[1..], running := s.running + 1, workers := s.workers[i := Serving(s.waiting[0])],
                  dispatched := s.dispatched + [s.waiting[0]],
                  main := Notified(s.main, !Full(cfg.q, |s.waiting| - 1, s.running + 1)))
  }

  ghost predicate Serve(s: Sys, s': Sys, i: int) {
    && 0 <= i < |s.workers| && s.workers[i].Serving?
    && var c := s.workers[i].c;
       s' == s.(workers := s.workers[i := Closing(c)], completed := s.completed + multiset{c},
         closed := s.closed + multiset{c})
  }

  ghost predicate Done(cfg: Config, s: Sys, s': Sys, i: int) {
    && 0 <= i < |s.workers| && s.workers[i].Closing?
    && s' == s.(workers := s.workers[i := Ready], running := s.running - 1,
                main := Notified(s.main, !Full(cfg.q, |s.waiting|, s.running - 1)))
  }

  ghost predicate Accept(s: Sys, s': Sys) {
    s.main == Accepting && s' == s.(main := Holding(s.accepted), accepted := s.accepted + 1)
  }

  ghost predicate Submit(cfg: Config, s: Sys, s': Sys, rand: seq<nat>) {
    && s.main.Holding? && |rand| == Picks(cfg.policy, cfg.q, |s.waiting|, s.running)
    && var c := s.main.c;
       match Decide(cfg.policy, cfg.q, s.waiting, s.running, c, rand)
       case Sleep => s' == s.(main := Waiting(c))
       case Refuse => s' == s.(main := Accepting, dropped := s.dropped + multiset{c}, closed := s.closed + multiset{c})
       case Admit(w, d, cl) =>
         && Woken(s.workers, s'.workers)
         && s' == s.(main := Accepting, waiting := w, workers := s'.workers, discarded := s.discarded + multiset(d),
                     dropped := s.dropped + multiset(cl), closed := s.closed + multiset(cl))
  }

  /** A thread wakes up without a signal. */
  ghost predicate Spurious(s: Sys, s': Sys) {
    || (s.main.Waiting? && s' == s.(main := Holding(s.main.c)))
    || (exists i :: 0 <= i < |s.workers| && s.workers[i] == Asleep && s' == s.(workers := s.workers[i := Ready]))
  }

  /** A step that needs neither a new connection nor a spurious wakeup. */
  ghost predicate Work(cfg: Config, s: Sys, s': Sys) {
    || (exists i :: Take(cfg, s, s', i)) || (exists i :: Serve(s, s', i)) || (exists i :: Done(cfg, s, s', i))
    || (exists rand :: Submit(cfg, s, s', rand))
  }

  ghost predicate Step(cfg: Config, s: Sys, s': Sys) {
    Work(cfg, s, s') || Accept(s, s') || Spurious(s, s')
  }

  ghost predicate Init(cfg: Config, s: Sys) {
    s == Sys([], 0, seq(cfg.n, _ => Ready), Accepting, 0, [], multiset{}, multiset{}, multiset{}, multiset{})
  }

  ghost predicate Run(cfg: Config, t: seq<Sys>) {
    t != [] && Init(cfg, t[0]) && forall k :: 0 <= k < |t| - 1 ==> Step(cfg, t[k], t[k + 1])
  }

  /** A step more. */
  lemma Extend(cfg: Config, t: seq<Sys>, s: Sys) returns (t': seq<Sys>)
    requires Run(cfg, t) && Step(cfg, t[|t| - 1], s)
    ensures Run(cfg, t') && t' == t + [s]
  {
    hide Step, Init;
    t' := t + [s];
    forall k | 0 <= k < |t'| - 1
      ensures Step(cfg, t'[k], t'[k + 1])
    {
      if k < |t| - 1 {
        assert Step(cfg, t[k], t[k + 1]);
      }
    }
  }

  // ----- invariants

  ghost function UpTo(n: nat): (s: seq<Conn>)
    ensures |s| == n && forall i :: 0 <= i < n ==> s[i] == i
  {
    if n == 0 then [] else UpTo(n - 1) + [n - 1]
  }

  function Held(m: Main): seq<Conn> {
    if m == Accepting then [] else [m.c]
  }

  ghost predicate Increasing(s: seq<Conn>, bound: int) {
    (forall i, j :: 0 <= i < j < |s| ==> s[i] < s[j]) && (forall i :: 0 <= i < |s| ==> s[i] < bound)
  }

  function Capacity(q: int): int {
    if q < 0 then 0 else q
  }

  /** The counter counts, and the queue is within its bound. */
  ghost predicate Counted(cfg: Config, s: Sys) {
    && |s.workers| == cfg.n && s.running == BusyCount(s.workers)
    && |s.waiting| + s.running <= Capacity(cfg.q)
  }

  /** No wakeup is lost. */
  ghost predicate Awake(cfg: Config, s: Sys) {
    && (SomeAsleep(s.workers) ==> |s.waiting| <= ReadyCount(s.workers))
    && (s.main.Waiting? ==> cfg.policy == Block && Full(cfg.q, |s.waiting|, s.running))
  }

  /** The number of places where connection `c` is. */
  ghost function Places(s: Sys, c: Conn): int {
    multiset(s.waiting)[c] + multiset(Held(s.main))[c] + Count(s.workers, Handles(c)) + s.completed[c] + s.dropped[c]
      + s.discarded[c]
  }

  /** Every accepted connection is in exactly one place, and what is
    * completed or dropped has been closed once, the rest never. */
  ghost predicate Conserved(cfg: Config, s: Sys) {
    && (forall c: Conn {:trigger Places(s, c)} :: Places(s, c) == if 0 <= c < s.accepted then 1 else 0)
    && (forall c: Conn {:trigger s.closed[c]} :: s.closed[c] == s.completed[c] + s.dropped[c])
    && (s.discarded != multiset{} ==> cfg.policy == DropHead)
  }

  /** In which order they are dispatched. */
  ghost predicate InOrder(cfg: Config, s: Sys) {
    && Increasing(s.dispatched + s.waiting + Held(s.main), s.accepted)
    && (s.main != Accepting ==> s.main.c == s.accepted - 1)
    && (cfg.policy == Block ==> s.dispatched + s.waiting + Held(s.main) == UpTo(s.accepted))
  }

  /** What has been dispatched is being handled or completed. */
  ghost predicate Dispatched(s: Sys) {
    forall c: Conn {:trigger s.completed[c]} :: multiset(s.dispatched)[c]
      == Count(s.workers, Handles(c)) + s.completed[c]
  }

  ghost predicate Inv(cfg: Config, s: Sys) {
    Counted(cfg, s) && Awake(cfg, s) && Conserved(cfg, s) && InOrder(cfg, s) && Dispatched(s)
  }

  // ----- what waking does

  /** `weight` does not tell sleeping from woken workers. */
  ghost predicate Blind(weight: Worker -> int) {
    weight(Asleep) == weight(Ready)
  }

  ghost predicate Waking(ws: seq<Worker>, ws': seq<Worker>) {
    |ws'| == |ws| && forall i :: 0 <= i < |ws| ==> ws'[i] == ws[i] || (ws[i] == Asleep && ws'[i] == Ready)
  }

  lemma {:induction false} WakeBlind(ws: seq<Worker>, ws': seq<Worker>, weight: Worker -> int)
    requires Waking(ws, ws') && Blind(weight)
    ensures Count(ws', weight) == Count(ws, weight)
  {
    if ws != [] {
      assert forall i :: 0 <= i < |ws[1..]| ==> ws[1..][i] == ws[i + 1] && ws'[1..][i] == ws'[i + 1];
      WakeBlind(ws[1..], ws'[1..], weight);
    }
  }

  lemma {:induction false} WakeMore(ws: seq<Worker>, ws': seq<Worker>)
    requires Waking(ws, ws')
    ensures ReadyCount(ws) <= ReadyCount(ws') <= ReadyCount(ws) + |ws|
  {
    if ws != [] {
      assert forall i :: 0 <= i < |ws[1..]| ==> ws[1..][i] == ws[i + 1] && ws'[1..][i] == ws'[i + 1];
      WakeMore(ws[1..], ws'[1..]);
    }
  }

  lemma WakeOne(ws: seq<Worker>, ws': seq<Worker>)
    requires Woken(ws, ws') && SomeAsleep(ws)
    ensures ReadyCount(ws) < ReadyCount(ws')
  {
    var i :| 0 <= i < |ws| && ws[i] == Asleep && ws'[i] == Ready;
    CountUpdate(ws, IS_READY, i, Ready);
    WakeMore(ws[i := Ready], ws');
  }

  // ----- every step keeps the invariants

  lemma TakeCounted(cfg: Config, s: Sys, s': Sys, i: nat)
    requires Counted(cfg, s) && Take(cfg, s, s', i)
    ensures Counted(cfg, s')
  {
    CountUpdate(s.workers, IS_BUSY, i, s'.workers[i]);
  }

  lemma TakeAwake(cfg: Config, s: Sys, s': Sys, i: nat)
    requires Awake(cfg, s) && Take(cfg, s, s', i)
    ensures Awake(cfg, s')
  {
    CountUpdate(s.workers, IS_READY, i, s'.workers[i]);
    if s.waiting == [] {
      CountBounds(s'.workers, IS_READY, 1);
    } else if SomeAsleep(s'.workers) {
      StillAsleep(s.workers, i, s'.workers[i]);
    }
  }

  /** Taking the first element out of a sequence. */
  lemma Uncons(w: seq<Conn>)
    requires w != []
    ensures multiset(w) == multiset{w[0]} + multiset(w[1..])
  {
    assert w == [w[0]] + w[1..];
  }

  /** A worker that takes a connection moves that one from the queue to itself. */
  lemma TakeMoves(cfg: Config, s: Sys, s': Sys, i: nat, c: Conn)
    requires Take(cfg, s, s', i)
    ensures Places(s', c) == Places(s, c)
    ensures multiset(s'.dispatched)[c] - Count(s'.workers, Handles(c))
         == multiset(s.dispatched)[c] - Count(s.workers, Handles(c))
  {
    CountUpdate(s.workers, Handles(c), i, s'.workers[i]);
    if s.waiting != [] {
      Uncons(s.waiting);
    }
  }

  lemma TakeConserved(cfg: Config, s: Sys, s': Sys, i: nat)
    requires Conserved(cfg, s) && Dispatched(s) && Take(cfg, s, s', i)
    ensures Conserved(cfg, s') && Dispatched(s')
  {
    hide Places, Handles, Count;
    forall c: Conn
      ensures Places(s', c) == Places(s, c)
      ensures multiset(s'.dispatched)[c] == Count(s'.workers, Handles(c)) + s'.completed[c]
    {
      assert s.completed[c] == s'.completed[c];
      TakeMoves(cfg, s, s', i, c);
    }
  }

  lemma TakeInOrder(cfg: Config, s: Sys, s': Sys, i: nat)
    requires InOrder(cfg, s) && Take(cfg, s, s', i)
    ensures InOrder(cfg, s')
  {
    assert s'.dispatched + s'.waiting == s.dispatched + s.waiting;
  }

  /** A worker that changes from one waking state to another puts nobody to sleep. */
  lemma StillAsleep(ws: seq<Worker>, i: nat, w: Worker)
    requires i < |ws| && w != Asleep && SomeAsleep(ws[i := w])
    ensures SomeAsleep(ws)
  {
    var k :| 0 <= k < |ws| && ws[i := w][k] == Asleep;
    assert ws[k] == Asleep;
  }

  lemma ServeKeeps(cfg: Config, s: Sys, s': Sys, i: nat)
    requires Inv(cfg, s) && Serve(s, s', i)
    ensures Inv(cfg, s')
  {
    var w := s'.workers[i];
    CountUpdate(s.workers, IS_READY, i, w);
    CountUpdate(s.workers, IS_BUSY, i, w);
    if SomeAsleep(s'.workers) {
      StillAsleep(s.workers, i, w);
    }
    forall c: Conn
      ensures Places(s', c) == Places(s, c)
      ensures multiset(s'.dispatched)[c] == Count(s'.workers, Handles(c)) + s'.completed[c]
      ensures s'.closed[c] == s'.completed[c] + s'.dropped[c]
    {
      assert s.closed[c] == s.completed[c] + s.dropped[c];
      CountUpdate(s.workers, Handles(c), i, w);
    }
  }

  lemma DoneKeeps(cfg: Config, s: Sys, s': Sys, i: nat)
    requires Inv(cfg, s) && Done(cfg, s, s', i)
    ensures Inv(cfg, s')
  {
    var w := s'.workers[i];
    CountUpdate(s.workers, IS_READY, i, w);
    CountUpdate(s.workers, IS_BUSY, i, w);
    if SomeAsleep(s'.workers) {
      StillAsleep(s.workers, i, w);
    }
    forall c: Conn
      ensures Places(s', c) == Places(s, c)
      ensures multiset(s'.dispatched)[c] == Count(s'.workers, Handles(c)) + s'.completed[c]
    {
      assert s.completed[c] == s'.completed[c];
      CountUpdate(s.workers, Handles(c), i, w);
    }
  }

  lemma AcceptKeeps(cfg: Config, s: Sys, s': Sys)
    requires Inv(cfg, s) && Accept(s, s')
    ensures Inv(cfg, s')
  {
    assert s'.dispatched + s'.waiting + Held(s'.main) == (s.dispatched + s.waiting + Held(s.main)) + [s.accepted];
    forall c: Conn
      ensures Places(s', c) == if 0 <= c < s'.accepted then 1 else 0
    {
      assert Places(s, c) == if 0 <= c < s.accepted then 1 else 0;
    }
  }

  lemma MainWakesKeeps(cfg: Config, s: Sys, s': Sys)
    requires Inv(cfg, s) && s.main.Waiting? && s' == s.(main := Holding(s.main.c))
    ensures Inv(cfg, s')
  {
    forall c: Conn ensures Places(s', c) == Places(s, c) {}
  }

  lemma WorkerWakesKeeps(cfg: Config, s: Sys, s': Sys, i: nat)
    requires Inv(cfg, s) && i < |s.workers| && s.workers[i] == Asleep && s' == s.(workers := s.workers[i := Ready])
    ensures Inv(cfg, s')
  {
    CountUpdate(s.workers, IS_READY, i, Ready);
    CountUpdate(s.workers, IS_BUSY, i, Ready);
    if SomeAsleep(s'.workers) {
      StillAsleep(s.workers, i, Ready);
    }
    forall c: Conn
      ensures Places(s', c) == Places(s, c)
      ensures multiset(s'.dispatched)[c] == Count(s'.workers, Handles(c)) + s'.completed[c]
    {
      assert s.completed[c] == s'.completed[c];
      CountUpdate(s.workers, Handles(c), i, Ready);
    }
  }

  // ----- the decision of main

  /** What an admission does to the queue. */
  ghost predicate Admission(policy: Policy, q: int, waiting: seq<Conn>, running: int, c: Conn, w: seq<Conn>,
                            d: seq<Conn>, cl: seq<Conn>) {
    && (exists kept :: Subsequence(kept, waiting) && w == kept + [c])
    && multiset(w) + multiset(d) + multiset(cl) == multiset(waiting) + multiset{c}
    && |w| <= |waiting| + 1 && (Full(q, |waiting|, running) ==> |w| <= |waiting|)
    && (d != [] ==> policy == DropHead)
    && (policy == Block ==> w == waiting + [c] && d == [] && cl == [])
  }

  /** The drop-head policy lets go of the oldest. */
  lemma HeadAdmits(q: int, waiting: seq<Conn>, running: int, c: Conn)
    requires Full(q, |waiting|, running) && waiting != []
    ensures Admission(DropHead, q, waiting, running, c, waiting[1..] + [c], [waiting[0]], [])
  {
    hide Subsequence;
    Uncons(waiting);
    assert RemoveAt(waiting, 0) == waiting[1..];
    SubsequenceSelf(waiting[1..]);
    SubsequenceRemove(waiting[1..], waiting, 0);
  }

  /** The random policy closes a quarter. */
  lemma RandomAdmits(q: int, waiting: seq<Conn>, running: int, c: Conn, picks: seq<nat>)
    requires Full(q, |waiting|, running) && waiting != [] && |picks| == Picks(Random, q, |waiting|, running)
    ensures |picks| <= |waiting|
    ensures Admission(Random, q, waiting, running, c, Spared(waiting, picks) + [c], [], Dropped(waiting, picks))
  {
    hide Subsequence, Spared, Dropped;
    QuotaIsQuarter(|waiting|);
    DropSplits(waiting, picks);
  }

  lemma DecideAdmits(policy: Policy, q: int, waiting: seq<Conn>, running: int, c: Conn, picks: seq<nat>)
    requires |picks| == Picks(policy, q, |waiting|, running)
    ensures match Decide(policy, q, waiting, running, c, picks)
            case Sleep => policy == Block && Full(q, |waiting|, running)
            case Refuse => policy != Block
            case Admit(w, d, cl) => Admission(policy, q, waiting, running, c, w, d, cl)
  {
    hide Spared, Dropped, Subsequence;
    if !Full(q, |waiting|, running) {
      SubsequenceSelf(waiting);
    } else if waiting != [] {
      hide Admission;
      if policy == DropHead {
        HeadAdmits(q, waiting, running, c);
      } else if policy == Random {
        RandomAdmits(q, waiting, running, c, picks);
      }
    }
  }

  lemma {:induction false} IncreasingPart(a: seq<Conn>, s: seq<Conn>, t: seq<Conn>, bound: int)
    requires Increasing(a + t, bound) && Subsequence(s, t)
    ensures Increasing(a + s, bound)
    decreases |t|
  {
    if s == [] {
      assert forall i :: 0 <= i < |a| ==> (a + t)[i] == a[i];
    } else {
      assert a + t == (a + [t[0]]) + t[1..];
      if s[0] == t[0] && Subsequence(s[1..], t[1..]) {
        IncreasingPart(a + [t[0]], s[1..], t[1..], bound);
        assert a + s == (a + [s[0]]) + s[1..];
      } else {
        DropMiddle(a, t[0], t[1..], bound);
        IncreasingPart(a, s, t[1..], bound);
      }
    }
  }

  lemma DropMiddle(a: seq<Conn>, x: Conn, b: seq<Conn>, bound: int)
    requires Increasing((a + [x]) + b, bound)
    ensures Increasing(a + b, bound)
  {
    var u, v := (a + [x]) + b, a + b;
    assert forall i :: 0 <= i < |v| ==> v[i] == u[if i < |a| then i else i + 1];
  }

  lemma AppendLast(a: seq<Conn>, c: Conn, bound: int)
    requires Increasing(a, c) && c < bound
    ensures Increasing(a + [c], bound)
  {
  }

  lemma LastBound(a: seq<Conn>, c: Conn, bound: int)
    requires Increasing(a + [c], bound)
    ensures Increasing(a, c)
  {
    assert (a + [c])[|a|] == c;
    assert forall i :: 0 <= i < |a| ==> (a + [c])[i] == a[i];
  }

  lemma AdmitInOrder(dispatched: seq<Conn>, waiting: seq<Conn>, c: Conn, kept: seq<Conn>, bound: int)
    requires Increasing(dispatched + waiting + [c], bound) && Subsequence(kept, waiting)
    ensures Increasing(dispatched + (kept + [c]) + [], bound)
  {
    LastBound(dispatched + waiting, c, bound);
    IncreasingPart(dispatched, kept, waiting, c);
    assert c < bound by {
      assert (dispatched + waiting + [c])[|dispatched + waiting|] == c;
    }
    AppendLast(dispatched + kept, c, bound);
    assert dispatched + (kept + [c]) + [] == (dispatched + kept) + [c];
  }

  lemma RefuseInOrder(dispatched: seq<Conn>, waiting: seq<Conn>, c: Conn, bound: int)
    requires Increasing(dispatched + waiting + [c], bound)
    ensures Increasing(dispatched + waiting + [], bound)
  {
    var all := dispatched + waiting;
    assert all + [] == all;
    LastBound(all, c, bound);
    assert (all + [c])[|all|] == c;
  }

  lemma SubmitInOrder(cfg: Config, s: Sys, s': Sys, rand: seq<nat>)
    requires InOrder(cfg, s) && Submit(cfg, s, s', rand)
    ensures InOrder(cfg, s')
  {
    hide Decide, Subsequence, Increasing, Woken;
    var c := s.main.c;
    DecideAdmits(cfg.policy, cfg.q, s.waiting, s.running, c, rand);
    match Decide(cfg.policy, cfg.q, s.waiting, s.running, c, rand)
    case Sleep =>
    case Refuse =>
      RefuseInOrder(s.dispatched, s.waiting, c, s.accepted);
    case Admit(w, d, cl) =>
      var kept :| Subsequence(kept, s.waiting) && w == kept + [c];
      AdmitInOrder(s.dispatched, s.waiting, c, kept, s.accepted);
      assert cfg.policy == Block ==> s.dispatched + w + [] == s.dispatched + s.waiting + [c];
  }

  lemma SubmitCounted(cfg: Config, s: Sys, s': Sys, rand: seq<nat>)
    requires Counted(cfg, s) && Submit(cfg, s, s', rand)
    ensures Counted(cfg, s')
  {
    DecideAdmits(cfg.policy, cfg.q, s.waiting, s.running, s.main.c, rand);
    CountBounds(s.workers, IS_BUSY, 1);
    if s'.workers != s.workers {
      WakeBlind(s.workers, s'.workers, IS_BUSY);
    }
  }

  lemma SubmitAwake(cfg: Config, s: Sys, s': Sys, rand: seq<nat>)
    requires Awake(cfg, s) && Submit(cfg, s, s', rand)
    ensures Awake(cfg, s')
  {
    DecideAdmits(cfg.policy, cfg.q, s.waiting, s.running, s.main.c, rand);
    if Decide(cfg.policy, cfg.q, s.waiting, s.running, s.main.c, rand).Admit? && SomeAsleep(s'.workers) {
      var k :| 0 <= k < |s'.workers| && s'.workers[k] == Asleep;
      assert s.workers[k] == Asleep;
      WakeOne(s.workers, s'.workers);
    }
  }

  lemma SubmitConserved(cfg: Config, s: Sys, s': Sys, rand: seq<nat>)
    requires Conserved(cfg, s) && Dispatched(s) && Submit(cfg, s, s', rand)
    ensures Conserved(cfg, s') && Dispatched(s')
  {
    hide Submit, Count, Places;
    SubmitRest(cfg, s, s', rand);
    forall c: Conn
      ensures Places(s', c) == if 0 <= c < s'.accepted then 1 else 0
      ensures s'.closed[c] == s'.completed[c] + s'.dropped[c]
      ensures multiset(s'.dispatched)[c] == Count(s'.workers, Handles(c)) + s'.completed[c]
    {
      assert s.closed[c] == s.completed[c] + s.dropped[c];
      SubmitPlaces(cfg, s, s', rand, c);
    }
  }

  lemma SubmitRest(cfg: Config, s: Sys, s': Sys, rand: seq<nat>)
    requires Submit(cfg, s, s', rand)
    ensures s'.accepted == s.accepted && s'.completed == s.completed && s'.dispatched == s.dispatched
    ensures s'.discarded != s.discarded ==> cfg.policy == DropHead
  {
    hide Decide, Subsequence, Woken;
    DecideAdmits(cfg.policy, cfg.q, s.waiting, s.running, s.main.c, rand);
  }

  lemma SubmitPlaces(cfg: Config, s: Sys, s': Sys, rand: seq<nat>, c: Conn)
    requires Submit(cfg, s, s', rand)
    ensures Places(s', c) == Places(s, c)
    ensures Count(s'.workers, Handles(c)) == Count(s.workers, Handles(c))
    ensures s'.closed[c] - s.closed[c] == s'.dropped[c] - s.dropped[c]
  {
    hide Decide, Count, Subsequence;
    if Decide(cfg.policy, cfg.q, s.waiting, s.running, s.main.c, rand).Admit? {
      WakeBlind(s.workers, s'.workers, Handles(c));
      AdmitPlaces(cfg, s, s', rand, c);
    }
  }

  /** An admission moves connections from place to place. */
  lemma AdmitPlaces(cfg: Config, s: Sys, s': Sys, rand: seq<nat>, c: Conn)
    requires Submit(cfg, s, s', rand) && Decide(cfg.policy, cfg.q, s.waiting, s.running, s.main.c, rand).Admit?
    requires Count(s'.workers, Handles(c)) == Count(s.workers, Handles(c))
    ensures Places(s', c) == Places(s, c) && s'.closed[c] - s.closed[c] == s'.dropped[c] - s.dropped[c]
  {
    hide Decide, Count, Subsequence, Woken;
    DecideAdmits(cfg.policy, cfg.q, s.waiting, s.running, s.main.c, rand);
    var dec := Decide(cfg.policy, cfg.q, s.waiting, s.running, s.main.c, rand);
    var moved := multiset(dec.waiting) + multiset(dec.discarded) + multiset(dec.closed);
    assert moved[c] == multiset(s.waiting)[c] + multiset{s.main.c}[c];
  }

  lemma StepKeeps(cfg: Config, s: Sys, s': Sys)
    requires Inv(cfg, s) && Step(cfg, s, s')
    ensures Inv(cfg, s')
  {
    hide Counted, Awake, Conserved, InOrder, Dispatched, Take, Serve, Done, Submit;
    if i :| Take(cfg, s, s', i) {
      WorkerIndex(cfg, s, s', i);
      TakeCounted(cfg, s, s', i);
      TakeAwake(cfg, s, s', i);
      TakeConserved(cfg, s, s', i);
      TakeInOrder(cfg, s, s', i);
    } else if i :| Serve(s, s', i) {
      WorkerIndex(cfg, s, s', i);
      ServeKeeps(cfg, s, s', i);
    } else if i :| Done(cfg, s, s', i) {
      WorkerIndex(cfg, s, s', i);
      DoneKeeps(cfg, s, s', i);
    } else if rand :| Submit(cfg, s, s', rand) {
      SubmitCounted(cfg, s, s', rand);
      SubmitAwake(cfg, s, s', rand);
      SubmitConserved(cfg, s, s', rand);
      SubmitInOrder(cfg, s, s', rand);
    } else if Accept(s, s') {
      AcceptKeeps(cfg, s, s');
    } else if s.main.Waiting? && s' == s.(main := Holding(s.main.c)) {
      MainWakesKeeps(cfg, s, s');
    } else {
      var i :| 0 <= i < |s.workers| && s.workers[i] == Asleep && s' == s.(workers := s.workers[i := Ready]);
      WorkerWakesKeeps(cfg, s, s', i);
    }
  }

  lemma WorkerIndex(cfg: Config, s: Sys, s': Sys, i: int)
    requires Take(cfg, s, s', i) || Serve(s, s', i) || Done(cfg, s, s', i)
    ensures 0 <= i < |s.workers|
  {
  }

  lemma InitHolds(cfg: Config, s: Sys)
    requires Init(cfg, s)
    ensures Inv(cfg, s)
  {
    AllReady(s.workers, IS_BUSY);
    AllReady(s.workers, IS_READY);
    forall c: Conn
      ensures Count(s.workers, Handles(c)) == 0
    {
      AllReady(s.workers, Handles(c));
    }
  }

  lemma {:induction false} AllReady(ws: seq<Worker>, weight: Worker -> int)
    requires forall i :: 0 <= i < |ws| ==> ws[i] == Ready
    ensures Count(ws, weight) == weight(Ready) * |ws|
  {
    if ws != [] {
      AllReady(ws[1..], weight);
    }
  }

  lemma {:induction false} RunsKeep(cfg: Config, t: seq<Sys>, k: nat)
    requires Run(cfg, t) && k < |t|
    ensures Inv(cfg, t[k])
  {
    if k == 0 {
      InitHolds(cfg, t[0]);
    } else {
      RunsKeep(cfg, t, k - 1);
      assert Step(cfg, t[k - 1], t[k - 1 + 1]);
      StepKeeps(cfg, t[k - 1], t[k]);
    }
  }
}
