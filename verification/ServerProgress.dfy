/** What every run of the server keeps, and that it gets its work done. */
module ServerProgress {
  import opened Server
  import opened ServerRuns

  // ----- safety over all runs

  /** The queue never exceeds its bound, counting the connections in the
    * hands of workers, and the counter of those is right. */
  lemma WithinBounds(cfg: Config, t: seq<Sys>, k: nat)
    requires Run(cfg, t) && k < |t|
    ensures |t[k].waiting| + t[k].running <= Capacity(cfg.q)
    ensures t[k].running == BusyCount(t[k].workers) && 0 <= t[k].running <= cfg.n
  {
    RunsKeep(cfg, t, k);
    CountBounds(t[k].workers, IS_BUSY, 1);
  }

  datatype Place = WithMain | InQueue | InHand | IsCompleted | IsDropped | IsDiscarded

  ghost predicate At(s: Sys, c: Conn, p: Place) {
    match p
    case WithMain => c in Held(s.main)
    case InQueue => c in s.waiting
    case InHand => exists i :: 0 <= i < |s.workers| && s.workers[i] == Serving(c)
    case IsCompleted => c in s.completed
    case IsDropped => c in s.dropped
    case IsDiscarded => c in s.discarded
  }

  lemma {:induction false} CountPositive(ws: seq<Worker>, c: Conn)
    ensures 0 < Count(ws, Handles(c)) <==> exists i :: 0 <= i < |ws| && ws[i] == Serving(c)
    ensures 0 <= Count(ws, Handles(c))
  {
    if ws != [] {
      CountPositive(ws[1..], c);
      if 0 < Count(ws[1..], Handles(c)) {
        var i :| 0 <= i < |ws[1..]| && ws[1..][i] == Serving(c);
        assert ws[i + 1] == Serving(c);
      }
      if i :| 0 <= i < |ws| && ws[i] == Serving(c) {
        assert i > 0 ==> ws[1..][i - 1] == Serving(c);
      }
    }
  }

  ghost function Amount(s: Sys, c: Conn, p: Place): int {
    match p
    case WithMain => multiset(Held(s.main))[c]
    case InQueue => multiset(s.waiting)[c]
    case InHand => Count(s.workers, Handles(c))
    case IsCompleted => s.completed[c]
    case IsDropped => s.dropped[c]
    case IsDiscarded => s.discarded[c]
  }

  lemma AmountIsPlace(s: Sys, c: Conn, p: Place)
    ensures 0 <= Amount(s, c, p) && (At(s, c, p) <==> 0 < Amount(s, c, p))
  {
    CountPositive(s.workers, c);
  }

  /** At every moment of every run an accepted connection is in exactly one place, one not yet
    * accepted in none; a connection has been closed once if it is completed or dropped and
    * never otherwise; only the drop-head policy discards without closing. */
  lemma ExactlyOnePlace(cfg: Config, t: seq<Sys>, k: nat, c: Conn)
    requires Run(cfg, t) && k < |t|
    ensures 0 <= c < t[k].accepted ==> exists p :: At(t[k], c, p) && forall p' :: At(t[k], c, p') ==> p' == p
    ensures !(0 <= c < t[k].accepted) ==> forall p :: !At(t[k], c, p)
    ensures t[k].closed[c] == if At(t[k], c, IsCompleted) || At(t[k], c, IsDropped) then 1 else 0
    ensures At(t[k], c, IsDiscarded) ==> cfg.policy == DropHead
  {
    var s := t[k];
    RunsKeep(cfg, t, k);
    forall p ensures 0 <= Amount(s, c, p) && (At(s, c, p) <==> 0 < Amount(s, c, p)) { AmountIsPlace(s, c, p); }
    assert Places(s, c) == Amount(s, c, WithMain) + Amount(s, c, InQueue) + Amount(s, c, InHand)
                           + Amount(s, c, IsCompleted) + Amount(s, c, IsDropped) + Amount(s, c, IsDiscarded);
    assert Places(s, c) == if 0 <= c < s.accepted then 1 else 0;
    assert s.closed[c] == Amount(s, c, IsCompleted) + Amount(s, c, IsDropped);
    if 0 <= c < s.accepted {
      OneOfSix(s, c);
    }
  }

  lemma OneOfSix(s: Sys, c: Conn)
    requires forall p :: 0 <= Amount(s, c, p) && (At(s, c, p) <==> 0 < Amount(s, c, p))
    requires Amount(s, c, WithMain) + Amount(s, c, InQueue) + Amount(s, c, InHand)
             + Amount(s, c, IsCompleted) + Amount(s, c, IsDropped) + Amount(s, c, IsDiscarded) == 1
    ensures exists p :: At(s, c, p) && forall p' :: At(s, c, p') ==> p' == p
  {
    hide Amount, At;
    if p :| 0 < Amount(s, c, p) {
      assert At(s, c, p);
      forall p' | At(s, c, p')
        ensures p' == p
      {
        assert 0 < Amount(s, c, p');
      }
    }
  }

  /** Dispatch respects arrival: what has been dispatched, what is waiting and what main holds are in
    * order of arrival; under the blocking policy they are all the accepted connections. */
  lemma DispatchedInOrder(cfg: Config, t: seq<Sys>, k: nat)
    requires Run(cfg, t) && k < |t|
    ensures Increasing(t[k].dispatched + t[k].waiting + Held(t[k].main), t[k].accepted)
    ensures cfg.policy == Block ==> t[k].dispatched + t[k].waiting + Held(t[k].main) == UpTo(t[k].accepted)
  {
    RunsKeep(cfg, t, k);
  }

  // ----- what the policies do to connections that have waited

  /** Main neither holds `c` nor has closed it, and will not accept it again. */
  ghost predicate PastMain(s: Sys, c: Conn) {
    0 <= c < s.accepted && c !in Held(s.main) && c !in s.dropped
  }

  lemma WaitingIsPastMain(cfg: Config, s: Sys, c: Conn)
    requires Inv(cfg, s) && c in s.waiting
    ensures PastMain(s, c)
  {
    hide Counted, Awake, InOrder, Dispatched;
    assert Places(s, c) == if 0 <= c < s.accepted then 1 else 0;
    CountPositive(s.workers, c);
  }

  /** Only the random policy closes connections that main does not hold. */
  lemma StaysPastMain(cfg: Config, s: Sys, s': Sys, c: Conn)
    requires Step(cfg, s, s') && PastMain(s, c) && cfg.policy != Random
    ensures PastMain(s', c)
  {
    hide Woken, Decide, Promised;
    if rand :| Submit(cfg, s, s', rand) {
      DecisionPromised(cfg.policy, cfg.q, s.waiting, s.running, s.main.c, rand);
      ClosesOwn(cfg, s.waiting, s.running, s.main.c, rand);
    }
  }

  lemma ClosesOwn(cfg: Config, waiting: seq<Conn>, running: int, c: Conn, rand: seq<nat>)
    requires |rand| == Picks(cfg.policy, cfg.q, |waiting|, running) && cfg.policy != Random
    ensures var d := Decide(cfg.policy, cfg.q, waiting, running, c, rand);
      d.Admit? ==> d.closed == []
  {
    hide Decide;
    DecisionPromised(cfg.policy, cfg.q, waiting, running, c, rand);
  }

  /** In every run a connection that has waited once is never closed by main afterwards, except by the random policy,
    * and
    * never freed unclosed, except by the drop-head policy. So drop-tail and block hand each one to a worker or keep it
    * waiting. */
  lemma {:induction false} OnceWaiting(cfg: Config, t: seq<Sys>, k: nat, l: nat, c: Conn)
    requires Run(cfg, t) && k <= l < |t| && c in t[k].waiting
    ensures cfg.policy != Random ==> PastMain(t[l], c)
    ensures cfg.policy != DropHead ==> c !in t[l].discarded
    ensures cfg.policy in {Block, DropTail} ==>
              At(t[l], c, InQueue) || At(t[l], c, InHand) || At(t[l], c, IsCompleted)
    decreases l - k
  {
    hide Step, PastMain, Inv, Places;
    RunsKeep(cfg, t, k);
    ExactlyOnePlace(cfg, t, l, c);
    if k == l {
      WaitingIsPastMain(cfg, t[k], c);
    } else {
      OnceWaiting(cfg, t, k, l - 1, c);
      assert Step(cfg, t[l - 1], t[l - 1 + 1]);
      if cfg.policy != Random {
        StaysPastMain(cfg, t[l - 1], t[l], c);
      }
    }
    if cfg.policy in {Block, DropTail} {
      BehindMain(t[l], c);
    }
  }

  lemma BehindMain(s: Sys, c: Conn)
    requires PastMain(s, c) && !At(s, c, IsDiscarded) && (0 <= c < s.accepted ==> exists p :: At(s, c, p))
    ensures At(s, c, InQueue) || At(s, c, InHand) || At(s, c, IsCompleted)
  {
    var p :| At(s, c, p);
  }

  // ----- progress

  const EFFORT: Worker -> int :=
    (w: Worker) => match w case Asleep => 0 case Ready => 1 case Closing(_) => 3 case Serving(_) => 4

  /** An upper bound on the work left. */
  ghost function WorkLeft(cfg: Config, s: Sys): int {
    5 * |s.waiting| + Count(s.workers, EFFORT)
    + match s.main case Accepting => 0 case Waiting(_) => cfg.n + 5 case Holding(_) => cfg.n + 6
  }

  lemma {:induction false} WakeEffort(ws: seq<Worker>, ws': seq<Worker>)
    requires Waking(ws, ws')
    ensures Count(ws', EFFORT) <= Count(ws, EFFORT) + |ws|
  {
    if ws != [] {
      assert forall i :: 0 <= i < |ws[1..]| ==> ws[1..][i] == ws[i + 1] && ws'[1..][i] == ws'[i + 1];
      WakeEffort(ws[1..], ws'[1..]);
    }
  }

  lemma WorkerWorkDecreases(cfg: Config, s: Sys, s': Sys, i: int)
    requires Take(cfg, s, s', i) || Serve(s, s', i) || Done(cfg, s, s', i)
    ensures |s'.workers| == |s.workers| && WorkLeft(cfg, s') < WorkLeft(cfg, s)
  {
    CountUpdate(s.workers, EFFORT, i, s'.workers[i]);
  }

  lemma SubmitWorkDecreases(cfg: Config, s: Sys, s': Sys, rand: seq<nat>)
    requires |s.workers| == cfg.n && Submit(cfg, s, s', rand)
    ensures |s'.workers| == cfg.n && WorkLeft(cfg, s') < WorkLeft(cfg, s)
  {
    hide Decide, Count, Subsequence;
    DecideAdmits(cfg.policy, cfg.q, s.waiting, s.running, s.main.c, rand);
    if Decide(cfg.policy, cfg.q, s.waiting, s.running, s.main.c, rand).Admit? {
      WakeEffort(s.workers, s'.workers);
    }
  }

  /** Every step that needs neither a new connection nor a spurious wakeup leaves less work. */
  lemma WorkDecreases(cfg: Config, s: Sys, s': Sys)
    requires |s.workers| == cfg.n && Work(cfg, s, s')
    ensures |s'.workers| == cfg.n && 0 <= WorkLeft(cfg, s') < WorkLeft(cfg, s)
  {
    hide Take, Serve, Done, Submit, Count;
    CountBounds(s'.workers, EFFORT, 4);
    if rand :| Submit(cfg, s, s', rand) {
      SubmitWorkDecreases(cfg, s, s', rand);
    } else {
      var i :| Take(cfg, s, s', i) || Serve(s, s', i) || Done(cfg, s, s', i);
      WorkerWorkDecreases(cfg, s, s', i);
    }
  }

  /** So without new connections and spurious wakeups the server comes to rest. */
  lemma {:induction false} ComesToRest(cfg: Config, t: seq<Sys>, k: nat)
    requires k < |t| && |t[0].workers| == cfg.n
    requires forall j :: 0 <= j < |t| - 1 ==> Work(cfg, t[j], t[j + 1])
    ensures |t[k].workers| == cfg.n && WorkLeft(cfg, t[k]) <= WorkLeft(cfg, t[0]) - k
    ensures k <= WorkLeft(cfg, t[0])
  {
    hide Work, Count;
    CountBounds(t[k].workers, EFFORT, 4);
    if k > 0 {
      ComesToRest(cfg, t, k - 1);
      assert Work(cfg, t[k - 1], t[k - 1 + 1]);
      WorkDecreases(cfg, t[k - 1], t[k]);
    }
  }

  ghost predicate Stuck(cfg: Config, s: Sys) {
    forall s' :: !Work(cfg, s, s')
  }

  /** Nothing is waiting or in hand, main is ready to accept, and every accepted connection has been dealt with. */
  ghost predicate Settled(s: Sys) {
    && s.waiting == [] && s.running == 0 && s.main == Accepting
    && forall c: Conn {:trigger s.completed[c]} :: 0 <= c < s.accepted ==>
       s.completed[c] + s.dropped[c] + s.discarded[c] == 1
  }

  /** The configurations that serve: a worker, and room for a connection if main waits for it. */
  predicate CanServe(cfg: Config) {
    if cfg.policy == Block then cfg.q >= 1 && cfg.n >= 1 else cfg.n >= 1 || cfg.q <= 0
  }

  function AllAwake(ws: seq<Worker>): (ws': seq<Worker>)
    ensures |ws'| == |ws|
  {
    seq(|ws|, i requires 0 <= i < |ws| => if ws[i] == Asleep then Ready else ws[i])
  }

  /** Main with a connection can always decide. */
  lemma HoldingCanStep(cfg: Config, s: Sys)
    requires s.main.Holding?
    ensures exists s' :: Work(cfg, s, s')
  {
    QuotaIsQuarter(|s.waiting|);
    var rand: seq<nat> := seq(Picks(cfg.policy, cfg.q, |s.waiting|, s.running), _ => 0);
    var c := s.main.c;
    var s' := match Decide(cfg.policy, cfg.q, s.waiting, s.running, c, rand)
      case Sleep => s.(main := Waiting(c))
      case Refuse => s.(main := Accepting, dropped := s.dropped + multiset{c}, closed := s.closed + multiset{c})
      case Admit(w, d, cl) => s.(main := Accepting, waiting := w, workers := AllAwake(s.workers),
                                 discarded := s.discarded + multiset(d), dropped := s.dropped + multiset(cl),
                                   closed := s.closed + multiset(cl));
    AwakeIsWoken(s.workers);
    assert Submit(cfg, s, s', rand);
    assert Work(cfg, s, s');
  }

  lemma AwakeIsWoken(ws: seq<Worker>)
    ensures Woken(ws, AllAwake(ws))
  {
    if SomeAsleep(ws) {
      var i :| 0 <= i < |ws| && ws[i] == Asleep;
      assert AllAwake(ws)[i] == Ready;
    }
  }

  /** A worker that is not asleep can step. */
  lemma WorkerCanStep(cfg: Config, s: Sys, i: nat)
    requires i < |s.workers| && s.workers[i] != Asleep
    ensures exists s' :: Take(cfg, s, s', i) || Serve(s, s', i) || Done(cfg, s, s', i)
  {
    match s.workers[i]
    case Ready =>
      var s' := if s.waiting == [] then s.(workers := s.workers[i := Asleep]) else
        s.(waiting := s.waiting[1..], running := s.running + 1, workers := s.workers[i := Serving(s.waiting[0])],
           dispatched := s.dispatched + [s.waiting[0]], main := Notified(s.main,
             !Full(cfg.q, |s.waiting| - 1, s.running + 1)));
      assert Take(cfg, s, s', i);
    case Serving(c) =>
      var s' := s.(workers := s.workers[i := Closing(c)], completed := s.completed + multiset{c},
          closed := s.closed + multiset{c});
      assert Serve(s, s', i);
    case Closing(c) =>
      var s' := s.(workers := s.workers[i := Ready], running := s.running - 1,
                   main := Notified(s.main, !Full(cfg.q, |s.waiting|, s.running - 1)));
      assert Done(cfg, s, s', i);
    case Asleep =>
  }

  lemma {:induction false} AllAsleep(ws: seq<Worker>, weight: Worker -> int)
    requires forall i :: 0 <= i < |ws| ==> ws[i] == Asleep
    ensures Count(ws, weight) == weight(Asleep) * |ws|
  {
    if ws != [] {
      AllAsleep(ws[1..], weight);
    }
  }

  /** With all workers asleep nothing is waiting, and main is not. */
  lemma AsleepMeansIdle(cfg: Config, s: Sys)
    requires Inv(cfg, s) && CanServe(cfg) && forall i :: 0 <= i < |s.workers| ==> s.workers[i] == Asleep
    ensures s.waiting == [] && s.running == 0 && !s.main.Waiting?
  {
    AllAsleep(s.workers, IS_READY);
    AllAsleep(s.workers, IS_BUSY);
    if cfg.n > 0 {
      assert s.workers[0] == Asleep;
    }
  }

  /** While main sleeps on the full queue, some worker can step. */
  lemma MainAsleepWorkerSteps(cfg: Config, t: seq<Sys>, k: nat)
    requires Run(cfg, t) && k < |t| && CanServe(cfg) && t[k].main.Waiting?
    ensures exists i, s' :: Take(cfg, t[k], s', i) || Serve(t[k], s', i) || Done(cfg, t[k], s', i)
  {
    var s := t[k];
    RunsKeep(cfg, t, k);
    if forall i :: 0 <= i < |s.workers| ==> s.workers[i] == Asleep {
      AsleepMeansIdle(cfg, s);
      assert false;
    } else {
      var i :| 0 <= i < |s.workers| && s.workers[i] != Asleep;
      WorkerCanStep(cfg, s, i);
    }
  }

  /** A server at rest has dealt with every connection it accepted. */
  lemma RestIsSettled(cfg: Config, s: Sys)
    requires Inv(cfg, s) && CanServe(cfg) && Stuck(cfg, s)
    ensures Settled(s)
  {
    if s.main.Holding? {
      HoldingCanStep(cfg, s);
    }
    forall i | 0 <= i < |s.workers|
      ensures s.workers[i] == Asleep
    {
      if s.workers[i] != Asleep {
        WorkerCanStep(cfg, s, i);
        var s' :| Take(cfg, s, s', i) || Serve(s, s', i) || Done(cfg, s, s', i);
        assert Work(cfg, s, s');
      }
    }
    AsleepMeansIdle(cfg, s);
    forall c: Conn | 0 <= c < s.accepted
      ensures s.completed[c] + s.dropped[c] + s.discarded[c] == 1
    {
      assert Places(s, c) == 1;
      AllAsleep(s.workers, Handles(c));
    }
  }

  // ----- the configurations that do not serve

  /** Whenever the server comes to rest it has dealt with every connection. */
  ghost predicate Serves(cfg: Config) {
    forall t: seq<Sys> {:trigger Run(cfg, t)} :: Run(cfg, t) && Stuck(cfg, t[|t| - 1]) ==> Settled(t[|t| - 1])
  }

  /** The first `k` of `n` workers are asleep. */
  function FirstAsleep(n: nat, k: nat): seq<Worker> {
    seq(n, i requires 0 <= i < n => if i < k then Asleep else Ready)
  }

  /** Main sleeps with the first connection, and `k` workers have found nothing to do. */
  function Blocked(cfg: Config, k: nat): Sys {
    Sys([], 0, FirstAsleep(cfg.n, k), Waiting(0), 1, [], multiset{}, multiset{}, multiset{}, multiset{})
  }

  lemma {:induction false} RunsIntoBlocked(cfg: Config, k: nat) returns (t: seq<Sys>)
    requires cfg.policy == Block && cfg.q <= 0 && k <= cfg.n
    ensures Run(cfg, t) && t[|t| - 1] == Blocked(cfg, k)
  {
    if k == 0 {
      var s := Blocked(cfg, 0);
      assert FirstAsleep(cfg.n, 0) == seq(cfg.n, _ => Ready);
      t := [s.(main := Accepting, accepted := 0), s.(main := Holding(0)), s];
      assert Submit(cfg, t[1], t[2], []);
      assert Work(cfg, t[1], t[2]);
    } else {
      var before := RunsIntoBlocked(cfg, k - 1);
      var s, s' := Blocked(cfg, k - 1), Blocked(cfg, k);
      assert s'.workers == s.workers[k - 1 := Asleep];
      assert Take(cfg, s, s', k - 1);
      assert Work(cfg, s, s');
      t := Extend(cfg, before, s');
    }
  }

  /** Without workers the first connection stays in the queue. */
  lemma RunsIntoUnserved(cfg: Config) returns (t: seq<Sys>)
    requires cfg.n == 0 && cfg.q >= 1
    ensures Run(cfg, t) && Stuck(cfg, t[|t| - 1]) && !Settled(t[|t| - 1])
  {
    var s := Sys([0], 0, [], Accepting, 1, [], multiset{}, multiset{}, multiset{}, multiset{});
    t := [s.(waiting := [], accepted := 0), s.(waiting := [], main := Holding(0)), s];
    assert t[0].workers == seq(cfg.n, _ => Ready);
    assert Submit(cfg, t[1], t[2], []);
    assert Work(cfg, t[1], t[2]);
  }

  /** The server always deals with every connection exactly when it can serve at all. */
  lemma ServesIffCanServe(cfg: Config)
    ensures Serves(cfg) <==> CanServe(cfg)
  {
    if CanServe(cfg) {
      forall t: seq<Sys> | Run(cfg, t) && Stuck(cfg, t[|t| - 1])
        ensures Settled(t[|t| - 1])
      {
        RunsKeep(cfg, t, |t| - 1);
        RestIsSettled(cfg, t[|t| - 1]);
      }
    } else if cfg.policy == Block && cfg.q <= 0 {
      var t := RunsIntoBlocked(cfg, cfg.n);
      assert Stuck(cfg, t[|t| - 1]);
    } else {
      var t := RunsIntoUnserved(cfg);
    }
  }

  // ----- connections left unclosed

  /** In every run each connection that has been dealt with has been closed once. */
  ghost predicate ClosesAll(cfg: Config) {
    forall t: seq<Sys>, k: nat, c: Conn {:trigger Run(cfg, t), t[k].closed[c]} :: Run(cfg, t) && k < |t| ==>
      t[k].completed[c] + t[k].dropped[c] + t[k].discarded[c] > 0 ==> t[k].closed[c] == 1
  }

  /** With no room in the queue nothing ever waits, and what does not wait is not discarded. */
  lemma {:induction false} NoRoomNoDiscards(cfg: Config, t: seq<Sys>, k: nat)
    requires Run(cfg, t) && k < |t| && cfg.q <= 0
    ensures t[k].discarded == multiset{}
  {
    hide Step, Inv;
    if k > 0 {
      NoRoomNoDiscards(cfg, t, k - 1);
      RunsKeep(cfg, t, k - 1);
      assert Step(cfg, t[k - 1], t[k - 1 + 1]);
      NoRoomStep(cfg, t[k - 1], t[k]);
    }
  }

  lemma NoRoomStep(cfg: Config, s: Sys, s': Sys)
    requires Inv(cfg, s) && Step(cfg, s, s') && cfg.q <= 0
    ensures s'.discarded == s.discarded
  {
    hide Conserved, InOrder, Dispatched, Awake, Woken;
    CountBounds(s.workers, IS_BUSY, 1);
    assert s.waiting == [];
    if rand :| Submit(cfg, s, s', rand) {
      assert Full(cfg.q, |s.waiting|, s.running);
    }
  }

  /** The first `k` connections are waiting. */
  function Filled(cfg: Config, k: nat): Sys {
    Sys(seq(k, i => i), 0, seq(cfg.n, _ => Ready), Accepting, k, [], multiset{}, multiset{}, multiset{}, multiset{})
  }

  lemma ReadyWoken(n: nat)
    ensures Woken(seq(n, _ => Ready), seq(n, _ => Ready))
  {
  }

  lemma {:induction false} RunsIntoFilled(cfg: Config, k: nat) returns (t: seq<Sys>)
    requires k <= cfg.q
    ensures Run(cfg, t) && t[|t| - 1] == Filled(cfg, k)
  {
    if k == 0 {
      assert seq(0, i => i) == [];
      t := [Filled(cfg, 0)];
    } else {
      var before := RunsIntoFilled(cfg, k - 1);
      var s := Filled(cfg, k - 1);
      var held := s.(main := Holding(k - 1), accepted := k);
      assert Accept(s, held);
      t := Extend(cfg, before, held);
      assert seq(k, i => i) == seq(k - 1, i => i) + [k - 1];
      ReadyWoken(cfg.n);
      assert Submit(cfg, held, Filled(cfg, k), []);
      assert Work(cfg, held, Filled(cfg, k));
      t := Extend(cfg, t, Filled(cfg, k));
    }
  }

  /** When the queue is full of waiting connections, the next one makes drop-head discard the oldest. */
  lemma RunsIntoDiscard(cfg: Config) returns (t: seq<Sys>)
    requires cfg.policy == DropHead && cfg.q >= 1
    ensures Run(cfg, t) && t[|t| - 1].discarded == multiset{0} && t[|t| - 1].closed == multiset{}
  {
    var before := RunsIntoFilled(cfg, cfg.q);
    var s := Filled(cfg, cfg.q);
    var held := s.(main := Holding(cfg.q), accepted := cfg.q + 1);
    assert Accept(s, held);
    t := Extend(cfg, before, held);
    var after := held.(main := Accepting, waiting := held.waiting[1..] + [cfg.q], discarded := multiset{0});
    ReadyWoken(cfg.n);
    assert multiset([0]) == multiset{0};
    assert Submit(cfg, held, after, []);
    assert Work(cfg, held, after);
    t := Extend(cfg, t, after);
  }

  lemma ClosedOnce(cfg: Config, s: Sys, c: Conn)
    requires Inv(cfg, s) && s.discarded == multiset{} && s.completed[c] + s.dropped[c] > 0
    ensures s.closed[c] == 1
  {
    assert Places(s, c) <= 1;
    CountPositive(s.workers, c);
  }

  /** Connections are left unclosed exactly under drop-head, and only if the queue has room at all. */
  lemma ClosesAllIff(cfg: Config)
    ensures ClosesAll(cfg) <==> cfg.policy != DropHead || cfg.q <= 0
  {
    hide Step, Inv;
    if cfg.policy != DropHead || cfg.q <= 0 {
      forall t: seq<Sys>, k: nat, c: Conn | Run(cfg, t) && k < |t|
                                            && t[k].completed[c] + t[k].dropped[c] + t[k].discarded[c] > 0
        ensures t[k].closed[c] == 1
      {
        RunsKeep(cfg, t, k);
        if cfg.q <= 0 {
          NoRoomNoDiscards(cfg, t, k);
        } else {
          OnlyDropHead(cfg, t[k]);
        }
        ClosedOnce(cfg, t[k], c);
      }
    } else {
      var t := RunsIntoDiscard(cfg);
      assert t[|t| - 1].discarded[0] == 1 && t[|t| - 1].closed[0] == 0;
    }
  }

  lemma OnlyDropHead(cfg: Config, s: Sys)
    requires Inv(cfg, s) && cfg.policy != DropHead
    ensures s.discarded == multiset{}
  {
  }
}
