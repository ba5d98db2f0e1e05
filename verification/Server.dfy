/** The overload policies of the web server and its critical sections over the shared queue. */
module Server {
  import opened Basics
  import opened RequestQueue

  datatype Policy = Block | DropTail | DropHead | Random

  // ----- rounding

  /** Conversion of a double to int: truncation towards zero. */
  function Trunc(x: real): int {
    if x >= 0.0 then x.Floor else -((-x).Floor)
  }

  function Ceil(x: real): int {
    -((-x).Floor)
  }

  function OurCeil(num: real): int {
    if num == Trunc(num) as real then Trunc(num) else Trunc(num) + 1
  }

  /** our_ceil is the ceiling exactly on whole and on non-negative numbers. */
  lemma OurCeilIsCeil(x: real)
    ensures OurCeil(x) == Ceil(x) <==> x >= 0.0 || x == x.Floor as real
  {
    assert x.Floor as real <= x < x.Floor as real + 1.0;
    assert (-x).Floor as real <= -x < (-x).Floor as real + 1.0;
  }

  /** How many waiting connections the random policy drops out of `w`. */
  function Quota(w: nat): int {
    OurCeil(w as real / 4.0)
  }

  lemma QuotaIsQuarter(w: nat)
    ensures Quota(w) == (w + 3) / 4 && w - Quota(w) == 3 * w / 4
    ensures 0 < w ==> 0 < Quota(w) <= w
  {
    var k := w / 4;
    assert w == 4 * k + w % 4;
    assert (w as real / 4.0).Floor == k by {
      assert k as real <= w as real / 4.0 < k as real + 1.0;
    }
  }

  // ----- dropping at random

  /** What is left of `w` when each pick, taken modulo the number left, removes one. */
  function Spared<T>(w: seq<T>, picks: seq<nat>): (rest: seq<T>)
    requires |picks| <= |w|
  {
    if picks == [] then w else Spared(RemoveAt(w, picks[0] % |w|), picks[1..])
  }

  /** What goes, in the order of the picks. */
  function Dropped<T>(w: seq<T>, picks: seq<nat>): (gone: seq<T>)
    requires |picks| <= |w|
  {
    if picks == [] then [] else [w[picks[0] % |w|]] + Dropped(RemoveAt(w, picks[0] % |w|), picks[1..])
  }

  /** `s` is what is left of `t` when some elements are removed. */
  ghost predicate Subsequence<T>(s: seq<T>, t: seq<T>) {
    if s == [] then true
    else t != [] && ((s[0] == t[0] && Subsequence(s[1..], t[1..])) || Subsequence(s, t[1..]))
  }

  lemma {:induction false} SubsequenceSelf<T>(s: seq<T>)
    ensures Subsequence(s, s)
  {
    if s != [] {
      SubsequenceSelf(s[1..]);
    }
  }

  lemma {:induction false} SubsequenceRemove<T>(s: seq<T>, t: seq<T>, k: nat)
    requires k < |t| && Subsequence(s, RemoveAt(t, k))
    ensures Subsequence(s, t)
    decreases |t|
  {
    if s == [] {
    } else if k == 0 {
      assert RemoveAt(t, 0) == t[1..];
    } else {
      assert RemoveAt(t, k)[1..] == RemoveAt(t[1..], k - 1);
      if s[0] == t[0] && Subsequence(s[1..], RemoveAt(t, k)[1..]) {
        SubsequenceRemove(s[1..], t[1..], k - 1);
      } else {
        SubsequenceRemove(s, t[1..], k - 1);
      }
    }
  }

  lemma MultisetRemove<T>(w: seq<T>, k: nat)
    requires k < |w|
    ensures multiset(w) == multiset(RemoveAt(w, k)) + multiset{w[k]}
  {
    assert w == w[..k] + [w[k]] + w[k + 1..];
  }

  /** As many elements go as there are picks; the others stay, in order. */
  lemma {:induction false} DropSplits<T>(w: seq<T>, picks: seq<nat>)
    requires |picks| <= |w|
    ensures |Spared(w, picks)| == |w| - |picks| && |Dropped(w, picks)| == |picks|
    ensures multiset(Spared(w, picks)) + multiset(Dropped(w, picks)) == multiset(w)
    ensures Subsequence(Spared(w, picks), w)
  {
    if picks == [] {
      SubsequenceSelf(w);
    } else {
      var k := picks[0] % |w|;
      DropSplits(RemoveAt(w, k), picks[1..]);
      SubsequenceRemove(Spared(w, picks), w, k);
      MultisetRemove(w, k);
      assert multiset(Dropped(w, picks)) == multiset{w[k]} + multiset(Dropped(RemoveAt(w, k), picks[1..]));
    }
  }

  lemma NoPicks<T>(w: seq<T>)
    ensures Spared(w, []) == w && Dropped(w, []) == []
  {
  }

  lemma FirstPick<T>(w: seq<T>, picks: seq<nat>)
    requires 0 < |picks| <= |w|
    ensures Spared(w, picks) == Spared(RemoveAt(w, picks[0] % |w|), picks[1..])
    ensures Dropped(w, picks) == [w[picks[0] % |w|]] + Dropped(RemoveAt(w, picks[0] % |w|), picks[1..])
  {
  }

  // ----- deciding about a new connection

  datatype Decision<T> = Sleep | Refuse | Admit(waiting: seq<T>, discarded: seq<T>, closed: seq<T>)

  predicate Full(q: int, waiting: int, running: int) {
    waiting + running >= q
  }

  /** The number of rand() calls that the decision makes. */
  function Picks(policy: Policy, q: int, waiting: nat, running: int): int {
    if Full(q, waiting, running) && policy == Random && waiting > 0 then Quota(waiting) else 0
  }

  /** What main does with the connection `c` it holds: wait, refuse and close it, or admit it,
    * having discarded some waiting connections without and closed some others. */
  function Decide<T>(policy: Policy, q: int, waiting: seq<T>, running: int, c: T, picks: seq<nat>): Decision<T>
    requires |picks| == Picks(policy, q, |waiting|, running)
  {
    if !Full(q, |waiting|, running) then Admit(waiting + [c], [], [])
    else
      match policy
      case Block => Sleep
      case DropTail => Refuse
      case DropHead => if waiting == [] then Refuse else Admit(waiting[1..] + [c], [waiting[0]], [])
      case Random =>
        if waiting == [] then Refuse
        else
          QuotaIsQuarter(|waiting|);
          Admit(Spared(waiting, picks) + [c], [], Dropped(waiting, picks))
  }

  /** The random policy can drop any selection of the right number: whichever connections are to stay, in order, some
    * random numbers leave just those. */
  lemma {:induction false} AnyCanStay<T>(w: seq<T>, kept: seq<T>) returns (picks: seq<nat>)
    requires Subsequence(kept, w)
    ensures |picks| + |kept| == |w| && Spared(w, picks) == kept
    decreases |w|
  {
    hide Spared, Dropped, Subsequence, RemoveAt;
    SubsequenceShorter(kept, w);
    if |kept| == |w| {
      SubsequenceWhole(kept, w);
      NoPicks(w);
      picks := [];
    } else {
      var k := SomeGoes(kept, w);
      var rest := AnyCanStay(RemoveAt(w, k), kept);
      picks := [k] + rest;
      assert picks[0] == k && picks[1..] == rest;
      assert k % |w| == k;
      FirstPick(w, picks);
    }
  }

  lemma {:induction false} SubsequenceShorter<T>(s: seq<T>, t: seq<T>)
    requires Subsequence(s, t)
    ensures |s| <= |t|
    decreases |t|
  {
    if s != [] {
      if s[0] == t[0] && Subsequence(s[1..], t[1..]) {
        SubsequenceShorter(s[1..], t[1..]);
      } else {
        SubsequenceShorter(s, t[1..]);
      }
    }
  }

  lemma {:induction false} SubsequenceWhole<T>(s: seq<T>, t: seq<T>)
    requires Subsequence(s, t) && |s| == |t|
    ensures s == t
    decreases |t|
  {
    if s != [] {
      if s[0] == t[0] && Subsequence(s[1..], t[1..]) {
        SubsequenceWhole(s[1..], t[1..]);
      } else {
        SubsequenceShorter(s, t[1..]);
      }
    }
  }

  /** What is shorter misses some element. */
  lemma {:induction false} SomeGoes<T>(s: seq<T>, t: seq<T>) returns (k: nat)
    requires Subsequence(s, t) && |s| < |t|
    ensures k < |t| && Subsequence(s, RemoveAt(t, k))
    decreases |t|
  {
    hide RemoveAt;
    if s == [] || Subsequence(s, t[1..]) {
      k := 0;
      RemoveFirst(t);
    } else {
      k := SomeGoes(s[1..], t[1..]);
      RemoveLater(t, k);
      k := k + 1;
    }
  }

  lemma RemoveFirst<T>(t: seq<T>)
    requires t != []
    ensures RemoveAt(t, 0) == t[1..]
  {
  }

  lemma RemoveLater<T>(t: seq<T>, k: nat)
    requires k + 1 < |t|
    ensures RemoveAt(t, k + 1)[0] == t[0] && RemoveAt(t, k + 1)[1..] == RemoveAt(t[1..], k)
  {
  }

  // ----- the critical sections

  datatype Outcome = Slept | Refused | Admitted

  /** What each policy is for. Main holds connection `c` while `w` are waiting and `running` workers are busy; `w'` are
    * waiting afterwards. With room for it the connection is admitted and no other one is touched. */
  ghost predicate Promised<T>(policy: Policy, q: int, w: seq<T>, running: int, c: T, outcome: Outcome, w': seq<T>,
                              discarded: seq<T>, closed: seq<T>) {
    if |w| + running < q then outcome == Admitted && w' == w + [c] && discarded == closed == []
    else
      match policy
      case Block =>
        outcome == Slept && w' == w && discarded == closed == []
      case DropTail =>
        // The new connection is closed.
        outcome == Refused && w' == w && discarded == [] && closed == [c]
      case DropHead =>
        // The oldest waiting connection makes place for the new one.
        if w == [] then outcome == Refused && w' == [] && discarded == [] && closed == [c]
        else outcome == Admitted && w' == w[1..] + [c] && discarded == [w[0]] && closed == []
      case Random =>
        // A quarter of the waiting connections, rounded up, make place for the new one.
        if w == [] then outcome == Refused && w' == [] && discarded == [] && closed == [c]
        else
          && outcome == Admitted && discarded == [] && |closed| == (|w| + 3) / 4
          && w' != [] && w'[|w'| - 1] == c && Subsequence(w'[..|w'| - 1], w)
          && multiset(w'[..|w'| - 1]) + multiset(closed) == multiset(w)
  }

  lemma DecisionPromised<T>(policy: Policy, q: int, w: seq<T>, running: int, c: T, picks: seq<nat>)
    requires |picks| == Picks(policy, q, |w|, running)
    ensures match Decide(policy, q, w, running, c, picks)
            case Sleep => Promised(policy, q, w, running, c, Slept, w, [], [])
            case Refuse => Promised(policy, q, w, running, c, Refused, w, [], [c])
            case Admit(w', d, cl) => Promised(policy, q, w, running, c, Admitted, w', d, cl)
  {
    hide Spared, Dropped, Subsequence;
    QuotaIsQuarter(|w|);
    if Full(q, |w|, running) && policy == Random && w != [] {
      DropSplits(w, picks);
      var kept := Spared(w, picks);
      assert (kept + [c])[..|kept|] == kept;
    }
  }

  class Monitor {
    const queue: Queue
    const queueSize: int
    var running: int   // running_threads

    ghost function Repr(): set<object>
      reads this, queue
    {
      {this} + queue.Repr()
    }

    ghost predicate Valid()
      reads Repr()
    {
      this !in queue.Repr() && queue.Valid()
    }

    constructor (queueSize: int, now: int)
      ensures Valid() && fresh(Repr()) && queue.Fds() == [] && running == 0 && this.queueSize == queueSize
    {
      queue := new Queue(queueSize, now);
      this.queueSize := queueSize;
      running := 0;
    }

    /** A worker looks for a connection; with none waiting it goes to sleep, else it
      * takes the oldest. `signal` tells whether it signals buffer_full. */
    method Take(now: int) returns (node: QueueNode?, signal: bool)
      requires Valid()
      modifies Repr()
      ensures Valid() && Repr() <= old(Repr())
      ensures old(queue.Fds()) == [] ==> node == null && !signal && queue.Fds() == [] && running == old(running)
      ensures old(queue.Fds()) != [] ==>
                && node != null && node.fd == old(queue.Fds())[0] && queue.Fds() == old(queue.Fds())[1..]
                && running == old(running) + 1
                && signal == !Full(queueSize, |queue.Fds()|, running)
    {
      node, signal := null, false;
      if queue.waitingQueueSize > 0 {
        node := queue.Dequeue(now);
        running := running + 1;
        signal := queue.waitingQueueSize + running < queueSize;
      }
    }

    /** A worker has handled and closed its connection. */
    method Done() returns (signal: bool)
      requires Valid()
      modifies this`running
      ensures Valid() && running == old(running) - 1
      ensures signal == !Full(queueSize, |queue.Fds()|, running)
    {
      running := running - 1;
      signal := queue.waitingQueueSize + running < queueSize;
    }

    /** Main has accepted `fd`. `rand` supplies the random numbers; `discarded` are the
      * connections that leave the queue unclosed, `closed` those that are closed. */
    method Submit(fd: int, arrival: int, policy: Policy, rand: seq<nat>)
      returns (outcome: Outcome, discarded: seq<int>, closed: seq<int>)
      requires Valid() && |rand| == Picks(policy, queueSize, |queue.Fds()|, running)
      modifies Repr()
      ensures Valid() && fresh(Repr() - old(Repr())) && running == old(running)
      ensures match Decide(policy, queueSize, old(queue.Fds()), running, fd, rand)
              case Sleep => outcome == Slept && discarded == closed == [] && queue.Fds() == old(queue.Fds())
              case Refuse => outcome == Refused && discarded == [] && closed == [fd] && queue.Fds() == old(queue.Fds())
              case Admit(w, d, c) => outcome == Admitted && discarded == d && closed == c && queue.Fds() == w
      ensures Promised(policy, queueSize, old(queue.Fds()), running, fd, outcome, queue.Fds(), discarded, closed)
    {
      hide Spared, Dropped, Promised;
      DecisionPromised(policy, queueSize, queue.Fds(), running, fd, rand);
      discarded, closed := [], [];
      if queue.waitingQueueSize + running >= queueSize {
        if policy == Block {
          return Slept, [], [];
        }
        if policy == DropTail {
          return Refused, [], [fd];
        } else if policy == DropHead {
          if queue.waitingQueueSize > 0 {
            var node := queue.Dequeue(arrival);
            discarded := [node.fd];
          } else {
            return Refused, [], [fd];
          }
        } else {
          if queue.waitingQueueSize <= 0 {
            return Refused, [], [fd];
          }
          closed := DropRandom(rand);
        }
      }
      queue.Enqueue(fd, arrival);
      outcome := Admitted;
    }

    /** Drop a quarter of the waiting connections, rounded up, at random. */
    method DropRandom(rand: seq<nat>) returns (closed: seq<int>)
      requires Valid() && queue.Fds() != [] && |rand| == Quota(|queue.Fds()|)
      modifies Repr()
      ensures Valid() && Repr() <= old(Repr()) && running == old(running)
      ensures |rand| <= |old(queue.Fds())|
      ensures queue.Fds() == Spared(old(queue.Fds()), rand) && closed == Dropped(old(queue.Fds()), rand)
    {
      hide Spared, Dropped;
      ghost var w := queue.Fds();
      QuotaIsQuarter(|w|);
      var size := OurCeil(queue.waitingQueueSize as real / 4.0);
      closed := [];
      assert rand[0..] == rand;
      for i := 0 to size
        invariant Valid() && Repr() <= old(Repr()) && running == old(running)
        invariant |rand[i..]| <= |queue.Fds()|
        invariant Spared(w, rand) == Spared(queue.Fds(), rand[i..])
        invariant Dropped(w, rand) == closed + Dropped(queue.Fds(), rand[i..])
      {
        var index := rand[i] % queue.waitingQueueSize;
        assert rand[i..][0] == rand[i] && rand[i..][1..] == rand[i + 1..];
        FirstPick(queue.Fds(), rand[i..]);
        var fd := queue.RandomDrop(index);
        closed := closed + [fd];
      }
      NoPicks(queue.Fds());
    }
  }
}
