/** The shell's list of jobs. */
module Jobs {
  import opened Basics

  class JobEntry {
    const jobId: int
    const pid: int
    const cmd: string
    var isStopped: bool

    constructor (jobId: int, pid: int, cmd: string, isStopped: bool)
      ensures this.jobId == jobId && this.pid == pid && this.cmd == cmd && this.isStopped == isStopped
    {
      this.jobId, this.pid, this.cmd, this.isStopped := jobId, pid, cmd, isStopped;
    }
  }

  /** The identifiers are positive and ascending. */
  ghost predicate Sorted(s: seq<JobEntry>) {
    && (forall i, j :: 0 <= i < j < |s| ==> s[i].jobId < s[j].jobId)
    && (forall i :: 0 <= i < |s| ==> s[i].jobId > 0)
  }

  ghost predicate Has(s: seq<JobEntry>, id: int) {
    exists i :: 0 <= i < |s| && s[i].jobId == id
  }

  function LastId(s: seq<JobEntry>): int {
    if s == [] then 0 else s[|s| - 1].jobId
  }

  /** The jobs of `s` that are not in `gone`, in order. */
  ghost function Survivors(s: seq<JobEntry>, gone: set<JobEntry>): seq<JobEntry> {
    if s == [] then [] else
      var e := s[|s| - 1];
      Survivors(s[..|s| - 1], gone) + if e in gone then [] else [e]
  }

  /** The first position of `s` with a greater identifier, else the end. */
  function Place(s: seq<JobEntry>, id: int): (k: nat)
    ensures k <= |s|
  {
    if s == [] || s[0].jobId > id then 0 else 1 + Place(s[1..], id)
  }

  class JobsList {
    var jobs: seq<JobEntry>
    var maxJobId: int

    /** The identifiers are positive and ascending, and maxJobId is the last of them, or 0. */
    ghost predicate Valid()
      reads this
    {
      Sorted(jobs) && maxJobId == LastId(jobs)
    }

    constructor ()
      ensures Valid() && jobs == []
    {
      jobs, maxJobId := [], 0;
    }

    /** A new job gets an identifier above all others. */
    method AddJob(cmd: string, pid: int, isStopped: bool) returns (entry: JobEntry)
      requires Valid()
      modifies this
      ensures Valid() && fresh(entry) && jobs == old(jobs) + [entry]
      ensures entry.cmd == cmd && entry.pid == pid && entry.isStopped == isStopped
      ensures entry.jobId == LastId(old(jobs)) + 1
    {
      maxJobId := maxJobId + 1;
      entry := new JobEntry(maxJobId, pid, cmd, isStopped);
      jobs := jobs + [entry];
    }

    /** A job comes back under its identifier.  It is lost exactly when it has the last identifier of the list. */
    method AddJobWithId(cmd: string, pid: int, jobId: int, isStopped: bool) returns (entry: JobEntry)
      requires Valid()
      modifies this
      ensures fresh(entry) && entry.jobId == jobId && entry.cmd == cmd && entry.pid == pid
              && entry.isStopped == isStopped
      ensures jobs == if Lost(old(jobs), jobId) then old(jobs) else InsertAt(old(jobs), Place(old(jobs), jobId), entry)
      ensures jobId > 0 && !Has(old(jobs), jobId) ==> Valid() && entry in jobs
    {
      hide Sorted, Place, Lost, LastId;
      entry := new JobEntry(jobId, pid, cmd, isStopped);
      if jobId > 0 && !Has(jobs, jobId) {
        InsertKeeps(jobs, entry);
      }
      if maxJobId < jobId {
        PlacedLast(jobs, jobId, entry);
        maxJobId := jobId;
        jobs := jobs + [entry];
      } else {
        ghost var at := |jobs|;
        for i := 0 to |jobs|
          invariant jobs == old(jobs) && maxJobId == old(maxJobId) && at == |jobs|
          invariant forall j :: 0 <= j < i ==> jobs[j].jobId <= jobId
        {
          if jobs[i].jobId > entry.jobId {
            jobs, at := jobs[..i] + [entry] + jobs[i..], i;
            break;
          }
        }
        PlacedAt(old(jobs), jobId, at);
      }
    }

    /** `finished` are the jobs whose process has ended when it is asked about. */
    method RemoveFinishedJobs(finished: set<JobEntry>)
      requires Valid()
      modifies this
      ensures Valid() && jobs == Survivors(old(jobs), finished)
    {
      hide Sorted, Survivors, RemoveAt, LastId;
      var i := 0;
      ghost var k, before, kept := 0, jobs, [];
      NoSurvivors(finished);
      while i < |jobs|
        invariant 0 <= i == |kept| && k <= |before| && Valid()
        invariant kept == Survivors(before[..k], finished)
        invariant jobs == kept + before[k..]
        decreases |before| - k
      {
        NextSurvivors(before, finished, k);
        RemoveMiddle(kept, before, k);
        if jobs[i] in finished {
          var id := jobs[i].jobId;
          RemoveKeeps(jobs, i);
          jobs := RemoveAt(jobs, i);
          i := i - 1;
          if id == maxJobId {
            if jobs != [] {
              maxJobId := jobs[i].jobId;
            } else {
              maxJobId := 0;
            }
          }
        } else {
          kept := kept + [jobs[i]];
        }
        i := i + 1;
        k := k + 1;
      }
      assert before[..k] == before;
    }

    /** The full scan for the greatest identifier. */
    method FindMaxJobId() returns (max: int)
      ensures max >= 0 && (forall e :: e in jobs ==> e.jobId <= max)
      ensures max > 0 ==> Has(jobs, max)
    {
      max := 0;
      for i := 0 to |jobs|
        invariant max >= 0 && forall j :: 0 <= j < i ==> jobs[j].jobId <= max
        invariant max > 0 ==> Has(jobs, max)
      {
        if jobs[i].jobId > max {
          max := jobs[i].jobId;
        }
      }
    }

    method RemoveJobById(jobId: int)
      requires Valid()
      modifies this
      ensures Valid() && !Has(jobs, jobId)
      ensures jobs == if Has(old(jobs), jobId) then RemoveAt(old(jobs), Place(old(jobs), jobId) - 1) else old(jobs)
    {
      hide Place;
      PlaceIs(jobs, jobId);
      for i := 0 to |jobs|
        invariant jobs == old(jobs) && maxJobId == old(maxJobId)
        invariant forall j :: 0 <= j < i ==> jobs[j].jobId != jobId
      {
        if jobs[i].jobId == jobId {
          RemoveKeeps(jobs, i);
          jobs := jobs[..i] + jobs[i + 1..];
          if jobs == [] {
            maxJobId := 0;
          } else if jobId == maxJobId {
            maxJobId := FindMaxJobId();
            MaxIsLast(jobs, maxJobId);
          }
          return;
        }
      }
    }

    method GetLastJob() returns (job: JobEntry?)
      requires Valid()
      ensures if jobs == [] then job == null else job == jobs[|jobs| - 1] && job.jobId == maxJobId
    {
      if jobs == [] {
        return null;
      }
      job := jobs[|jobs| - 1];
    }

    /** The stopped job with the greatest identifier. */
    method GetLastStoppedJob() returns (job: JobEntry?)
      requires Valid()
      ensures job == null <==> forall e :: e in jobs ==> !e.isStopped
      ensures job != null ==> job in jobs && job.isStopped && forall e :: e in jobs && e.isStopped ==>
              e.jobId <= job.jobId
    {
      for i := |jobs| downto 0
        invariant forall j :: i <= j < |jobs| ==> !jobs[j].isStopped
      {
        if jobs[i].isStopped {
          return jobs[i];
        }
      }
      job := null;
    }

    method GetJobById(jobId: int) returns (job: JobEntry?)
      requires Valid()
      ensures job == null <==> !Has(jobs, jobId)
      ensures job != null ==> job in jobs && job.jobId == jobId
    {
      if jobId <= 0 {
        return null;
      }
      for i := 0 to |jobs|
        invariant forall j :: 0 <= j < i ==> jobs[j].jobId != jobId
      {
        if jobs[i].jobId == jobId {
          return jobs[i];
        }
      }
      job := null;
    }
  }

  // ----- insertion and removal

  /** addJobWithId does not find a place for `id`. */
  ghost predicate Lost(s: seq<JobEntry>, id: int) {
    id <= LastId(s) && forall i :: 0 <= i < |s| ==> s[i].jobId <= id
  }

  /** Exactly the last identifier has no place, and in an empty list no identifier that is not positive. */
  lemma LostIff(s: seq<JobEntry>, id: int)
    requires Sorted(s)
    ensures Lost(s, id) <==> id == LastId(s) || (s == [] && id <= 0)
  {
  }

  lemma {:induction false} PlaceIs(s: seq<JobEntry>, id: int)
    requires Sorted(s)
    ensures forall i :: 0 <= i < |s| ==> (i < Place(s, id) <==> s[i].jobId <= id)
  {
    if s != [] && s[0].jobId <= id {
      PlaceIs(s[1..], id);
      assert forall i :: 1 <= i < |s| ==> s[i] == s[1..][i - 1];
    }
  }

  /** Where the loop over the list stops. */
  lemma PlacedAt(s: seq<JobEntry>, id: int, i: nat)
    requires Sorted(s) && i <= |s| && (forall j :: 0 <= j < i ==> s[j].jobId <= id)
    requires id <= LastId(s) && (i < |s| ==> s[i].jobId > id)
    ensures Place(s, id) == i && (Lost(s, id) <==> i == |s|)
  {
    hide Place;
    PlaceIs(s, id);
    var k := Place(s, id);
    assert k < |s| ==> s[k].jobId > id;
    assert i < |s| ==> !(i < k) && !Lost(s, id);
    assert i == |s| ==> Lost(s, id);
  }

  /** An identifier above the maximum belongs at the end. */
  lemma PlacedLast(s: seq<JobEntry>, id: int, e: JobEntry)
    requires Sorted(s) && LastId(s) < id
    ensures !Lost(s, id) && InsertAt(s, Place(s, id), e) == s + [e]
  {
    hide Place;
    PlaceIs(s, id);
    assert s != [] ==> s[|s| - 1].jobId <= id;
    assert s[..|s|] == s;
  }

  lemma InsertSorted(s: seq<JobEntry>, k: nat, e: JobEntry)
    requires Sorted(s) && k <= |s| && e.jobId > 0
    requires forall i :: 0 <= i < |s| ==> if i < k then s[i].jobId < e.jobId else e.jobId < s[i].jobId
    ensures Sorted(InsertAt(s, k, e))
    ensures LastId(InsertAt(s, k, e)) == if k == |s| then e.jobId else LastId(s)
  {
    var t := InsertAt(s, k, e);
    assert forall i :: 0 <= i < |t| ==> t[i] == if i < k then s[i] else if i == k then e else s[i - 1];
  }

  lemma InsertKeeps(s: seq<JobEntry>, e: JobEntry)
    requires Sorted(s) && e.jobId > 0 && !Has(s, e.jobId)
    ensures Sorted(InsertAt(s, Place(s, e.jobId), e)) && !Lost(s, e.jobId)
    ensures LastId(InsertAt(s, Place(s, e.jobId), e)) == if e.jobId > LastId(s) then e.jobId else LastId(s)
  {
    hide Place, InsertAt;
    PlaceIs(s, e.jobId);
    assert forall i :: 0 <= i < |s| ==> s[i].jobId != e.jobId;
    InsertSorted(s, Place(s, e.jobId), e);
    assert s != [] ==> s[|s| - 1].jobId == LastId(s);
  }

  /** The one-step update of the maximum agrees with a full scan. */
  lemma RemoveKeeps(s: seq<JobEntry>, k: nat)
    requires k < |s| && Sorted(s)
    ensures Sorted(RemoveAt(s, k)) && !Has(RemoveAt(s, k), s[k].jobId)
    ensures s[k].jobId == LastId(s) <==> k == |s| - 1
    ensures LastId(RemoveAt(s, k)) == if k < |s| - 1 then LastId(s) else if k > 0 then s[k - 1].jobId else 0
  {
  }

  lemma MaxIsLast(s: seq<JobEntry>, max: int)
    requires Sorted(s) && s != [] && max >= 0 && (forall e :: e in s ==> e.jobId <= max) && (max > 0 ==> Has(s, max))
    ensures max == LastId(s)
  {
    assert s[|s| - 1] in s;
  }

  lemma RemoveMiddle(a: seq<JobEntry>, s: seq<JobEntry>, k: nat)
    requires k < |s|
    ensures RemoveAt(a + s[k..], |a|) == a + s[k + 1..]
    ensures a + s[k..] == (a + [s[k]]) + s[k + 1..]
  {
  }

  lemma NoSurvivors(gone: set<JobEntry>)
    ensures Survivors([], gone) == []
  {
  }

  lemma NextSurvivors(s: seq<JobEntry>, gone: set<JobEntry>, k: nat)
    requires k < |s|
    ensures Survivors(s[..k + 1], gone) == Survivors(s[..k], gone) + if s[k] in gone then [] else [s[k]]
  {
    assert s[..k + 1][..k] == s[..k];
  }

  // ----- bringing a job to the foreground

  datatype FgArgs = NoArgument | JobId(id: int) | TooMany

  datatype FgOutcome = ListIsEmpty | NoSuchJob | InvalidArguments | Ended | StoppedAgain

  function Replaced(s: seq<JobEntry>, e: JobEntry, e': JobEntry): (t: seq<JobEntry>)
    ensures |t| == |s|
  {
    seq(|s|, i requires 0 <= i < |s| => if s[i] == e then e' else s[i])
  }

  /** The fg command. `stopped` tells whether the job stops again instead of ending; by then the
    * jobs in `finished` have ended. The job leaves the list; if it stops again it is back in
    * its place, under a new entry that differs only in being stopped. */
  method Foreground(list: JobsList, args: FgArgs, stopped: bool, finished: set<JobEntry>)
    returns (outcome: FgOutcome, job: JobEntry?, entry: JobEntry?)
    requires list.Valid()
    modifies list, list.jobs
    ensures list.Valid()
    ensures outcome == ListIsEmpty <==> args.NoArgument? && old(list.jobs) == []
    ensures outcome == NoSuchJob <==> args.JobId? && args.id != 0 && !Has(old(list.jobs), args.id)
    ensures outcome == InvalidArguments <==> args.TooMany? || (args.JobId? && args.id == 0)
    ensures outcome.Ended? || outcome.StoppedAgain? ==>
              && job != null && job in old(list.jobs) && (outcome.StoppedAgain? <==> stopped)
              && job.jobId == if args.JobId? then args.id else LastId(old(list.jobs))
    ensures outcome.Ended? ==> list.jobs == Survivors(old(list.jobs), {job})
    ensures outcome.StoppedAgain? ==>
              && entry != null && fresh(entry) && entry.isStopped
              && entry.jobId == job.jobId && entry.pid == job.pid && entry.cmd == job.cmd
              && list.jobs == Replaced(Survivors(old(list.jobs), finished - {job}), job, entry)
    ensures !outcome.Ended? && !outcome.StoppedAgain? ==> list.jobs == old(list.jobs)
    // Which jobs are on the list, and that no other job is stopped or continued.
    ensures outcome.Ended? ==> forall e :: e in list.jobs <==> e in old(list.jobs) && e != job
    ensures outcome.StoppedAgain? ==>
              forall e :: e in list.jobs <==> e == entry || (e in old(list.jobs) && e != job && e !in finished)
    ensures forall e :: e in old(list.jobs) && (e != job || outcome.ListIsEmpty? || outcome.NoSuchJob?) ==>
              e.isStopped == old(e.isStopped)
    ensures outcome.Ended? || outcome.StoppedAgain? ==> !job.isStopped
  {
    hide Sorted, Survivors, Place, Replaced, RemoveAt, InsertAt, LastId;
    job, entry := null, null;
    ghost var before := list.jobs;
    match args {
    case NoArgument =>
      job := list.GetLastJob();
      if job == null {
        return ListIsEmpty, null, null;
      }
    case JobId(id) =>
      if id == 0 {
        return InvalidArguments, null, null;
      }
      job := list.GetJobById(id);
      if job == null {
        return NoSuchJob, null, null;
      }
    case TooMany =>
      return InvalidArguments, null, null;
    }
    ghost var k :| 0 <= k < |before| && before[k] == job;
    PlaceOf(before, k);
    list.RemoveJobById(job.jobId);
    if job.isStopped {
      job.isStopped := false;
    }
    RemovedSurvives(before, k);
    if stopped {
      list.RemoveFinishedJobs(finished);
      BackInPlace(before, k, finished);
      entry := list.AddJobWithId(job.cmd, job.pid, job.jobId, true);
      InsertedIsReplaced(before, k, finished, entry);
      SurvivorsAre(before, finished - {job});
      ReplacedAre(Survivors(before, finished - {job}), job, entry);
      return StoppedAgain, job, entry;
    }
    SurvivorsAre(before, {job});
    outcome := Ended;
  }

  lemma ReplacedAre(s: seq<JobEntry>, e: JobEntry, e': JobEntry)
    requires e in s
    ensures forall x :: x in Replaced(s, e, e') <==> x == e' || (x in s && x != e)
  {
    var t := Replaced(s, e, e');
    assert forall i :: 0 <= i < |s| ==> t[i] == if s[i] == e then e' else s[i];
    forall x | x == e' || (x in s && x != e)
      ensures x in t
    {
      var i :| 0 <= i < |s| && s[i] == if x == e' && !(x in s && x != e) then e else x;
      assert t[i] == x;
    }
  }

  lemma PlaceOf(s: seq<JobEntry>, k: nat)
    requires k < |s| && Sorted(s)
    ensures Place(s, s[k].jobId) == k + 1 && Has(s, s[k].jobId)
  {
    hide Place;
    PlaceIs(s, s[k].jobId);
    assert s[k].jobId <= s[k].jobId && (k + 1 < |s| ==> s[k].jobId < s[k + 1].jobId);
  }

  lemma {:induction false} SurvivorsConcat(a: seq<JobEntry>, b: seq<JobEntry>, gone: set<JobEntry>)
    ensures Survivors(a + b, gone) == Survivors(a, gone) + Survivors(b, gone)
  {
    if b == [] {
      assert a + b == a;
    } else {
      assert (a + b)[..|a + b| - 1] == a + b[..|b| - 1];
      SurvivorsConcat(a, b[..|b| - 1], gone);
    }
  }

  /** The survivors are exactly the jobs that are not gone. */
  lemma {:induction false} SurvivorsAre(s: seq<JobEntry>, gone: set<JobEntry>)
    ensures forall e :: e in Survivors(s, gone) <==> e in s && e !in gone
    ensures forall i :: 0 <= i < |Survivors(s, gone)| ==> Survivors(s, gone)[i] in s
  {
    if s != [] {
      SurvivorsAre(s[..|s| - 1], gone);
      assert s == s[..|s| - 1] + [s[|s| - 1]];
    }
  }

  lemma {:induction false} SurvivorsSame(s: seq<JobEntry>, gone: set<JobEntry>, gone': set<JobEntry>)
    requires forall e :: e in s ==> (e in gone <==> e in gone')
    ensures Survivors(s, gone) == Survivors(s, gone')
  {
    if s != [] {
      SurvivorsSame(s[..|s| - 1], gone, gone');
    }
  }

  lemma {:induction false} SurvivorsAll(s: seq<JobEntry>)
    ensures Survivors(s, {}) == s
  {
    if s != [] {
      SurvivorsAll(s[..|s| - 1]);
    }
  }

  /** `s` around position `k`. */
  lemma Around(s: seq<JobEntry>, k: nat, gone: set<JobEntry>)
    requires k < |s| && Sorted(s)
    ensures Survivors(RemoveAt(s, k), gone) == Survivors(s[..k], gone) + Survivors(s[k + 1..], gone)
    ensures Survivors(s, gone - {s[k]}) == Survivors(s[..k], gone) + [s[k]] + Survivors(s[k + 1..], gone)
    ensures Survivors(s, gone + {s[k]}) == Survivors(s[..k], gone) + Survivors(s[k + 1..], gone)
  {
    hide Survivors;
    SurvivorsConcat(s[..k], s[k + 1..], gone);
    AroundOne(s, k, gone, gone - {s[k]});
    AroundOne(s, k, gone, gone + {s[k]});
  }

  lemma AroundOne(s: seq<JobEntry>, k: nat, gone: set<JobEntry>, gone': set<JobEntry>)
    requires k < |s| && Sorted(s) && forall e :: e != s[k] ==> (e in gone <==> e in gone')
    ensures Survivors(s, gone') == Survivors(s[..k], gone) + (if s[k] in gone' then [] else [s[k]])
            + Survivors(s[k + 1..], gone)
  {
    var a, e, b := s[..k], s[k], s[k + 1..];
    assert s == (a + [e]) + b;
    SurvivorsConcat(a + [e], b, gone');
    assert (a + [e])[..k] == a;
    assert forall x :: x in a || x in b ==> x != e;
    SurvivorsSame(a, gone, gone');
    SurvivorsSame(b, gone, gone');
  }

  lemma RemovedSurvives(s: seq<JobEntry>, k: nat)
    requires k < |s| && Sorted(s)
    ensures RemoveAt(s, k) == Survivors(s, {s[k]})
  {
    hide Survivors;
    Around(s, k, {});
    SurvivorsAll(s[..k]);
    SurvivorsAll(s[k + 1..]);
    assert {} + {s[k]} == {s[k]};
  }

  lemma SurvivorsWithin(part: seq<JobEntry>, gone: set<JobEntry>, lo: int, hi: int)
    requires forall i :: 0 <= i < |part| ==> lo < part[i].jobId < hi
    ensures forall i :: 0 <= i < |Survivors(part, gone)| ==> lo < Survivors(part, gone)[i].jobId < hi
  {
    hide Survivors;
    SurvivorsAre(part, gone);
  }

  /** The identifier of a removed job is free, and its place is where it was. */
  lemma BackInPlace(s: seq<JobEntry>, k: nat, gone: set<JobEntry>)
    requires k < |s| && Sorted(s) && Sorted(Survivors(RemoveAt(s, k), gone))
    ensures s[k].jobId > 0
    ensures !Has(Survivors(RemoveAt(s, k), gone), s[k].jobId)
    ensures Place(Survivors(RemoveAt(s, k), gone), s[k].jobId) == |Survivors(s[..k], gone)|
  {
    hide Survivors, Place;
    var t, a, b := Survivors(RemoveAt(s, k), gone), Survivors(s[..k], gone), Survivors(s[k + 1..], gone);
    Around(s, k, gone);
    SurvivorsWithin(s[..k], gone, 0, s[k].jobId);
    SurvivorsWithin(s[k + 1..], gone, s[k].jobId, LastId(s) + 1);
    assert forall i :: 0 <= i < |t| ==> t[i] == if i < |a| then a[i] else b[i - |a|];
    assert forall i :: 0 <= i < |t| ==> (i < |a| <==> t[i].jobId <= s[k].jobId) && t[i].jobId != s[k].jobId;
    PlaceIs(t, s[k].jobId);
    var p := Place(t, s[k].jobId);
    assert (p < |t| ==> s[k].jobId < t[p].jobId) && (|a| < |t| ==> s[k].jobId < t[|a|].jobId);
  }

  lemma InsertedIsReplaced(s: seq<JobEntry>, k: nat, gone: set<JobEntry>, e: JobEntry)
    requires k < |s| && Sorted(s)
    requires |Survivors(s[..k], gone)| <= |Survivors(RemoveAt(s, k), gone)|
    ensures InsertAt(Survivors(RemoveAt(s, k), gone), |Survivors(s[..k], gone)|, e)
            == Replaced(Survivors(s, gone - {s[k]}), s[k], e)
  {
    hide Survivors;
    var a, b := Survivors(s[..k], gone), Survivors(s[k + 1..], gone);
    Around(s, k, gone);
    SurvivorsAre(s[..k], gone);
    SurvivorsAre(s[k + 1..], gone);
    assert s[k] !in s[..k] && s[k] !in s[k + 1..];
    assert forall i :: 0 <= i < |a| ==> a[i] in a && a[i] != s[k];
    assert forall i :: 0 <= i < |b| ==> b[i] in b && b[i] != s[k];
    assert Replaced(a + [s[k]] + b, s[k], e) == a + [e] + b;
  }
}
