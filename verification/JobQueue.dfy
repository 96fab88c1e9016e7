/** The job table as a queue shared by any number of workers, some of which die and some of
    which finish late, and the worker's own loop. */
module JobQueue {
  import opened Options

  const MAX_ATTEMPTS: nat := 3

  datatype Status = Queued | Running | Done | Failed

  datatype Job = Job(kind: nat, status: Status, created: int, started: int, worker: Option<nat>, attempts: nat)

  predicate Closed(s: Status) {
    s == Done || s == Failed
  }

  /** A claim: the job, the number of the attempt, and who took it. */
  datatype Ticket = Ticket(job: nat, attempt: nat, worker: nat)

  /** The table, every claim so far, and the claims that have not reported yet. */
  datatype State = State(jobs: seq<Job>, claims: seq<Ticket>, out: set<Ticket>)

  function Claimed(job: Job, worker: nat, now: int): Job {
    job.(status := Running, started := now, worker := Some(worker), attempts := job.attempts + 1)
  }

  /** What the stale check makes of a row. */
  function Requeued(job: Job, cutoff: int): Job {
    if job.status == Running && job.started < cutoff then
      job.(status := if job.attempts < MAX_ATTEMPTS then Queued else Failed, worker := None)
    else job
  }

  function AllRequeued(jobs: seq<Job>, cutoff: int): (r: seq<Job>)
    ensures |r| == |jobs|
  {
    seq(|jobs|, i requires 0 <= i < |jobs| => Requeued(jobs[i], cutoff))
  }

  datatype Step =
    | Enqueue(kind: nat, now: int)
    | Claim(job: nat, worker: nat, now: int)
    | Report(ticket: Ticket, done: bool)
    | Die(ticket: Ticket)
    | RequeueStale(cutoff: int)

  ghost predicate NextBy(s: State, s': State, step: Step) {
    match step
    case Enqueue(kind, now) => s' == s.(jobs := s.jobs + [Job(kind, Queued, now, now, None, 0)])
    case Claim(j, worker, now) =>
      && j < |s.jobs| && s.jobs[j].status == Queued
      && var ticket := Ticket(j, s.jobs[j].attempts + 1, worker);
         s' == State(s.jobs[j := Claimed(s.jobs[j], worker, now)], s.claims + [ticket], s.out + {ticket})
    case Report(ticket, done) =>
      && ticket in s.out && ticket.job < |s.jobs|
      && s' == s.(jobs := s.jobs[ticket.job := s.jobs[ticket.job].(status := if done then Done else Failed)], out := s.out - {ticket})
    case Die(ticket) => ticket in s.out && s' == s.(out := s.out - {ticket})
    case RequeueStale(cutoff) => s' == s.(jobs := AllRequeued(s.jobs, cutoff))
  }

  ghost predicate Next(s: State, s': State) {
    exists step :: NextBy(s, s', step)
  }

  /** A stale check leaves alone every row that is not running or started at or after the
      cutoff; any other it queues again without its worker, or fails after its third attempt. */
  lemma StaleRowsOnly(s: State, s': State, cutoff: int, j: nat)
    requires NextBy(s, s', RequeueStale(cutoff)) && j < |s.jobs|
    ensures |s'.jobs| == |s.jobs| && s'.claims == s.claims && s'.out == s.out
    ensures s.jobs[j].status != Running || s.jobs[j].started >= cutoff ==> s'.jobs[j] == s.jobs[j]
    ensures s.jobs[j].status == Running && s.jobs[j].started < cutoff ==>
      s'.jobs[j] == s.jobs[j].(status := if s.jobs[j].attempts >= 3 then Failed else Queued, worker := None)
  {
  }

  // ----- what every step keeps -----

  /** The claims of a job. */
  function ClaimsOf(claims: seq<Ticket>, j: nat): nat {
    if claims == [] then 0
    else ClaimsOf(claims[..|claims| - 1], j) + (if claims[|claims| - 1].job == j then 1 else 0)
  }

  ghost predicate AttemptsBounded(s: State) {
    forall j :: 0 <= j < |s.jobs| ==>
      && s.jobs[j].attempts <= MAX_ATTEMPTS
      && (s.jobs[j].status == Queued ==> s.jobs[j].attempts < MAX_ATTEMPTS)
      && (s.jobs[j].status == Running ==> s.jobs[j].attempts >= 1)
  }

  /** No two claims took the same attempt of the same job. */
  ghost predicate NoAttemptTwice(claims: seq<Ticket>) {
    forall i, k :: 0 <= i < k < |claims| && claims[i].job == claims[k].job ==> claims[i].attempt != claims[k].attempt
  }

  /** Each claim took a new attempt number of its job. */
  ghost predicate ClaimsNumbered(s: State) {
    && (forall i :: 0 <= i < |s.claims| ==>
          s.claims[i].job < |s.jobs| && 1 <= s.claims[i].attempt <= s.jobs[s.claims[i].job].attempts)
    && NoAttemptTwice(s.claims)
    && (forall t :: t in s.out ==> t in s.claims)
  }

  /** As many claims as attempts, job by job. */
  ghost predicate ClaimsCounted(s: State) {
    forall j: nat :: ClaimsOf(s.claims, j) == if j < |s.jobs| then s.jobs[j].attempts else 0
  }

  ghost predicate Inv(s: State) {
    AttemptsBounded(s) && ClaimsNumbered(s) && ClaimsCounted(s)
  }

  lemma ClaimIsNumbered(s: State, s': State, j: nat, worker: nat, now: int)
    requires ClaimsNumbered(s) && NextBy(s, s', Claim(j, worker, now))
    ensures ClaimsNumbered(s')
  {
  }

  lemma ClaimIsCounted(s: State, s': State, j: nat, worker: nat, now: int)
    requires ClaimsCounted(s) && NextBy(s, s', Claim(j, worker, now))
    ensures ClaimsCounted(s')
  {
    assert s'.claims[..|s'.claims| - 1] == s.claims;
  }

  lemma ClaimKeepsInv(s: State, s': State, j: nat, worker: nat, now: int)
    requires Inv(s) && NextBy(s, s', Claim(j, worker, now))
    ensures Inv(s')
  {
    ClaimIsNumbered(s, s', j, worker, now);
    ClaimIsCounted(s, s', j, worker, now);
    hide ClaimsNumbered, ClaimsCounted;
  }

  lemma StepKeepsInv(s: State, s': State)
    requires Inv(s) && Next(s, s')
    ensures Inv(s')
  {
    var step :| NextBy(s, s', step);
    if step.Claim? {
      ClaimKeepsInv(s, s', step.job, step.worker, step.now);
    } else {
      assert s'.claims == s.claims;
      forall k: nat ensures ClaimsOf(s'.claims, k) == if k < |s'.jobs| then s'.jobs[k].attempts else 0 {
        assert ClaimsOf(s.claims, k) == if k < |s.jobs| then s.jobs[k].attempts else 0;
      }
    }
  }

  // ----- runs -----

  ghost predicate Run(ss: seq<State>) {
    && ss != [] && ss[0] == State([], [], {})
    && forall i :: 0 <= i < |ss| - 1 ==> Next(ss[i], ss[i + 1])
  }

  lemma InitInv()
    ensures Inv(State([], [], {}))
  {
  }

  lemma {:induction false} RunKeepsInv(ss: seq<State>, i: nat)
    requires Run(ss) && i < |ss|
    ensures Inv(ss[i])
  {
    hide Inv, Next;
    if i == 0 {
      InitInv();
    } else {
      RunKeepsInv(ss, i - 1);
      assert Next(ss[i - 1], ss[i - 1 + 1]);
      StepKeepsInv(ss[i - 1], ss[i]);
    }
  }

  /** Over any interleaving, no job is attempted more than three times, and each attempt of
      a job belongs to one claim by one worker. */
  lemma AttemptsAreBoundedAndOwned(ss: seq<State>, i: nat)
    requires Run(ss) && i < |ss|
    ensures forall j :: 0 <= j < |ss[i].jobs| ==> ss[i].jobs[j].attempts <= 3
    ensures NoAttemptTwice(ss[i].claims)
  {
    RunKeepsInv(ss, i);
  }

  function AttemptsLeft(jobs: seq<Job>): int {
    if jobs == [] then 0 else AttemptsLeft(jobs[..|jobs| - 1]) + (MAX_ATTEMPTS - jobs[|jobs| - 1].attempts)
  }

  lemma {:induction false} AttemptsLeftOf(jobs: seq<Job>, j: nat, job: Job)
    requires j < |jobs|
    ensures AttemptsLeft(jobs[j := job]) == AttemptsLeft(jobs) + jobs[j].attempts - job.attempts
  {
    var n := |jobs| - 1;
    if j < n {
      assert jobs[j := job][..n] == jobs[..n][j := job];
      AttemptsLeftOf(jobs[..n], j, job);
    } else {
      assert jobs[j := job][..n] == jobs[..n];
    }
  }

  lemma {:induction false} SameAttemptsLeft(jobs: seq<Job>, jobs': seq<Job>)
    requires |jobs| == |jobs'| && forall i :: 0 <= i < |jobs| ==> jobs[i].attempts == jobs'[i].attempts
    ensures AttemptsLeft(jobs) == AttemptsLeft(jobs')
  {
    if jobs != [] { SameAttemptsLeft(jobs[..|jobs| - 1], jobs'[..|jobs'| - 1]); }
  }

  lemma {:induction false} AttemptsLeftPositive(jobs: seq<Job>)
    requires forall i :: 0 <= i < |jobs| ==> jobs[i].attempts <= MAX_ATTEMPTS
    ensures AttemptsLeft(jobs) >= 0
  {
    if jobs != [] { AttemptsLeftPositive(jobs[..|jobs| - 1]); }
  }

  /** Every claim uses up one of the attempts left, and only a new job adds any: claims so
      far plus attempts left is three for each job. */
  lemma ClaimsUseUpAttempts(s: State, s': State)
    requires Next(s, s') && |s.claims| + AttemptsLeft(s.jobs) == MAX_ATTEMPTS * |s.jobs|
    ensures |s'.claims| + AttemptsLeft(s'.jobs) == MAX_ATTEMPTS * |s'.jobs|
    ensures |s'.jobs| == |s.jobs| ==> AttemptsLeft(s'.jobs) <= AttemptsLeft(s.jobs)
    ensures |s'.claims| > |s.claims| ==> AttemptsLeft(s'.jobs) == AttemptsLeft(s.jobs) - 1
  {
    var step :| NextBy(s, s', step);
    match step
    case Enqueue(_, _) => assert s'.jobs[..|s'.jobs| - 1] == s.jobs;
    case Claim(j, worker, now) => AttemptsLeftOf(s.jobs, j, Claimed(s.jobs[j], worker, now));
    case Report(t, done) => AttemptsLeftOf(s.jobs, t.job, s.jobs[t.job].(status := if done then Done else Failed));
    case Die(_) =>
    case RequeueStale(cutoff) => SameAttemptsLeft(s.jobs, s'.jobs);
  }

  /** So the claims of a run never exceed three for each job ever enqueued. */
  lemma {:induction false} ClaimsAreBounded(ss: seq<State>, i: nat)
    requires Run(ss) && i < |ss|
    ensures |ss[i].claims| + AttemptsLeft(ss[i].jobs) == 3 * |ss[i].jobs|
    ensures |ss[i].claims| <= 3 * |ss[i].jobs|
  {
    if i > 0 {
      ClaimsAreBounded(ss, i - 1);
      assert Next(ss[i - 1], ss[i - 1 + 1]);
      ClaimsUseUpAttempts(ss[i - 1], ss[i]);
    }
    RunKeepsInv(ss, i);
    AttemptsLeftPositive(ss[i].jobs);
  }

  /** A finished job is never queued or run again, even when its row is reported late. */
  ghost predicate ClosedStayClosed(s: State, s': State) {
    |s.jobs| <= |s'.jobs| && forall j :: 0 <= j < |s.jobs| ==>
      (Closed(s.jobs[j].status) ==> Closed(s'.jobs[j].status)) && s.jobs[j].attempts <= s'.jobs[j].attempts
  }

  lemma {:induction false} FinishedJobsStayFinished(ss: seq<State>, i: nat, k: nat)
    requires Run(ss) && i <= k < |ss|
    ensures ClosedStayClosed(ss[i], ss[k])
    decreases k - i
  {
    if i < k {
      FinishedJobsStayFinished(ss, i, k - 1);
      assert Next(ss[k - 1], ss[k - 1 + 1]);
      var step :| NextBy(ss[k - 1], ss[k], step);
    }
  }

  /** The outcome of a finished job can still change exactly when some claim of it has not
      reported: a worker presumed dead may overwrite the result of the one that replaced it. */
  lemma OutcomeMayChangeIff(s: State, j: nat)
    requires j < |s.jobs| && Closed(s.jobs[j].status)
    ensures (exists s' :: Next(s, s') && j < |s'.jobs| && s'.jobs[j].status != s.jobs[j].status)
      <==> (exists t :: t in s.out && t.job == j)
  {
    if t :| t in s.out && t.job == j {
      var done := s.jobs[j].status != Done;
      var s' := s.(jobs := s.jobs[j := s.jobs[j].(status := if done then Done else Failed)], out := s.out - {t});
      assert NextBy(s, s', Report(t, done));
    }
    if s' :| Next(s, s') && j < |s'.jobs| && s'.jobs[j].status != s.jobs[j].status {
      var step :| NextBy(s, s', step);
      assert step.Report? && step.ticket.job == j;
    }
  }

  /** Such a job is reached: whatever its kind and the workers, a claim older than the cutoff
      is queued again, claimed a second time and finished, and the first claim then reports
      the opposite outcome. */
  lemma LateReportOverwrites(kind: nat, created: int, w: nat, started: int, cutoff: int, w': nat, again: int, done: bool)
    returns (ss: seq<State>)
    requires started < cutoff
    ensures Run(ss) && |ss| == 7 && |ss[5].jobs| == 1 && |ss[6].jobs| == 1
    ensures ss[5].jobs[0].status == (if done then Done else Failed) && Ticket(0, 1, w) in ss[5].out
    ensures ss[6].jobs[0] == ss[5].jobs[0].(status := if done then Failed else Done)
  {
    var t, t' := Ticket(0, 1, w), Ticket(0, 2, w');
    var queued := Job(kind, Queued, created, created, None, 0);
    var running := Claimed(queued, w, started);
    var back := Requeued(running, cutoff);
    var second := Claimed(back, w', again);
    assert running.status == Running && running.attempts == 1 && back.status == Queued && back.attempts == 1;
    var s0, s1, s2 := State([], [], {}), State([queued], [], {}), State([running], [t], {t});
    var s3, s4 := State([back], [t], {t}), State([second], [t, t'], {t, t'});
    var s5 := State([second.(status := if done then Done else Failed)], [t, t'], {t});
    var s6 := State([second.(status := if done then Failed else Done)], [t, t'], {});
    ss := [s0, s1, s2, s3, s4, s5, s6];
    assert second.(status := if done then Done else Failed).attempts == 2;
    hide Requeued, Claimed;
    assert NextBy(s0, s1, Enqueue(kind, created));
    assert NextBy(s1, s2, Claim(0, w, started));
    assert NextBy(s2, s3, RequeueStale(cutoff));
    assert NextBy(s3, s4, Claim(0, w', again));
    FinishedThenOverwritten(s4, t, t', done);
    hide NextBy;
  }

  lemma FinishedThenOverwritten(s: State, t: Ticket, t': Ticket, done: bool)
    requires |s.jobs| == 1 && s.out == {t, t'} && t != t' && t.job == 0 && t'.job == 0
    ensures Next(s, State([s.jobs[0].(status := if done then Done else Failed)], s.claims, {t}))
    ensures Next(State([s.jobs[0].(status := if done then Done else Failed)], s.claims, {t}),
                 State([s.jobs[0].(status := if done then Failed else Done)], s.claims, {}))
  {
    var s5 := State([s.jobs[0].(status := if done then Done else Failed)], s.claims, {t});
    assert NextBy(s, s5, Report(t', done));
    assert NextBy(s5, State([s.jobs[0].(status := if done then Failed else Done)], s.claims, {}), Report(t, !done));
  }

  // ----- the table's own methods -----

  predicate Handles(kinds: set<nat>, job: Job) {
    job.status == Queued && job.kind in kinds
  }

  /** The oldest queued job of one of the kinds. */
  ghost predicate Oldest(jobs: seq<Job>, kinds: set<nat>, j: nat) {
    && j < |jobs| && Handles(kinds, jobs[j])
    && forall k :: 0 <= k < |jobs| && Handles(kinds, jobs[k]) ==> jobs[j].created <= jobs[k].created
  }

  class Queue {
    var jobs: seq<Job>
    ghost var claims: seq<Ticket>
    ghost var out: set<Ticket>

    ghost function Now(): State
      reads this
    {
      State(jobs, claims, out)
    }

    constructor ()
      ensures Now() == State([], [], {})
    {
      jobs, claims, out := [], [], {};
    }

    method EnqueueJob(kind: nat, now: int) returns (j: nat)
      modifies this
      ensures NextBy(old(Now()), Now(), Enqueue(kind, now)) && j == |old(jobs)|
    {
      j := |jobs|;
      jobs := jobs + [Job(kind, Queued, now, now, None, 0)];
    }

    /** Takes the oldest queued job of the kinds, when there is one. */
    method ClaimJob(worker: nat, kinds: set<nat>, now: int) returns (j: Option<nat>)
      modifies this
      ensures j.None? ==> Now() == old(Now()) && forall k :: 0 <= k < |jobs| ==> !Handles(kinds, jobs[k])
      ensures j.Some? ==> Oldest(old(jobs), kinds, j.value) && NextBy(old(Now()), Now(), Claim(j.value, worker, now))
      ensures j.Some? ==> Ticket(j.value, jobs[j.value].attempts, worker) in out
    {
      j := None;
      var k: nat := 0;
      while k < |jobs|
        invariant k <= |jobs|
        invariant j.None? ==> forall l :: 0 <= l < k ==> !Handles(kinds, jobs[l])
        invariant j.Some? ==> j.value < k && Handles(kinds, jobs[j.value])
        invariant j.Some? ==> forall l :: 0 <= l < k && Handles(kinds, jobs[l]) ==> jobs[j.value].created <= jobs[l].created
      {
        if Handles(kinds, jobs[k]) && (j.None? || jobs[k].created < jobs[j.value].created) {
          j := Some(k);
        }
        k := k + 1;
      }
      if j.Some? {
        ghost var ticket := Ticket(j.value, jobs[j.value].attempts + 1, worker);
        jobs := jobs[j.value := Claimed(jobs[j.value], worker, now)];
        claims, out := claims + [ticket], out + {ticket};
      }
    }

    /** Writes the outcome whatever the row has become. */
    method Record(ghost ticket: Ticket, j: nat, done: bool)
      requires ticket in out && ticket.job == j < |jobs|
      modifies this
      ensures NextBy(old(Now()), Now(), Report(ticket, done))
    {
      jobs := jobs[j := jobs[j].(status := if done then Done else Failed)];
      out := out - {ticket};
    }

    method RequeueStaleJobs(cutoff: int) returns (n: nat)
      modifies this
      ensures NextBy(old(Now()), Now(), RequeueStale(cutoff))
      ensures n == Stale(old(jobs), cutoff)
    {
      hide AllRequeued, Requeued, Stale;
      n := 0;
      var k: nat := 0;
      ghost var before := jobs;
      NoRowsYet(jobs, cutoff);
      while k < |jobs|
        invariant k <= |jobs| == |before| && n == Stale(before[..k], cutoff)
        invariant jobs == AllRequeued(before[..k], cutoff) + before[k..]
        invariant claims == old(claims) && out == old(out)
      {
        OneMoreRow(before, k, cutoff);
        RowReplaced(AllRequeued(before[..k], cutoff), before, k, Requeued(before[k], cutoff));
        if jobs[k].status == Running && jobs[k].started < cutoff { n := n + 1; }
        jobs := jobs[k := Requeued(jobs[k], cutoff)];
        k := k + 1;
      }
      assert before[..k] == before;
    }
  }

  lemma OneMoreRow(jobs: seq<Job>, k: nat, cutoff: int)
    requires k < |jobs|
    ensures AllRequeued(jobs[..k + 1], cutoff) == AllRequeued(jobs[..k], cutoff) + [Requeued(jobs[k], cutoff)]
    ensures Stale(jobs[..k + 1], cutoff)
      == Stale(jobs[..k], cutoff) + (if jobs[k].status == Running && jobs[k].started < cutoff then 1 else 0)
  {
    hide Requeued;
    assert jobs[..k + 1][..k] == jobs[..k];
  }

  lemma RowReplaced(done: seq<Job>, jobs: seq<Job>, k: nat, r: Job)
    requires k < |jobs| && |done| == k
    ensures (done + jobs[k..])[k] == jobs[k] && (done + jobs[k..])[k := r] == (done + [r]) + jobs[k + 1..]
  {
  }

  lemma NoRowsYet(jobs: seq<Job>, cutoff: int)
    ensures AllRequeued(jobs[..0], cutoff) == [] && Stale(jobs[..0], cutoff) == 0
  {
  }

  /** How many rows a stale check changes. */
  function Stale(jobs: seq<Job>, cutoff: int): nat {
    if jobs == [] then 0
    else
      var last := jobs[|jobs| - 1];
      Stale(jobs[..|jobs| - 1], cutoff) + (if last.status == Running && last.started < cutoff then 1 else 0)
  }

  // ----- the worker -----

  const POLL: real := 2.0
  const IDLE_MAX: real := 10.0

  function NextDelay(current: real, idle: bool): real {
    if !idle then POLL
    else
      var doubled := (if current > POLL then current else POLL) * 2.0;
      if doubled < IDLE_MAX then doubled else IDLE_MAX
  }

  /** Work brings the delay back to two seconds; each idle turn doubles it, up to ten. */
  lemma IdleDoubles(current: real)
    requires 2.0 <= current <= 10.0
    ensures NextDelay(current, false) == 2.0
    ensures NextDelay(current, true) == if current <= 5.0 then 2.0 * current else 10.0
  {
  }

  /** One turn of the loop: the time, whether the claim itself failed, and what the handler
      would do with the job. */
  datatype Turn = Turn(now: int, claimFails: bool, succeeds: bool)

  /** The handler ran, or there was none for the kind; its outcome is recorded once. */
  method RunJob(q: Queue, ghost ticket: Ticket, j: nat, handled: bool, succeeds: bool) returns (done: bool)
    requires ticket in q.out && ticket.job == j < |q.jobs|
    modifies q
    ensures done == (handled && succeeds)
    ensures NextBy(old(q.Now()), q.Now(), Report(ticket, done))
  {
    done := handled && succeeds;
    q.Record(ticket, j, done);
  }

  lemma FreshTicket(s: State, t: Ticket)
    requires Inv(s) && t.job < |s.jobs| && t.attempt > s.jobs[t.job].attempts
    ensures t !in s.out && t !in s.claims
  {
  }

  ghost predicate Reaches(s: State, s': State) {
    exists ss: seq<State> :: Path(ss, s, s')
  }

  ghost predicate Path(ss: seq<State>, s: State, s': State) {
    ss != [] && ss[0] == s && ss[|ss| - 1] == s' && forall i :: 0 <= i < |ss| - 1 ==> Next(ss[i], ss[i + 1])
  }

  lemma ReachesItself(s: State)
    ensures Reaches(s, s)
  {
    assert Path([s], s, s);
  }

  lemma ReachesOnward(s: State, m: State, s': State, step: Step)
    requires Reaches(s, m) && NextBy(m, s', step)
    ensures Reaches(s, s')
  {
    var ss :| Path(ss, s, m);
    var more := ss + [s'];
    assert forall i :: 0 <= i < |more| - 1 ==> Next(more[i], more[i + 1]);
    assert Path(more, s, s');
  }

  lemma DelayStays(current: real, idle: bool)
    requires POLL <= current <= IDLE_MAX
    ensures POLL <= NextDelay(current, idle) <= IDLE_MAX
  {
  }

  /** The claim-run-record loop over the turns until the worker is told to stop: every job
      it takes it reports, and it leaves no claim of its own open. */
  method Loop(q: Queue, worker: nat, kinds: set<nat>, cutoff: int, turns: seq<Turn>) returns (ran: nat, delay: real)
    requires Inv(q.Now())
    modifies q
    ensures Reaches(old(q.Now()), q.Now()) && Inv(q.Now())
    ensures q.out == old(q.out) && |q.claims| == |old(q.claims)| + ran && ran <= |turns|
    ensures 2.0 <= delay <= 10.0
  {
    hide Inv, NextDelay, AllRequeued, Oldest;
    var n := q.RequeueStaleJobs(cutoff);
    StepKeepsInv(old(q.Now()), q.Now()) by { assert NextBy(old(q.Now()), q.Now(), RequeueStale(cutoff)); }
    ReachesItself(old(q.Now()));
    ReachesOnward(old(q.Now()), old(q.Now()), q.Now(), RequeueStale(cutoff));
    ran, delay := 0, POLL;
    var t := 0;
    while t < |turns|
      invariant 0 <= t <= |turns| && ran <= t && POLL <= delay <= IDLE_MAX
      invariant Reaches(old(q.Now()), q.Now()) && Inv(q.Now())
      invariant q.out == old(q.out) && |q.claims| == |old(q.claims)| + ran
    {
      var turn := turns[t];
      var job: Option<nat> := None;
      ghost var before := q.Now();
      if !turn.claimFails {
        job := q.ClaimJob(worker, kinds, turn.now);
      }
      if job.Some? {
        assert NextBy(before, q.Now(), Claim(job.value, worker, turn.now));
        StepKeepsInv(before, q.Now());
        ReachesOnward(old(q.Now()), before, q.Now(), Claim(job.value, worker, turn.now));
        FreshTicket(before, Ticket(job.value, before.jobs[job.value].attempts + 1, worker));
        ghost var mid, ticket := q.Now(), Ticket(job.value, q.jobs[job.value].attempts, worker);
        var done := RunJob(q, ticket, job.value, true, turn.succeeds);
        assert NextBy(mid, q.Now(), Report(ticket, done));
        StepKeepsInv(mid, q.Now());
        ReachesOnward(old(q.Now()), mid, q.Now(), Report(ticket, done));
        ran := ran + 1;
      }
      DelayStays(delay, job.None?);
      delay := NextDelay(delay, job.None?);
      t := t + 1;
    }
  }
}
