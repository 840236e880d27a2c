/** The monthly scan quota: the check, the three ways a scan run is stored, and the bound they keep. */
module ScanQuota {
  import opened Seqs
  import opened Subscription
  import opened Wrappers

  const UNLIMITED := -1

  function MaxScansPerMonth(plan: PlanId): int {
    match plan
    case Free => 10
    case Starter => 100
    case Pro => 1000
    case Business => 5000
    case Enterprise => UNLIMITED
    case Mssp => UNLIMITED
  }

  predicate HasProwler(plan: PlanId) {
    plan in {Pro, Business, Enterprise, Mssp}
  }

  /** The first instant of the month an instant lies in. */
  type Calendar = int -> int

  ghost predicate IsCalendar(month: Calendar) {
    && (forall t :: month(t) <= t)
    && (forall t, u | month(t) <= u <= t :: month(u) == month(t))
  }

  datatype Status = Queued | Running | Completed | Failed

  datatype ScanRun = ScanRun(account: string, status: Status, startedAt: Option<int>)

  datatype ScanError = NotFound | NotEntitled | QuotaReached | BadRequest | AuditFailed

  /** The owning org of each connected account. */
  type Accounts = map<string, string>

  predicate Owns(accounts: Accounts, org: string, account: string) {
    account in accounts && accounts[account] == org
  }

  function StartedSince(accounts: Accounts, org: string, from: int): ScanRun -> bool {
    (r: ScanRun) => Owns(accounts, org, r.account) && r.startedAt.Some? && r.startedAt.value >= from
  }

  /** `_scans_this_month`: a run without a start time is not counted. */
  function ScansThisMonth(month: Calendar, accounts: Accounts, runs: seq<ScanRun>, org: string, now: int): nat {
    |Filter(runs, StartedSince(accounts, org, month(now)))|
  }

  /** `check_scan_quota` raises no error. */
  predicate QuotaAllows(month: Calendar, accounts: Accounts, runs: seq<ScanRun>, org: string, plan: PlanId, now: int) {
    || MaxScansPerMonth(plan) == UNLIMITED
    || ScansThisMonth(month, accounts, runs, org, now) < MaxScansPerMonth(plan)
  }

  /** The verdict by plan: 10, 100, 1000 or 5000 runs in the month so far are too many, and the two largest
      plans are never refused. */
  lemma QuotaVerdict(month: Calendar, accounts: Accounts, runs: seq<ScanRun>, org: string, plan: PlanId, now: int)
    ensures var n := ScansThisMonth(month, accounts, runs, org, now);
            !QuotaAllows(month, accounts, runs, org, plan, now) <==>
            || (plan == Free && n >= 10) || (plan == Starter && n >= 100)
            || (plan == Pro && n >= 1000) || (plan == Business && n >= 5000)
  {
  }

  /** What the count counts: started runs of the org's own accounts, from the first instant of the month on. */
  lemma {:induction false} CountedRuns(month: Calendar, accounts: Accounts, runs: seq<ScanRun>, org: string, now: int,
                                       r: ScanRun)
    ensures ScansThisMonth(month, accounts, runs + [r], org, now) - ScansThisMonth(month, accounts, runs, org, now) ==
            if r.account in accounts && accounts[r.account] == org
               && r.startedAt.Some? && r.startedAt.value >= month(now)
            then 1 else 0
  {
    FilterConcat(runs, [r], StartedSince(accounts, org, month(now)));
  }

  class ScanService {
    const month: Calendar
    var accounts: Accounts
    var runs: seq<ScanRun>

    constructor (m: Calendar)
      ensures month == m && accounts == map[] && runs == []
    {
      month, accounts, runs := m, map[], [];
    }

    /** Check the quota, then scan in the request or leave a queued run for a worker.  `plan` is the org's
        plan at the check; a scan that fails stays stored as failed. */
    method TriggerScan(org: string, account: string, plan: PlanId, checkAt: int, eager: bool, startAt: int,
                       succeeds: bool)
      returns (r: Result<ScanRun, ScanError>)
      modifies this`runs
      ensures r == Err(NotFound) <==> !(account in accounts && accounts[account] == org)
      ensures r.Ok? <==> && account in accounts && accounts[account] == org
                         && QuotaAllows(month, accounts, old(runs), org, plan, checkAt)
                         && (eager ==> succeeds)
      ensures r == Err(QuotaReached) <==>
              Owns(accounts, org, account) && !QuotaAllows(month, accounts, old(runs), org, plan, checkAt)
      ensures r in {Err(NotFound), Err(QuotaReached)} ==> runs == old(runs)
      ensures r !in {Err(NotFound), Err(QuotaReached)} ==>
                runs == old(runs) + [if eager
                                     then ScanRun(account, if succeeds then Completed else Failed, Some(startAt))
                                     else ScanRun(account, Queued, None)]
      ensures r.Err? ==> r.error in {NotFound, QuotaReached, AuditFailed}
      ensures runs == Next(month, State(accounts, old(runs), [], [], 0),
                           if eager then Scan(org, account, plan, checkAt, startAt, succeeds)
                           else Queue(org, account, plan, checkAt)).runs
      ensures r.Ok? ==> runs == old(runs) + [r.value]
    {
      if account !in accounts || accounts[account] != org {
        return Err(NotFound);
      }
      if MaxScansPerMonth(plan) != UNLIMITED
         && ScansThisMonth(month, accounts, runs, org, checkAt) >= MaxScansPerMonth(plan) {
        return Err(QuotaReached);
      }
      if eager {
        var scan := ScanRun(account, Running, Some(startAt));
        if !succeeds {
          scan := scan.(status := Failed);
          runs := runs + [scan];
          return Err(AuditFailed);
        }
        scan := scan.(status := Completed);
        runs := runs + [scan];
        return Ok(scan);
      }
      var scan := ScanRun(account, Queued, None);
      runs := runs + [scan];
      return Ok(scan);
    }

    /** Store externally produced findings as a completed run. */
    method IngestProwler(org: string, account: string, plan: PlanId, checkAt: int, wellFormed: bool, startAt: int)
      returns (r: Result<ScanRun, ScanError>)
      modifies this`runs
      ensures r == Err(NotEntitled) <==> plan in {Free, Starter}
      ensures r == Err(NotFound) <==> plan !in {Free, Starter} && !(account in accounts && accounts[account] == org)
      ensures r == Err(QuotaReached) <==>
              && plan !in {Free, Starter} && Owns(accounts, org, account)
              && !QuotaAllows(month, accounts, old(runs), org, plan, checkAt)
      ensures r.Err? ==> r.error in {NotEntitled, NotFound, QuotaReached, BadRequest}
      ensures r.Ok? <==> && HasProwler(plan) && Owns(accounts, org, account) && wellFormed
                         && QuotaAllows(month, accounts, old(runs), org, plan, checkAt)
      ensures r.Ok? ==> r.value == ScanRun(account, Completed, Some(startAt)) && runs == old(runs) + [r.value]
      ensures r.Err? ==> runs == old(runs)
      ensures runs == Next(month, State(accounts, old(runs), [], [], 0),
                           Ingest(org, account, plan, checkAt, wellFormed, startAt)).runs
    {
      if !HasProwler(plan) {
        return Err(NotEntitled);
      }
      if account !in accounts || accounts[account] != org {
        return Err(NotFound);
      }
      if MaxScansPerMonth(plan) != UNLIMITED
         && ScansThisMonth(month, accounts, runs, org, checkAt) >= MaxScansPerMonth(plan) {
        return Err(QuotaReached);
      }
      if !wellFormed {
        return Err(BadRequest);
      }
      var scan := ScanRun(account, Running, Some(startAt));
      scan := scan.(status := Completed);
      runs := runs + [scan];
      return Ok(scan);
    }

    /** A worker completes a stored run in place; only now does the run get a start time. */
    method WorkerRun(i: nat, startAt: int, succeeds: bool) returns (r: Result<ScanRun, ScanError>)
      requires i < |runs|
      modifies this`runs
      ensures var account := old(runs)[i].account;
              runs == old(runs)[i := ScanRun(account, if succeeds then Completed else Failed, Some(startAt))]
      ensures old(runs[i]).startedAt.None? && old(runs[i]).account in accounts ==>
                runs == Next(month, State(accounts, old(runs), [], [], 0), Work(i, startAt, succeeds)).runs
      ensures r == if succeeds then Ok(runs[i]) else Err(AuditFailed)
    {
      var scan := runs[i];
      scan := scan.(status := Running, startedAt := Some(startAt));
      scan := scan.(status := if succeeds then Completed else Failed);
      runs := runs[i := scan];
      r := if succeeds then Ok(scan) else Err(AuditFailed);
    }
  }

  function Worked(r: ScanRun, startAt: int, succeeds: bool): ScanRun {
    ScanRun(r.account, if succeeds then Completed else Failed, Some(startAt))
  }

  // ----- whole runs of the service -------------------------------------------------------------

  /** A successful check whose run was stored as started: the quota it saw and when the run started. */
  datatype Grant = Grant(org: string, startedAt: int, limit: int)

  /** A worker gave a waiting run of the org its start time. */
  datatype Start = Start(org: string, at: int)

  datatype State = State(accounts: Accounts, runs: seq<ScanRun>, grants: seq<Grant>, starts: seq<Start>, clock: int)

  const EMPTY := State(map[], [], [], [], 0)

  datatype Event =
    | Connect(account: string, org: string)
    | Disconnect(account: string)
    | Scan(org: string, account: string, plan: PlanId, checkAt: int, startAt: int, succeeds: bool)
    | Ingest(org: string, account: string, plan: PlanId, checkAt: int, wellFormed: bool, startAt: int)
    | Queue(org: string, account: string, plan: PlanId, checkAt: int)
    | Work(i: nat, startAt: int, succeeds: bool)

  /** The clock only moves forward, also between a request's check and its run's start. */
  predicate Timely(s: State, e: Event) {
    && (e.Scan? || e.Ingest? ==> s.clock <= e.checkAt <= e.startAt)
    && (e.Queue? ==> s.clock <= e.checkAt)
    && (e.Work? ==> s.clock <= e.startAt)
  }

  predicate Accepts(month: Calendar, s: State, e: Event) {
    match e
    case Scan(org, account, plan, checkAt, _, _) =>
      Owns(s.accounts, org, account) && QuotaAllows(month, s.accounts, s.runs, org, plan, checkAt)
    case Ingest(org, account, plan, checkAt, wellFormed, _) =>
      HasProwler(plan) && Owns(s.accounts, org, account) && wellFormed
      && QuotaAllows(month, s.accounts, s.runs, org, plan, checkAt)
    case Queue(org, account, plan, checkAt) =>
      Owns(s.accounts, org, account) && QuotaAllows(month, s.accounts, s.runs, org, plan, checkAt)
    case _ => false
  }

  /** The message a worker takes is that of a run still waiting. */
  predicate IsWaiting(s: State, i: nat) {
    i < |s.runs| && s.runs[i].account in s.accounts && s.runs[i].startedAt.None?
  }

  function Next(month: Calendar, s: State, e: Event): State {
    match e
    case Connect(account, org) => if account in s.accounts then s else s.(accounts := s.accounts[account := org])
    case Disconnect(account) =>
      s.(accounts := s.accounts - {account}, runs := Filter(s.runs, (r: ScanRun) => r.account != account))
    case Queue(_, account, _, checkAt) =>
      var s' := s.(clock := checkAt);
      if Accepts(month, s, e) then s'.(runs := s.runs + [ScanRun(account, Queued, None)]) else s'
    case Work(i, startAt, succeeds) =>
      var s' := s.(clock := startAt);
      if IsWaiting(s, i)
      then s'.(runs := s.runs[i := Worked(s.runs[i], startAt, succeeds)],
               starts := s.starts + [Start(s.accounts[s.runs[i].account], startAt)])
      else s'
    case _ =>
      var run := ScanRun(e.account, if e.Scan? && !e.succeeds then Failed else Completed, Some(e.startAt));
      var s' := s.(clock := e.startAt);
      if Accepts(month, s, e)
      then s'.(runs := s.runs + [run], grants := s.grants + [Grant(e.org, e.startAt, MaxScansPerMonth(e.plan))])
      else s'
  }

  function Run(month: Calendar, s: State, es: seq<Event>): State {
    if es == [] then s else Next(month, Run(month, s, es[..|es| - 1]), es[|es| - 1])
  }

  ghost predicate AllTimely(month: Calendar, s: State, es: seq<Event>) {
    es == [] || (AllTimely(month, s, es[..|es| - 1]) && Timely(Run(month, s, es[..|es| - 1]), es[|es| - 1]))
  }

  function Started(accounts: Accounts, org: string, when: int -> bool): ScanRun -> bool {
    (r: ScanRun) => Owns(accounts, org, r.account) && r.startedAt.Some? && when(r.startedAt.value)
  }

  function InMonth(month: Calendar, m: int): int -> bool {
    (t: int) => month(t) == m
  }

  function Since(from: int): int -> bool {
    (t: int) => t >= from
  }

  function StoredInMonth(month: Calendar, s: State, org: string, m: int): nat {
    |Filter(s.runs, Started(s.accounts, org, InMonth(month, m)))|
  }

  function OfOrg(org: string, when: int -> bool): Start -> bool {
    (w: Start) => w.org == org && when(w.at)
  }

  /** How many runs of the org the workers have started in the month. */
  function StartedByWorkers(month: Calendar, s: State, org: string, m: int): nat {
    |Filter(s.starts, OfOrg(org, InMonth(month, m)))|
  }

  /** Some successful check of the org, for a run of that month, allows `n` runs. */
  ghost predicate Covered(month: Calendar, s: State, org: string, m: int, n: int) {
    n <= 0 || exists g | g in s.grants ::
                g.org == org && month(g.startedAt) == m && (g.limit == UNLIMITED || n <= g.limit)
  }

  /** What the workers did not start. */
  function Excess(month: Calendar, s: State, org: string, m: int): int {
    StoredInMonth(month, s, org, m) - StartedByWorkers(month, s, org, m)
  }

  /** A stored run of a connected account that started, if at all, no later than the clock. */
  predicate StartedBy(s: State, r: ScanRun) {
    r.account in s.accounts && (r.startedAt.Some? ==> r.startedAt.value <= s.clock)
  }

  ghost predicate Inv(month: Calendar, s: State) {
    && (forall i | 0 <= i < |s.runs| :: StartedBy(s, s.runs[i]))
    && (forall org, m :: Covered(month, s, org, m, Excess(month, s, org, m)))
  }

  lemma {:induction false} FilterAfterFilter(runs: seq<ScanRun>, keep: ScanRun -> bool, p: ScanRun -> bool,
                                             q: ScanRun -> bool)
    requires forall i | 0 <= i < |runs| && p(runs[i]) :: q(runs[i])
    ensures |Filter(Filter(runs, keep), p)| <= |Filter(runs, q)|
  {
    if runs != [] {
      var init, last := runs[..|runs| - 1], runs[|runs| - 1];
      FilterAfterFilter(init, keep, p, q);
      FilterConcat(Filter(init, keep), if keep(last) then [last] else [], p);
    }
  }

  lemma CoveredFewer(month: Calendar, s: State, s': State, org: string, m: int, n: int, k: int)
    requires Covered(month, s, org, m, n) && k <= n && s.grants <= s'.grants
    ensures Covered(month, s', org, m, k)
  {
    if k > 0 {
      var g :| g in s.grants && g.org == org && month(g.startedAt) == m && (g.limit == UNLIMITED || n <= g.limit);
      assert g in s'.grants;
    }
  }

  /** Just before a granted run is stored, its month holds fewer runs than the limit its check saw. */
  lemma RoomForOne(month: Calendar, s: State, org: string, plan: PlanId, checkAt: int, startAt: int)
    requires IsCalendar(month) && Inv(month, s) && s.clock <= checkAt <= startAt
    requires QuotaAllows(month, s.accounts, s.runs, org, plan, checkAt)
    ensures MaxScansPerMonth(plan) == UNLIMITED || StoredInMonth(month, s, org, month(startAt)) < MaxScansPerMonth(plan)
  {
    var inMonth := Started(s.accounts, org, InMonth(month, month(startAt)));
    FilterMonotone(s.runs, inMonth, StartedSince(s.accounts, org, month(checkAt)));
  }

  lemma GrantKeepsCover(month: Calendar, s: State, e: Event, org: string, m: int)
    requires IsCalendar(month) && Inv(month, s) && Timely(s, e) && Accepts(month, s, e) && !e.Queue?
    ensures Covered(month, Next(month, s, e), org, m, Excess(month, Next(month, s, e), org, m))
  {
    var s' := Next(month, s, e);
    RoomForOne(month, s, e.org, e.plan, e.checkAt, e.startAt);
    var run := s'.runs[|s.runs|];
    FilterConcat(s.runs, [run], Started(s.accounts, org, InMonth(month, m)));
    if org == e.org && m == month(e.startAt) {
      assert s'.grants[|s.grants|] in s'.grants;
    } else {
      CoveredFewer(month, s, s', org, m, Excess(month, s, org, m), Excess(month, s', org, m));
    }
  }

  /** A queued run is stored at no time; a worker's start stores it at its own. */
  lemma QueueStepStores(month: Calendar, s: State, e: Event, org: string, when: int -> bool)
    requires e.Queue? || e.Work?
    ensures |Filter(Next(month, s, e).runs, Started(s.accounts, org, when))| ==
            |Filter(s.runs, Started(s.accounts, org, when))|
            + if e.Work? && IsWaiting(s, e.i) && s.accounts[s.runs[e.i].account] == org && when(e.startAt) then 1 else 0
  {
    var p := Started(s.accounts, org, when);
    if e.Queue? && Accepts(month, s, e) {
      FilterConcat(s.runs, [ScanRun(e.account, Queued, None)], p);
    }
    if e.Work? && IsWaiting(s, e.i) {
      FilterUpdateSize(s.runs, p, e.i, Worked(s.runs[e.i], e.startAt, e.succeeds));
    }
  }

  /** Queued and worked runs leave what the workers did not start as it was. */
  lemma QueueStepKeepsExcess(month: Calendar, s: State, e: Event, org: string, m: int)
    requires e.Queue? || e.Work?
    ensures Next(month, s, e).grants == s.grants
    ensures Excess(month, Next(month, s, e), org, m) == Excess(month, s, org, m)
  {
    QueueStepStores(month, s, e, org, InMonth(month, m));
    if e.Work? && IsWaiting(s, e.i) {
      FilterConcat(s.starts, [Start(s.accounts[s.runs[e.i].account], e.startAt)], OfOrg(org, InMonth(month, m)));
    }
  }

  lemma OtherKeepsCover(month: Calendar, s: State, e: Event, org: string, m: int)
    requires Inv(month, s) && !Accepts(month, s, e) && !e.Queue? && !e.Work?
    ensures Covered(month, Next(month, s, e), org, m, Excess(month, Next(month, s, e), org, m))
  {
    var s' := Next(month, s, e);
    var p, q := Started(s'.accounts, org, InMonth(month, m)), Started(s.accounts, org, InMonth(month, m));
    if e.Disconnect? {
      FilterAfterFilter(s.runs, (r: ScanRun) => r.account != e.account, p, q);
    } else {
      FilterMonotone(s.runs, p, q);
    }
    CoveredFewer(month, s, s', org, m, Excess(month, s, org, m), Excess(month, s', org, m));
  }

  lemma StepKeepsClock(month: Calendar, s: State, e: Event)
    requires Inv(month, s) && Timely(s, e)
    ensures var s' := Next(month, s, e); forall i | 0 <= i < |s'.runs| :: StartedBy(s', s'.runs[i])
  {
    var s' := Next(month, s, e);
    if e.Disconnect? {
      forall i | 0 <= i < |s'.runs| ensures StartedBy(s', s'.runs[i]) {
        FilterMembers(s.runs, (r: ScanRun) => r.account != e.account, s'.runs[i]);
      }
    }
  }

  lemma StepKeepsInv(month: Calendar, s: State, e: Event)
    requires IsCalendar(month) && Inv(month, s) && Timely(s, e)
    ensures Inv(month, Next(month, s, e))
  {
    var s' := Next(month, s, e);
    StepKeepsClock(month, s, e);
    forall org, m ensures Covered(month, s', org, m, Excess(month, s', org, m)) {
      if e.Queue? || e.Work? {
        QueueStepKeepsExcess(month, s, e, org, m);
        CoveredFewer(month, s, s', org, m, Excess(month, s, org, m), Excess(month, s', org, m));
      } else if Accepts(month, s, e) {
        GrantKeepsCover(month, s, e, org, m);
      } else {
        OtherKeepsCover(month, s, e, org, m);
      }
    }
  }

  /** Over every run, eager and queued paths interleaved, the runs an org has stored in a calendar month,
      failed ones included, exceed those the workers started in it by no more than the quota seen by one of
      its successful checks for that month; without workers there are none of the latter. */
  lemma {:induction false} StoredRunsWithinQuota(month: Calendar, es: seq<Event>, org: string, m: int)
    requires IsCalendar(month) && AllTimely(month, EMPTY, es)
    ensures Inv(month, Run(month, EMPTY, es))
    ensures var s := Run(month, EMPTY, es);
            var n := StoredInMonth(month, s, org, m) - StartedByWorkers(month, s, org, m);
            n > 0 ==> exists g | g in s.grants ::
                        g.org == org && month(g.startedAt) == m && (g.limit == UNLIMITED || n <= g.limit)
    ensures (forall e | e in es :: !e.Work?) ==> StartedByWorkers(month, Run(month, EMPTY, es), org, m) == 0
  {
    WithinQuota(month, es);
    var s := Run(month, EMPTY, es);
    assert Covered(month, s, org, m, Excess(month, s, org, m));
    if forall e | e in es :: !e.Work? {
      NoWorkNoStarts(month, es);
    }
  }

  /** All successful checks behind started runs of the org saw this plan. */
  ghost predicate GrantedOn(s: State, org: string, plan: PlanId) {
    forall g | g in s.grants && g.org == org :: g.limit == MaxScansPerMonth(plan)
  }

  lemma {:induction false} GrantsArePlans(month: Calendar, es: seq<Event>, org: string, plan: PlanId)
    requires forall i | 0 <= i < |es| && (es[i].Scan? || es[i].Ingest?) && es[i].org == org :: es[i].plan == plan
    ensures GrantedOn(Run(month, EMPTY, es), org, plan)
    decreases |es|
  {
    if es != [] {
      GrantsArePlans(month, es[..|es| - 1], org, plan);
    }
  }

  /** So an org that stays on one plan and uses no workers stores in every month at most 10 runs on the free
      plan, 100 on Starter, 1000 on Pro and 5000 on Business. */
  lemma PlanLimits(month: Calendar, es: seq<Event>, org: string, m: int, plan: PlanId)
    requires IsCalendar(month) && AllTimely(month, EMPTY, es)
    requires forall i | 0 <= i < |es| && (es[i].Scan? || es[i].Ingest?) && es[i].org == org :: es[i].plan == plan
    requires forall e | e in es :: !e.Work?
    ensures var n := StoredInMonth(month, Run(month, EMPTY, es), org, m);
            && (plan == Free ==> n <= 10) && (plan == Starter ==> n <= 100)
            && (plan == Pro ==> n <= 1000) && (plan == Business ==> n <= 5000)
  {
    StoredRunsWithinQuota(month, es, org, m);
    GrantsArePlans(month, es, org, plan);
  }

  lemma {:induction false} WithinQuota(month: Calendar, es: seq<Event>)
    requires IsCalendar(month) && AllTimely(month, EMPTY, es)
    ensures Inv(month, Run(month, EMPTY, es))
    decreases |es|
  {
    if es != [] {
      WithinQuota(month, es[..|es| - 1]);
      StepKeepsInv(month, Run(month, EMPTY, es[..|es| - 1]), es[|es| - 1]);
    }
  }

  lemma {:induction false} NoWorkNoStarts(month: Calendar, es: seq<Event>)
    requires forall e | e in es :: !e.Work?
    ensures Run(month, EMPTY, es).starts == []
    decreases |es|
  {
    if es != [] {
      NoWorkNoStarts(month, es[..|es| - 1]);
    }
  }

  // ----- the queued path ------------------------------------------------------------------------

  function Waiting(accounts: Accounts, org: string): ScanRun -> bool {
    (r: ScanRun) => Owns(accounts, org, r.account) && r.startedAt.None?
  }

  function WaitingRuns(s: State, org: string): nat {
    |Filter(s.runs, Waiting(s.accounts, org))|
  }

  /** Queued triggers and workers only, in any interleaving and of any orgs. */
  predicate QueueTraffic(es: seq<Event>) {
    forall i | 0 <= i < |es| :: es[i].Queue? || es[i].Work?
  }

  /** How many of the org's triggers the events get accepted. */
  function AcceptedTriggers(month: Calendar, s: State, es: seq<Event>, org: string): nat {
    if es == [] then 0
    else
      var init, e := es[..|es| - 1], es[|es| - 1];
      AcceptedTriggers(month, s, init, org)
      + if e.Queue? && e.org == org && Accepts(month, Run(month, s, init), e) then 1 else 0
  }

  /** How many of the org's waiting runs the events start at such a time. */
  function WorkerStarts(month: Calendar, s: State, es: seq<Event>, org: string, when: int -> bool): nat {
    if es == [] then 0
    else
      var init, e := es[..|es| - 1], es[|es| - 1];
      var t := Run(month, s, init);
      WorkerStarts(month, s, init, org, when)
      + if e.Work? && IsWaiting(t, e.i) && t.accounts[t.runs[e.i].account] == org && when(e.startAt) then 1 else 0
  }

  lemma QueueStepWaits(month: Calendar, s: State, e: Event, org: string)
    requires e.Queue? || e.Work?
    ensures WaitingRuns(Next(month, s, e), org) == WaitingRuns(s, org)
              + (if e.Queue? && e.org == org && Accepts(month, s, e) then 1 else 0)
              - (if e.Work? && IsWaiting(s, e.i) && s.accounts[s.runs[e.i].account] == org then 1 else 0)
  {
    var p := Waiting(s.accounts, org);
    if e.Queue? && Accepts(month, s, e) {
      FilterConcat(s.runs, [ScanRun(e.account, Queued, None)], p);
    }
    if e.Work? && IsWaiting(s, e.i) {
      FilterUpdateSize(s.runs, p, e.i, Worked(s.runs[e.i], e.startAt, e.succeeds));
    }
  }

  function Always(): int -> bool {
    (t: int) => true
  }

  /** Conservation on the queued path, whatever the interleaving: an accepted trigger waits until a worker
      starts it, and it is stored at the worker's time. */
  lemma {:induction false} QueueTrafficConserves(month: Calendar, s: State, es: seq<Event>, org: string,
                                                 when: int -> bool)
    requires QueueTraffic(es)
    ensures Run(month, s, es).accounts == s.accounts
    ensures WaitingRuns(Run(month, s, es), org) ==
            WaitingRuns(s, org) + AcceptedTriggers(month, s, es, org) - WorkerStarts(month, s, es, org, Always())
    ensures |Filter(Run(month, s, es).runs, Started(s.accounts, org, when))| ==
            |Filter(s.runs, Started(s.accounts, org, when))| + WorkerStarts(month, s, es, org, when)
    decreases |es|
  {
    if es != [] {
      var init, e := es[..|es| - 1], es[|es| - 1];
      QueueTrafficConserves(month, s, init, org, when);
      QueueStepWaits(month, Run(month, s, init), e, org);
      QueueStepStores(month, Run(month, s, init), e, org, when);
    }
  }

  /** The check never sees a waiting run: after any traffic its verdict depends on what was counted before
      and on what workers started since the month began, however many triggers were accepted. */
  lemma QueueingIsUnchecked(month: Calendar, s: State, es: seq<Event>, org: string, plan: PlanId, now: int)
    requires QueueTraffic(es)
    ensures var t := Run(month, s, es);
            QuotaAllows(month, t.accounts, t.runs, org, plan, now) <==>
            || MaxScansPerMonth(plan) == UNLIMITED
            || ScansThisMonth(month, s.accounts, s.runs, org, now)
               + WorkerStarts(month, s, es, org, Since(month(now))) < MaxScansPerMonth(plan)
  {
    var t := Run(month, s, es);
    QueueTrafficConserves(month, s, es, org, Since(month(now)));
    SinceIsStarted(s.accounts, s.runs, org, month(now));
    SinceIsStarted(s.accounts, t.runs, org, month(now));
  }

  /** Once the quota admits one trigger it admits any number of them: all of a burst get queued. */
  lemma {:induction false} BurstIsAccepted(month: Calendar, s: State, es: seq<Event>, org: string)
    requires forall i | 0 <= i < |es| ::
               && es[i].Queue? && es[i].org == org && Owns(s.accounts, org, es[i].account)
               && QuotaAllows(month, s.accounts, s.runs, org, es[i].plan, es[i].checkAt)
    ensures AcceptedTriggers(month, s, es, org) == |es|
    decreases |es|
  {
    if es != [] {
      var init, e := es[..|es| - 1], es[|es| - 1];
      BurstIsAccepted(month, s, init, org);
      QueueingIsUnchecked(month, s, init, org, e.plan, e.checkAt);
      QueueTrafficConserves(month, s, init, org, Always());
      NoWorkStartsNothing(month, s, init, org, Since(month(e.checkAt)));
    }
  }

  lemma {:induction false} NoWorkStartsNothing(month: Calendar, s: State, es: seq<Event>, org: string,
                                               when: int -> bool)
    requires forall i | 0 <= i < |es| :: !es[i].Work?
    ensures WorkerStarts(month, s, es, org, when) == 0
    decreases |es|
  {
    if es != [] {
      NoWorkStartsNothing(month, s, es[..|es| - 1], org, when);
    }
  }

  lemma SinceIsStarted(accounts: Accounts, runs: seq<ScanRun>, org: string, from: int)
    ensures |Filter(runs, StartedSince(accounts, org, from))| == |Filter(runs, Started(accounts, org, Since(from)))|
  {
    FilterMonotone(runs, StartedSince(accounts, org, from), Started(accounts, org, Since(from)));
    FilterMonotone(runs, Started(accounts, org, Since(from)), StartedSince(accounts, org, from));
  }

  lemma {:induction false} StartsWithin(month: Calendar, s: State, es: seq<Event>, org: string, when: int -> bool)
    ensures WorkerStarts(month, s, es, org, when) <= WorkerStarts(month, s, es, org, Always())
    decreases |es|
  {
    if es != [] {
      StartsWithin(month, s, es[..|es| - 1], org, when);
    }
  }

  ghost predicate OnlyWork(es: seq<Event>) {
    forall i | 0 <= i < |es| :: es[i].Work?
  }

  /** Workers can start every waiting run of the org at one moment. */
  lemma {:induction false} DrainExists(month: Calendar, s: State, org: string, t: int) returns (es: seq<Event>)
    requires s.clock <= t
    ensures OnlyWork(es) && AllTimely(month, s, es)
    ensures WaitingRuns(Run(month, s, es), org) == 0
    ensures Run(month, s, es).clock <= t
    ensures forall i | 0 <= i < |es| :: es[i].Work? && es[i].startAt == t
    decreases WaitingRuns(s, org)
  {
    if WaitingRuns(s, org) == 0 {
      es := [];
    } else {
      var i := SomeWaiting(s, org);
      var e := Work(i, t, true);
      QueueStepWaits(month, s, e, org);
      var rest := DrainExists(month, Next(month, s, e), org, t);
      es := [e] + rest;
      RunFirst(month, s, e, rest);
    }
  }

  lemma SomeWaiting(s: State, org: string) returns (i: nat)
    requires WaitingRuns(s, org) > 0
    ensures IsWaiting(s, i) && s.accounts[s.runs[i].account] == org
  {
    var p := Waiting(s.accounts, org);
    var r := Filter(s.runs, p)[0];
    FilterMembers(s.runs, p, r);
    i :| 0 <= i < |s.runs| && s.runs[i] == r;
  }

  lemma {:induction false} RunFirst(month: Calendar, s: State, e: Event, es: seq<Event>)
    ensures Run(month, s, [e] + es) == Run(month, Next(month, s, e), es)
    ensures Timely(s, e) && AllTimely(month, Next(month, s, e), es) ==> AllTimely(month, s, [e] + es)
    decreases |es|
  {
    if es == [] {
      assert [e] + es == [e] && [e][..0] == [];
    } else {
      var init, last, all := es[..|es| - 1], es[|es| - 1], [e] + es;
      RunFirst(month, s, e, init);
      assert all[..|all| - 1] == [e] + init && all[|all| - 1] == last;
      assert Run(month, s, all) == Next(month, Run(month, s, [e] + init), last);
    }
  }

  lemma {:induction false} StartsAllAt(month: Calendar, s: State, es: seq<Event>, org: string, when: int -> bool)
    requires forall i | 0 <= i < |es| :: es[i].Work? && when(es[i].startAt)
    ensures WorkerStarts(month, s, es, org, when) == WorkerStarts(month, s, es, org, Always())
    ensures AcceptedTriggers(month, s, es, org) == 0
    decreases |es|
  {
    if es != [] {
      StartsAllAt(month, s, es[..|es| - 1], org, when);
    }
  }

  /** While the month lasts, every way the workers may go on keeps it within `q` runs exactly when the runs
      stored in it and all waiting ones fit together. */
  lemma WorkersStayWithinIff(month: Calendar, s: State, org: string, m: int, t: int, q: int)
    requires s.clock <= t && month(t) == m
    ensures (forall es | OnlyWork(es) && AllTimely(month, s, es) ::
               StoredInMonth(month, Run(month, s, es), org, m) <= q) <==>
            StoredInMonth(month, s, org, m) + WaitingRuns(s, org) <= q
  {
    var when := InMonth(month, m);
    forall es | OnlyWork(es)
      ensures StoredInMonth(month, Run(month, s, es), org, m) <= StoredInMonth(month, s, org, m) + WaitingRuns(s, org)
    {
      QueueTrafficConserves(month, s, es, org, when);
      StartsWithin(month, s, es, org, when);
      StartsAllAt(month, s, es, org, Always());
    }
    var drain := DrainExists(month, s, org, t);
    QueueTrafficConserves(month, s, drain, org, when);
    StartsAllAt(month, s, drain, org, when);
  }

  /** The queued path does not keep the quota: after any traffic, the month is sure to end within `q` runs
      exactly when what it held, what was waiting and what was accepted since, less what the workers
      started outside the month, fit together. */
  lemma QueuedPathBound(month: Calendar, s: State, es: seq<Event>, org: string, m: int, t: int, q: int)
    requires QueueTraffic(es) && Run(month, s, es).clock <= t && month(t) == m
    ensures var end := Run(month, s, es);
            var outside := WorkerStarts(month, s, es, org, Always())
                           - WorkerStarts(month, s, es, org, InMonth(month, m));
            (forall more | OnlyWork(more) && AllTimely(month, end, more) ::
               StoredInMonth(month, Run(month, end, more), org, m) <= q) <==>
            StoredInMonth(month, s, org, m) + WaitingRuns(s, org) + AcceptedTriggers(month, s, es, org) - outside <= q
  {
    QueueTrafficConserves(month, s, es, org, InMonth(month, m));
    WorkersStayWithinIff(month, Run(month, s, es), org, m, t, q);
  }
}
