/** The baseline and drift-event tables, and the three operations that change them:
    a drift check, the approval of an event and its rejection. */
module DriftStore {
  import opened DriftDetector
  import opened Wrappers

  datatype BaselineRow = BaselineRow(account: string, resourceId: string, config: Config)

  datatype EventStatus = PendingReview | Approved | Violation

  /** An event's id is its position in the table. */
  datatype DriftEvent = DriftEvent(org: string, account: string, diff: DriftDiff, status: EventStatus)

  datatype StoreError = NotFound | MultipleResultsFound | UniqueViolation

  /** `violations` are the ids of the events that have a `drift_violation` finding; the finding's
      unique dedup hash is made of the event id, so an event has at most one. */
  datatype State = State(baselines: seq<BaselineRow>, events: seq<DriftEvent>, violations: set<nat>)

  // ----- the baseline table as a map -------------------------------------------

  predicate IsRowOf(row: BaselineRow, account: string, rid: string) {
    row.account == account && row.resourceId == rid
  }

  /** At most one row per account and resource. */
  ghost predicate Unique(rows: seq<BaselineRow>) {
    forall i, j | 0 <= i < j < |rows| :: !IsRowOf(rows[j], rows[i].account, rows[i].resourceId)
  }

  /** The query for one resource's row has two answers. */
  ghost predicate Duplicated(rows: seq<BaselineRow>, account: string, rid: string) {
    exists i, j | 0 <= i < j < |rows| :: IsRowOf(rows[i], account, rid) && IsRowOf(rows[j], account, rid)
  }

  /** `{b.resource_id: b.config_snapshot for b in rows of the account}` */
  function View(rows: seq<BaselineRow>, account: string): Snapshot {
    if rows == [] then map[]
    else
      var rest, last := View(rows[..|rows| - 1], account), rows[|rows| - 1];
      if last.account == account then rest[last.resourceId := last.config] else rest
  }

  lemma {:induction false} ViewDomain(rows: seq<BaselineRow>, account: string, rid: string)
    ensures rid in View(rows, account) <==> exists i | 0 <= i < |rows| :: IsRowOf(rows[i], account, rid)
  {
    if rows != [] {
      var init := rows[..|rows| - 1];
      ViewDomain(init, account, rid);
      if rid in View(init, account) {
        var i :| 0 <= i < |init| && IsRowOf(init[i], account, rid);
        assert IsRowOf(rows[i], account, rid);
      }
      if IsRowOf(rows[|rows| - 1], account, rid) {
        assert rid in View(rows, account);
      }
    }
  }

  /** In a table with unique rows the map reads the row. */
  lemma {:induction false} ViewValue(rows: seq<BaselineRow>, i: nat)
    requires Unique(rows) && i < |rows|
    ensures rows[i].resourceId in View(rows, rows[i].account)
    ensures View(rows, rows[i].account)[rows[i].resourceId] == rows[i].config
  {
    var n := |rows| - 1;
    if i < n {
      ViewValue(rows[..n], i);
      assert !IsRowOf(rows[n], rows[i].account, rows[i].resourceId);
    }
  }

  lemma ViewLookup(rows: seq<BaselineRow>, account: string, rid: string)
    requires Unique(rows)
    ensures Lookup(View(rows, account), rid).None? <==> forall i | 0 <= i < |rows| :: !IsRowOf(rows[i], account, rid)
    ensures forall i | 0 <= i < |rows| && IsRowOf(rows[i], account, rid) ::
              Lookup(View(rows, account), rid) == Some(rows[i].config)
  {
    ViewDomain(rows, account, rid);
    forall i | 0 <= i < |rows| && IsRowOf(rows[i], account, rid)
      ensures Lookup(View(rows, account), rid) == Some(rows[i].config)
    {
      ViewValue(rows, i);
    }
  }

  lemma RowlessIff(rows: seq<BaselineRow>, account: string)
    ensures View(rows, account) == map[] <==> forall i | 0 <= i < |rows| :: rows[i].account != account
  {
    if i: nat :| i < |rows| && rows[i].account == account {
      ViewDomain(rows, account, rows[i].resourceId);
      assert IsRowOf(rows[i], account, rows[i].resourceId);
    }
    if rid :| rid in View(rows, account) {
      ViewDomain(rows, account, rid);
    }
  }

  lemma MapsAgree(a: Snapshot, b: Snapshot)
    requires forall rid :: Lookup(a, rid) == Lookup(b, rid)
    ensures a == b
  {
    forall rid ensures rid in a <==> rid in b {
      assert Lookup(a, rid) == Lookup(b, rid);
    }
    forall rid | rid in a ensures a[rid] == b[rid] {
      assert Lookup(a, rid) == Lookup(b, rid);
    }
  }

  // ----- what each operation does --------------------------------------------------

  datatype Op =
    | Check(org: string, account: string, current: Snapshot)
    | Approve(org: string, id: nat)
    | Reject(org: string, id: nat)

  /** `_drift_or_404`: an event is found only by a caller of its own organisation. */
  predicate Visible(s: State, org: string, id: nat) {
    id < |s.events| && s.events[id].org == org
  }

  function EventsOf(org: string, account: string, ds: seq<DriftDiff>): seq<DriftEvent> {
    seq(|ds|, i requires 0 <= i < |ds| => DriftEvent(org, account, ds[i], PendingReview))
  }

  /** The first check, and any check made while the account has no rows, adopts the snapshot. */
  predicate Adopts(s: State, account: string) {
    View(s.baselines, account) == map[]
  }

  ghost predicate CheckStep(s: State, org: string, account: string, current: Snapshot, s': State) {
    && Unique(s'.baselines)
    && s'.violations == s.violations
    && if Adopts(s, account) then
         && s'.events == s.events
         && forall a :: View(s'.baselines, a) == if a == account then current else View(s.baselines, a)
       else
         && s'.baselines == s.baselines
         && exists ds :: IsDiff(View(s.baselines, account), current, ds)
                         && s'.events == s.events + EventsOf(org, account, ds)
  }

  ghost predicate ApproveStep(s: State, id: nat, s': State)
    requires id < |s.events|
  {
    var e := s.events[id];
    && Unique(s'.baselines)
    && s'.violations == s.violations
    && s'.events == s.events[id := e.(status := Approved)]
    && forall a :: View(s'.baselines, a) ==
                   if a == e.account then Patch(View(s.baselines, a), e.diff) else View(s.baselines, a)
  }

  ghost predicate RejectStep(s: State, id: nat, s': State)
    requires id < |s.events|
  {
    && s'.baselines == s.baselines
    && s'.violations == s.violations + {id}
    && s'.events == s.events[id := s.events[id].(status := Violation)]
  }

  ghost predicate Step(s: State, op: Op, s': State) {
    match op
    case Check(org, account, current) => CheckStep(s, org, account, current, s')
    case Approve(org, id) => if Visible(s, org, id) then ApproveStep(s, id, s') else s' == s
    case Reject(org, id) => if Visible(s, org, id) && id !in s.violations then RejectStep(s, id, s') else s' == s
  }

  // ----- row surgery --------------------------------------------------------------

  lemma {:induction false} ViewConcat(xs: seq<BaselineRow>, ys: seq<BaselineRow>, a: string)
    ensures View(xs + ys, a) == View(xs, a) + View(ys, a)
  {
    if ys == [] {
      assert xs + ys == xs;
    } else {
      ViewConcat(xs, ys[..|ys| - 1], a);
      assert (xs + ys)[..|xs + ys| - 1] == xs + ys[..|ys| - 1];
    }
  }

  lemma ViewAround(xs: seq<BaselineRow>, r: BaselineRow, ys: seq<BaselineRow>, a: string)
    ensures View(xs + [r] + ys, a) ==
            (if r.account == a then View(xs, a)[r.resourceId := r.config] else View(xs, a)) + View(ys, a)
  {
    ViewConcat(xs + [r], ys, a);
    assert (xs + [r])[..|xs|] == xs;
  }

  lemma AbsentElsewhere(xs: seq<BaselineRow>, r: BaselineRow, ys: seq<BaselineRow>)
    requires Unique(xs + [r] + ys)
    ensures r.resourceId !in View(xs, r.account) && r.resourceId !in View(ys, r.account)
  {
    var rows := xs + [r] + ys;
    ViewDomain(xs, r.account, r.resourceId);
    ViewDomain(ys, r.account, r.resourceId);
    assert rows[|xs|] == r;
    assert forall i | 0 <= i < |xs| :: rows[i] == xs[i];
    assert forall i | 0 <= i < |ys| :: rows[|xs| + 1 + i] == ys[i];
  }

  lemma DeleteRow(rows: seq<BaselineRow>, k: nat, a: string)
    requires Unique(rows) && k < |rows|
    ensures View(rows[..k] + rows[k + 1..], a) ==
            if a == rows[k].account then View(rows, a) - {rows[k].resourceId} else View(rows, a)
  {
    var xs, r, ys := rows[..k], rows[k], rows[k + 1..];
    assert rows == xs + [r] + ys;
    ViewAround(xs, r, ys, a);
    ViewConcat(xs, ys, a);
    AbsentElsewhere(xs, r, ys);
  }

  lemma RowDeleted(rows: seq<BaselineRow>, k: nat)
    requires Unique(rows) && k < |rows|
    ensures Unique(rows[..k] + rows[k + 1..])
    ensures forall a :: View(rows[..k] + rows[k + 1..], a) ==
                        if a == rows[k].account then View(rows, a) - {rows[k].resourceId} else View(rows, a)
  {
    forall a {
      DeleteRow(rows, k, a);
    }
  }

  lemma UpdateRow(rows: seq<BaselineRow>, k: nat, config: Config)
    requires Unique(rows) && k < |rows|
    ensures Unique(rows[k := rows[k].(config := config)])
    ensures forall a :: View(rows[k := rows[k].(config := config)], a) ==
                        if a == rows[k].account then View(rows, a)[rows[k].resourceId := config] else View(rows, a)
  {
    var rows' := rows[k := rows[k].(config := config)];
    forall a
      ensures View(rows', a) ==
              if a == rows[k].account then View(rows, a)[rows[k].resourceId := config] else View(rows, a)
    {
      var expected := if a == rows[k].account then View(rows, a)[rows[k].resourceId := config] else View(rows, a);
      forall rid ensures Lookup(View(rows', a), rid) == Lookup(expected, rid) {
        ViewLookup(rows, a, rid);
        ViewLookup(rows', a, rid);
        if i :| 0 <= i < |rows| && IsRowOf(rows[i], a, rid) {
          assert IsRowOf(rows'[i], a, rid);
        }
      }
      MapsAgree(View(rows', a), expected);
    }
  }

  lemma InsertRow(rows: seq<BaselineRow>, row: BaselineRow)
    ensures Unique(rows) && row.resourceId !in View(rows, row.account) ==> Unique(rows + [row])
    ensures forall a :: View(rows + [row], a) ==
                        if a == row.account then View(rows, a)[row.resourceId := row.config] else View(rows, a)
  {
    ViewDomain(rows, row.account, row.resourceId);
    assert (rows + [row])[..|rows|] == rows;
  }

  /** The resource's row is there exactly when the event has an after-state, which it then holds, and all
      other rows are the ones that were there. */
  ghost predicate Folded(rows: seq<BaselineRow>, rows': seq<BaselineRow>, account: string, diff: DriftDiff) {
    && (forall row: BaselineRow | row in rows' && row.account == account && row.resourceId == diff.resourceId ::
          diff.after == Some(row.config))
    && (diff.after.Some? ==> BaselineRow(account, diff.resourceId, diff.after.value) in rows')
    && (forall row: BaselineRow | row.account != account || row.resourceId != diff.resourceId ::
          row in rows <==> row in rows')
  }

  lemma RowsMatchView(rows: seq<BaselineRow>, row: BaselineRow)
    requires Unique(rows)
    ensures row in rows <==> Lookup(View(rows, row.account), row.resourceId) == Some(row.config)
  {
    ViewLookup(rows, row.account, row.resourceId);
    if row in rows {
      var i :| 0 <= i < |rows| && rows[i] == row;
      assert IsRowOf(rows[i], row.account, row.resourceId);
    }
  }

  lemma PatchedIsFolded(rows: seq<BaselineRow>, rows': seq<BaselineRow>, account: string, diff: DriftDiff)
    requires Unique(rows) && Unique(rows')
    requires forall a :: View(rows', a) == if a == account then Patch(View(rows, a), diff) else View(rows, a)
    ensures Folded(rows, rows', account, diff)
  {
    forall row: BaselineRow
      ensures row in rows' <==> Lookup(View(rows', row.account), row.resourceId) == Some(row.config)
    {
      RowsMatchView(rows', row);
    }
    forall row: BaselineRow
      ensures row in rows <==> Lookup(View(rows, row.account), row.resourceId) == Some(row.config)
    {
      RowsMatchView(rows, row);
    }
  }

  /** The table reads like before but for one account. */
  ghost predicate Overlaid(before: seq<BaselineRow>, rows: seq<BaselineRow>, account: string, m: Snapshot) {
    forall a :: View(rows, a) == if a == account then m else View(before, a)
  }

  lemma OverlayMore(before: seq<BaselineRow>, rows: seq<BaselineRow>, account: string, m: Snapshot, row: BaselineRow)
    requires Overlaid(before, rows, account, m) && row.account == account && row.resourceId !in m
    ensures Overlaid(before, rows + [row], account, m[row.resourceId := row.config])
    ensures Unique(rows) ==> Unique(rows + [row])
  {
    assert View(rows, account) == m;
    InsertRow(rows, row);
  }

  /** The rows hold exactly the snapshot's configurations of these resources. */
  ghost predicate AreRowsOf(rows: seq<BaselineRow>, account: string, current: Snapshot, rids: set<string>) {
    && (forall i | 0 <= i < |rows| ::
          var row := rows[i];
          row.account == account && row.resourceId in current && row.config == current[row.resourceId])
    && (forall rid | rid in rids :: rid in current && BaselineRow(account, rid, current[rid]) in rows)
  }

  lemma MoreRowsOf(rows: seq<BaselineRow>, account: string, current: Snapshot, rids: set<string>, rid: string)
    requires AreRowsOf(rows, account, current, rids) && rid in current
    ensures AreRowsOf(rows + [BaselineRow(account, rid, current[rid])], account, current, rids + {rid})
  {
  }

  // ----- the tables as an object --------------------------------------------------

  class Tables {
    var baselines: seq<BaselineRow>
    var events: seq<DriftEvent>
    var violations: set<nat>

    function Abs(): State
      reads this
    {
      State(baselines, events, violations)
    }

    constructor ()
      ensures Abs() == State([], [], {})
    {
      baselines, events, violations := [], [], {};
    }

    /** Compare the account's resources with its baseline; the first run establishes the baseline. */
    method RunDriftCheck(org: string, account: string, current: Snapshot) returns (recorded: seq<DriftEvent>)
      modifies this
      ensures Unique(old(baselines)) ==> Step(old(Abs()), Check(org, account, current), Abs())
      ensures events == old(events) + recorded && violations == old(violations)
      ensures forall e | e in recorded :: e.org == org && e.account == account && e.status == PendingReview
      ensures forall e | e in recorded ::
                && (e.diff.driftType == Created <==> e.diff.before.None?)
                && (e.diff.driftType == Deleted <==> e.diff.after.None?)
                && e.diff.after == (if e.diff.resourceId in current then Some(current[e.diff.resourceId]) else None)
      ensures (exists i | 0 <= i < |old(baselines)| :: old(baselines)[i].account == account) ==>
                baselines == old(baselines)
      ensures (forall i | 0 <= i < |old(baselines)| :: old(baselines)[i].account != account) ==>
                && recorded == []
                && old(baselines) <= baselines
                && AreRowsOf(baselines[|old(baselines)|..], account, current, current.Keys)
    {
      var baseline := View(baselines, account);
      RowlessIff(baselines, account);
      recorded := [];
      if baseline == map[] {
        Adopt(account, current);
      } else {
        var drifts := DiffSnapshots(baseline, current);
        recorded := EventsOf(org, account, drifts);
        events := events + recorded;
        forall e | e in recorded ensures e.diff in drifts {
        }
      }
    }

    /** Add one row per resource of the snapshot. */
    method Adopt(account: string, current: Snapshot)
      requires View(baselines, account) == map[]
      modifies this`baselines
      ensures Unique(old(baselines)) ==> Unique(baselines)
      ensures forall a :: View(baselines, a) == if a == account then current else View(old(baselines), a)
      ensures old(baselines) <= baselines
      ensures AreRowsOf(baselines[|old(baselines)|..], account, current, current.Keys)
    {
      var todo := current.Keys;
      ghost var adopted: Snapshot := map[];
      ghost var added: seq<BaselineRow> := [];
      while todo != {}
        invariant todo <= current.Keys && adopted.Keys == current.Keys - todo
        invariant forall rid | rid in adopted :: adopted[rid] == current[rid]
        invariant Unique(old(baselines)) ==> Unique(baselines)
        invariant Overlaid(old(baselines), baselines, account, adopted)
        invariant baselines == old(baselines) + added
        invariant AreRowsOf(added, account, current, adopted.Keys)
        decreases todo
      {
        var rid :| rid in todo;
        var row := BaselineRow(account, rid, current[rid]);
        OverlayMore(old(baselines), baselines, account, adopted, row);
        MoreRowsOf(added, account, current, adopted.Keys, rid);
        baselines, added := baselines + [row], added + [row];
        todo, adopted := todo - {rid}, adopted[rid := current[rid]];
      }
      assert adopted == current;
    }

    /** The rows of one resource, by position. */
    method Query(account: string, rid: string) returns (hits: seq<nat>)
      ensures forall i | 0 <= i < |hits| :: hits[i] < |baselines| && IsRowOf(baselines[hits[i]], account, rid)
      ensures forall i, j | 0 <= i < j < |hits| :: hits[i] < hits[j]
      ensures forall k: nat | k < |baselines| && IsRowOf(baselines[k], account, rid) :: k in hits
    {
      hits := [];
      for k := 0 to |baselines|
        invariant forall i | 0 <= i < |hits| :: hits[i] < k && IsRowOf(baselines[hits[i]], account, rid)
        invariant forall i, j | 0 <= i < j < |hits| :: hits[i] < hits[j]
        invariant forall j: nat | j < k && IsRowOf(baselines[j], account, rid) :: j in hits
      {
        if IsRowOf(baselines[k], account, rid) {
          hits := hits + [k];
        }
      }
    }

    /** Fold one event's after-state into the baseline.  The row query fails on duplicate rows, which
        leaves the tables as they were; unique rows never fail. */
    method ApproveDrift(org: string, id: nat) returns (r: Result<DriftEvent, StoreError>)
      modifies this
      ensures r == Err(NotFound) <==> !old(Visible(Abs(), org, id))
      ensures r.Err? ==> Abs() == old(Abs())
      ensures r == Err(MultipleResultsFound) <==>
              && old(Visible(Abs(), org, id))
              && Duplicated(old(baselines), old(events[id]).account, old(events[id]).diff.resourceId)
      ensures r.Ok? ==> id < |events| && r.value == events[id]
      ensures Unique(old(baselines)) ==> Step(old(Abs()), Approve(org, id), Abs())
      ensures r == Err(NotFound) <==> !(id < |old(events)| && old(events)[id].org == org)
      ensures r.Ok? ==> r.value == old(events)[id].(status := Approved) && events == old(events)[id := r.value]
      ensures violations == old(violations)
      ensures r.Ok? && Unique(old(baselines)) ==>
                Folded(old(baselines), baselines, old(events)[id].account, old(events)[id].diff)
    {
      if id >= |events| || events[id].org != org {
        return Err(NotFound);
      }
      var evt := events[id].(status := Approved);
      var unique := FoldIntoBaseline(evt.account, evt.diff);
      if !unique {
        return Err(MultipleResultsFound);
      }
      if Unique(old(baselines)) {
        PatchedIsFolded(old(baselines), baselines, evt.account, evt.diff);
      }
      events := events[id := evt];
      r := Ok(evt);
    }

    /** Update, add or delete the one row of the event's resource. */
    method FoldIntoBaseline(account: string, diff: DriftDiff) returns (unique: bool)
      modifies this`baselines
      ensures unique <==> !Duplicated(old(baselines), account, diff.resourceId)
      ensures !unique ==> baselines == old(baselines)
      ensures Unique(old(baselines)) ==> unique && Unique(baselines)
      ensures Unique(old(baselines)) ==>
                forall a :: View(baselines, a) ==
                            if a == account then Patch(View(old(baselines), a), diff) else View(old(baselines), a)
    {
      var hits := Query(account, diff.resourceId);
      if |hits| > 1 {
        assert IsRowOf(baselines[hits[1]], baselines[hits[0]].account, baselines[hits[0]].resourceId);
        assert Duplicated(baselines, account, diff.resourceId) by {
          var i, j := hits[0], hits[1];
          assert IsRowOf(baselines[i], account, diff.resourceId);
          assert i < j && IsRowOf(baselines[j], account, diff.resourceId);
        }
        return false;
      }
      ViewDomain(baselines, account, diff.resourceId);
      if diff.after.None? && |hits| == 1 {
        if Unique(baselines) {
          RowDeleted(baselines, hits[0]);
        }
        baselines := baselines[..hits[0]] + baselines[hits[0] + 1..];
      } else if |hits| == 1 {
        if Unique(baselines) {
          UpdateRow(baselines, hits[0], diff.after.value);
        }
        baselines := baselines[hits[0] := baselines[hits[0]].(config := diff.after.value)];
      } else if diff.after.Some? {
        InsertRow(baselines, BaselineRow(account, diff.resourceId, diff.after.value));
        baselines := baselines + [BaselineRow(account, diff.resourceId, diff.after.value)];
      } else {
        assert Patch(View(baselines, account), diff) == View(baselines, account);
      }
      unique := true;
    }

    /** Mark an event as a violation and record its finding, once: the finding's unique hash makes a
        second rejection fail at commit and undo the whole request. */
    method RejectDrift(org: string, id: nat) returns (r: Result<DriftEvent, StoreError>)
      modifies this
      ensures Step(old(Abs()), Reject(org, id), Abs())
      ensures r == Err(NotFound) <==> !old(Visible(Abs(), org, id))
      ensures r == Err(UniqueViolation) <==> old(Visible(Abs(), org, id)) && id in old(violations)
      ensures r.Ok? ==> id < |events| && r.value == events[id]
      ensures r == Err(NotFound) <==> !(id < |old(events)| && old(events)[id].org == org)
      ensures r.Ok? ==> r.value == old(events)[id].(status := Violation) && events == old(events)[id := r.value]
      ensures violations == if r.Ok? then old(violations) + {id} else old(violations)
      ensures baselines == old(baselines) && (r.Err? ==> events == old(events))
    {
      if id >= |events| || events[id].org != org {
        return Err(NotFound);
      }
      if id in violations {
        return Err(UniqueViolation);
      }
      var evt := events[id].(status := Violation);
      events, violations := events[id := evt], violations + {id};
      r := Ok(evt);
    }
  }

  // ----- whole runs ------------------------------------------------------------------

  /** `states` is a run of `ops` from empty tables. */
  ghost predicate IsRun(states: seq<State>, ops: seq<Op>) {
    && |states| == |ops| + 1
    && states[0] == State([], [], {})
    && forall i: nat | i < |ops| :: StepAt(states, ops, i)
  }

  ghost predicate StepAt(states: seq<State>, ops: seq<Op>, i: nat)
    requires i < |ops| < |states|
  {
    Step(states[i], ops[i], states[i + 1])
  }

  /** The operation decides the baseline entry of the resource: it approves one of its events, or the
      account adopts a snapshot. */
  predicate Decides(s: State, op: Op, account: string, rid: string) {
    match op
    case Check(_, target, _) => target == account && Adopts(s, account)
    case Approve(org, id) =>
      Visible(s, org, id) && s.events[id].account == account && s.events[id].diff.resourceId == rid
    case Reject(_, _) => false
  }

  function Decision(s: State, op: Op, account: string, rid: string): Option<Config>
    requires Decides(s, op, account, rid)
  {
    if op.Check? then Lookup(op.current, rid) else s.events[op.id].diff.after
  }

  /** Reference definition of a baseline entry: look back for the last decision about the resource. */
  function LastDecision(states: seq<State>, ops: seq<Op>, n: nat, account: string, rid: string): Option<Config>
    requires n <= |ops| < |states|
    decreases n
  {
    if n == 0 then None
    else if Decides(states[n - 1], ops[n - 1], account, rid) then Decision(states[n - 1], ops[n - 1], account, rid)
    else LastDecision(states, ops, n - 1, account, rid)
  }

  lemma StepDecides(s: State, op: Op, s': State, account: string, rid: string)
    requires Step(s, op, s')
    ensures Unique(s.baselines) ==> Unique(s'.baselines)
    ensures Lookup(View(s'.baselines, account), rid) ==
            if Decides(s, op, account, rid) then Decision(s, op, account, rid)
            else Lookup(View(s.baselines, account), rid)
  {
    if op.Check? || (op.Approve? && Visible(s, op.org, op.id)) {
      var view := View(s'.baselines, account);
    }
  }

  ghost predicate EntryIsLast(states: seq<State>, ops: seq<Op>, n: nat, account: string, rid: string)
    requires n <= |ops| < |states|
  {
    && Unique(states[n].baselines)
    && Lookup(View(states[n].baselines, account), rid) == LastDecision(states, ops, n, account, rid)
  }

  lemma EntryStaysLast(states: seq<State>, ops: seq<Op>, n: nat, account: string, rid: string)
    requires n < |ops| < |states| && StepAt(states, ops, n)
    requires EntryIsLast(states, ops, n, account, rid)
    ensures EntryIsLast(states, ops, n + 1, account, rid)
  {
    StepDecides(states[n], ops[n], states[n + 1], account, rid);
  }

  /** In every run the baseline table is a map, and each entry is what the last decision about that
      resource put there. */
  lemma {:induction false} BaselineIsLastDecision(states: seq<State>, ops: seq<Op>, n: nat, account: string,
      rid: string)
    requires IsRun(states, ops) && n <= |ops|
    ensures Unique(states[n].baselines)
    ensures Lookup(View(states[n].baselines, account), rid) == LastDecision(states, ops, n, account, rid)
    decreases n
  {
    if n > 0 {
      BaselineIsLastDecision(states, ops, n - 1, account, rid);
      assert StepAt(states, ops, n - 1);
      EntryStaysLast(states, ops, n - 1, account, rid);
    }
  }

  /** Over every run, a check finds the account without a baseline exactly when no decision so far left
      any of its resources one: before the first nonempty snapshot, and after approved removals of all. */
  lemma AdoptsIffUndecided(states: seq<State>, ops: seq<Op>, n: nat, account: string)
    requires IsRun(states, ops) && n <= |ops|
    ensures Adopts(states[n], account) <==> forall rid :: LastDecision(states, ops, n, account, rid) == None
  {
    if Adopts(states[n], account) {
      forall rid ensures LastDecision(states, ops, n, account, rid) == None {
        BaselineIsLastDecision(states, ops, n, account, rid);
      }
    } else if rid :| rid in View(states[n].baselines, account) {
      BaselineIsLastDecision(states, ops, n, account, rid);
      assert LastDecision(states, ops, n, account, rid) != None;
    }
  }

  /** "Only the first run sets the baseline without a review": exactly when a check changes the baseline,
      and it then records no event. */
  lemma CheckRewritesBaselineIff(states: seq<State>, ops: seq<Op>, n: nat)
    requires IsRun(states, ops) && n < |ops| && ops[n].Check?
    ensures View(states[n + 1].baselines, ops[n].account) != View(states[n].baselines, ops[n].account) <==>
            && ops[n].current != map[]
            && forall rid :: LastDecision(states, ops, n, ops[n].account, rid) == None
    ensures View(states[n + 1].baselines, ops[n].account) != View(states[n].baselines, ops[n].account) ==>
            states[n + 1].events == states[n].events && View(states[n + 1].baselines, ops[n].account) == ops[n].current
  {
    AdoptsIffUndecided(states, ops, n, ops[n].account);
    assert StepAt(states, ops, n);
  }

  /** A run of approvals only: the account's map is patched by the approved events in order. */
  lemma {:induction false} ApprovalsPatch(states: seq<State>, ids: seq<nat>, org: string, account: string)
    requires |states| == |ids| + 1
    requires forall i | 0 <= i < |ids| :: ids[i] < |states[0].events|
    requires forall i | 0 <= i < |ids| :: Visible(states[0], org, ids[i]) && states[0].events[ids[i]].account == account
    requires forall i | 0 <= i < |ids| :: Step(states[i], Approve(org, ids[i]), states[i + 1])
    ensures |states[|ids|].events| == |states[0].events|
    ensures forall k | 0 <= k < |states[0].events| ::
              states[|ids|].events[k].(status := PendingReview) == states[0].events[k].(status := PendingReview)
    ensures View(states[|ids|].baselines, account) ==
            PatchAll(View(states[0].baselines, account), DiffsOf(states[0], ids))
  {
    if ids != [] {
      var n := |ids| - 1;
      ApprovalsPatch(states[..n + 1], ids[..n], org, account);
      assert Step(states[n], Approve(org, ids[n]), states[n + 1]);
      assert DiffsOf(states[0], ids)[..n] == DiffsOf(states[0], ids[..n]);
      assert states[n].events[ids[n]].(status := PendingReview) == states[0].events[ids[n]].(status := PendingReview);
    }
  }

  function DiffsOf(s: State, ids: seq<nat>): seq<DriftDiff>
    requires forall i | 0 <= i < |ids| :: ids[i] < |s.events|
  {
    seq(|ids|, i requires 0 <= i < |ids| => s.events[ids[i]].diff)
  }

  lemma ApprovedAreRecorded(s: State, s0: State, org: string, account: string, ds: seq<DriftDiff>, ids: seq<nat>)
    requires s0.events == s.events + EventsOf(org, account, ds)
    requires forall i | 0 <= i < |ids| :: |s.events| <= ids[i] < |s0.events|
    requires forall k: nat | |s.events| <= k < |s0.events| :: k in ids
    ensures forall d | d in ds :: d in DiffsOf(s0, ids)
    ensures forall a | a in DiffsOf(s0, ids) :: a in ds
  {
    var approved := DiffsOf(s0, ids);
    assert forall j | 0 <= j < |ids| :: approved[j] == ds[ids[j] - |s.events|];
    forall d | d in ds ensures d in approved {
      var i :| 0 <= i < |ds| && ds[i] == d;
      assert |s.events| + i in ids;
      var j :| 0 <= j < |ids| && ids[j] == |s.events| + i;
      assert approved[j] == d;
    }
  }

  /** The review loop closes: record a check's events, approve each of them at least once in any order,
      and the next check of the same snapshot records nothing. */
  lemma ReviewedCheckIsQuiet(s: State, org: string, account: string, current: Snapshot,
                             states: seq<State>, ids: seq<nat>, last: State)
    requires |states| == |ids| + 1
    requires !Adopts(s, account) && CheckStep(s, org, account, current, states[0])
    requires forall i | 0 <= i < |ids| :: |s.events| <= ids[i] < |states[0].events|
    requires forall k: nat | |s.events| <= k < |states[0].events| :: k in ids
    requires forall i | 0 <= i < |ids| :: Step(states[i], Approve(org, ids[i]), states[i + 1])
    requires CheckStep(states[|ids|], org, account, current, last)
    ensures last.events == states[|ids|].events
  {
    var base := View(s.baselines, account);
    var ds :| IsDiff(base, current, ds) && states[0].events == s.events + EventsOf(org, account, ds);
    ApprovalsPatch(states, ids, org, account);
    var approved := DiffsOf(states[0], ids);
    ApprovedAreRecorded(s, states[0], org, account, ds, ids);
    if !Adopts(states[|ids|], account) {
      var again :| IsDiff(View(states[|ids|].baselines, account), current, again)
                   && last.events == states[|ids|].events + EventsOf(org, account, again);
      ApprovingAllClearsDrift(base, current, ds, approved, again);
    }
  }

  /** Once every resource of an account is gone and that is approved, the next check adopts whatever it
      finds without an event to review. */
  lemma EmptiedAccountAdoptsSilently(s: State, org: string, account: string, states: seq<State>, ids: seq<nat>,
                                     found: Snapshot, last: State)
    requires |states| == |ids| + 1
    requires !Adopts(s, account) && CheckStep(s, org, account, map[], states[0])
    requires forall i | 0 <= i < |ids| :: |s.events| <= ids[i] < |states[0].events|
    requires forall k: nat | |s.events| <= k < |states[0].events| :: k in ids
    requires forall i | 0 <= i < |ids| :: Step(states[i], Approve(org, ids[i]), states[i + 1])
    requires CheckStep(states[|ids|], org, account, found, last)
    ensures last.events == states[|ids|].events
    ensures View(last.baselines, account) == found
  {
    AllRemoved(s, org, account, states, ids);
  }

  lemma AllRemoved(s: State, org: string, account: string, states: seq<State>, ids: seq<nat>)
    requires |states| == |ids| + 1
    requires !Adopts(s, account) && CheckStep(s, org, account, map[], states[0])
    requires forall i | 0 <= i < |ids| :: |s.events| <= ids[i] < |states[0].events|
    requires forall k: nat | |s.events| <= k < |states[0].events| :: k in ids
    requires forall i | 0 <= i < |ids| :: Step(states[i], Approve(org, ids[i]), states[i + 1])
    ensures Adopts(states[|ids|], account)
  {
    var base := View(s.baselines, account);
    var ds :| IsDiff(base, map[], ds) && states[0].events == s.events + EventsOf(org, account, ds);
    ApprovalsPatch(states, ids, org, account);
    var approved := DiffsOf(states[0], ids);
    ApprovedAreRecorded(s, states[0], org, account, ds, ids);
    NothingLeft(base, ds, approved);
  }

  lemma NothingLeft(base: Snapshot, ds: seq<DriftDiff>, approved: seq<DriftDiff>)
    requires IsDiff(base, map[], ds)
    requires forall a | a in approved :: a in ds
    requires forall d | d in ds :: d in approved
    ensures PatchAll(base, approved) == map[]
  {
    var again := EmptyDiffExists(base, ds, approved);
    ApprovingAllClearsDrift(base, map[], ds, approved, again);
  }

  lemma EmptyDiffExists(base: Snapshot, ds: seq<DriftDiff>, approved: seq<DriftDiff>) returns (again: seq<DriftDiff>)
    requires IsDiff(base, map[], ds)
    requires forall a | a in approved :: a in ds
    requires forall d | d in ds :: d in approved
    ensures IsDiff(PatchAll(base, approved), map[], again)
  {
    again := [];
    forall rid ensures !Differs(PatchAll(base, approved), map[], rid) {
      ApprovedSubset(base, map[], ds, approved, rid);
      if Differs(base, map[], rid) {
        var i :| 0 <= i < |ds| && ds[i].resourceId == rid;
        assert ds[i] in approved;
        var j :| 0 <= j < |approved| && approved[j] == ds[i];
      }
    }
  }
}
