/** Recordings interleaved with retention purges: a purge that keeps only the newer part of an org's log
    takes away the row that starts the chain. */
module AuditPurge {
  import opened Audit
  import opened AuditRace
  import opened Seqs
  import opened Wrappers

  datatype Live = Live(rows: seq<Entry>, open: map<nat, Window>)

  datatype Step = Record(action: Action) | Purge(cutoff: int)

  /** The state as the recording steps see it. */
  function Recording(s: Live): State {
    State(s.rows, [], s.open)
  }

  ghost predicate CanStep(s: Live, step: Step) {
    step.Record? ==> Enabled(Recording(s), step.action)
  }

  function After(h: Hash, s: Live, step: Step): Live
    requires step.Purge? || step.action.Read? || step.action.w in s.open
  {
    match step
    case Record(action) => var next := Next(h, Recording(s), action); Live(next.rows, next.open)
    case Purge(cutoff) => s.(rows := Filter(s.rows, Retained(cutoff)))
  }

  ghost predicate IsHistory(h: Hash, states: seq<Live>, steps: seq<Step>) {
    && |states| == |steps| + 1
    && forall i | 0 <= i < |steps| :: CanStep(states[i], steps[i]) && states[i + 1] == After(h, states[i], steps[i])
  }

  // ----- every stored row carries a digest -----------------------------------------------------

  predicate Digested(e: Entry) {
    e.entryHash.Some? && |e.entryHash.value| == 64
  }

  ghost predicate AllDigested(s: Live) {
    && (forall i | 0 <= i < |s.rows| :: Digested(s.rows[i]))
    && (forall w | w in s.open && s.open[w].prev.Some? :: Digested(s.open[w].prev.value))
  }

  lemma StepKeepsDigests(h: Hash, s: Live, step: Step)
    requires IsDigest(h) && AllDigested(s) && CanStep(s, step)
    ensures AllDigested(After(h, s, step))
  {
    var t := After(h, s, step);
    if step.Purge? {
      forall i | 0 <= i < |t.rows| ensures Digested(t.rows[i]) {
        FilterMembers(s.rows, Retained(step.cutoff), t.rows[i]);
      }
    }
  }

  lemma {:induction false} HistoryKeepsDigests(h: Hash, states: seq<Live>, steps: seq<Step>, n: nat)
    requires IsDigest(h) && IsHistory(h, states, steps) && AllDigested(states[0]) && n <= |steps|
    ensures AllDigested(states[n])
  {
    if n > 0 {
      HistoryKeepsDigests(h, states, steps, n - 1);
      StepKeepsDigests(h, states[n - 1], steps[n - 1]);
    }
  }

  // ----- headless logs ---------------------------------------------------------------------------

  ghost predicate HasRows(rows: seq<Entry>, org: Option<string>) {
    exists i | 0 <= i < |rows| :: rows[i].org == org
  }

  /** The org has rows but none starts a chain. */
  ghost predicate Headless(rows: seq<Entry>, org: Option<string>) {
    && HasRows(rows, org)
    && forall i | 0 <= i < |rows| && rows[i].org == org :: rows[i].prevHash != Some(GENESIS)
  }

  /** A request of the org that found no row and has not written yet. */
  ghost predicate FreshStart(s: Live, org: Option<string>) {
    exists w | w in s.open :: s.open[w].org == org && s.open[w].prev.None?
  }

  lemma OnlyFirstStarts(h: Hash, log: seq<Entry>, i: nat)
    requires IsDigest(h) && ChainValid(h, log) && i < |log|
    ensures log[i].prevHash == Some(GENESIS) <==> i == 0
  {
    assert LinkedAt(h, log, i);
    if i > 0 {
      assert LinkedAt(h, log, i - 1);
    }
  }

  lemma KeptIsLogged(rows: seq<Entry>, org: Option<string>, log: seq<Entry>, cutoff: int, j: nat) returns (q: nat)
    requires IsOrdered(rows, org, log)
    requires j < |Filter(rows, Retained(cutoff))| && Filter(rows, Retained(cutoff))[j].org == org
    ensures q < |log| && log[q] == Filter(rows, Retained(cutoff))[j] && log[q].ts >= cutoff
  {
    var e := Filter(rows, Retained(cutoff))[j];
    FilterMembers(rows, Retained(cutoff), e);
    InLog(rows, org, log, e);
    q :| 0 <= q < |log| && log[q] == e;
  }

  lemma LoggedIsKept(rows: seq<Entry>, org: Option<string>, log: seq<Entry>, cutoff: int, q: nat) returns (j: nat)
    requires IsOrdered(rows, org, log) && q < |log| && log[q].ts >= cutoff
    ensures j < |Filter(rows, Retained(cutoff))| && Filter(rows, Retained(cutoff))[j] == log[q] && log[q].org == org
  {
    InLog(rows, org, log, log[q]);
    FilterMembers(rows, Retained(cutoff), log[q]);
    j :| 0 <= j < |Filter(rows, Retained(cutoff))| && Filter(rows, Retained(cutoff))[j] == log[q];
  }

  /** Exactly when a purge beheads an honest log: it removes the oldest row and keeps another one. */
  lemma BeheadedIff(h: Hash, rows: seq<Entry>, org: Option<string>, log: seq<Entry>, cutoff: int)
    requires IsDigest(h) && IsOrdered(rows, org, log) && Honest(h, log)
    ensures Headless(Filter(rows, Retained(cutoff)), org) <==>
            log != [] && log[0].ts < cutoff && exists i | 0 <= i < |log| :: log[i].ts >= cutoff
  {
    var kept := Filter(rows, Retained(cutoff));
    if Headless(kept, org) {
      var i :| 0 <= i < |kept| && kept[i].org == org;
      var q := KeptIsLogged(rows, org, log, cutoff, i);
      if log[0].ts >= cutoff {
        var j := LoggedIsKept(rows, org, log, cutoff, 0);
        OnlyFirstStarts(h, log, 0);
      }
    }
    if log != [] && log[0].ts < cutoff && exists i | 0 <= i < |log| :: log[i].ts >= cutoff {
      var i :| 0 <= i < |log| && log[i].ts >= cutoff;
      var j := LoggedIsKept(rows, org, log, cutoff, i);
      forall j | 0 <= j < |kept| && kept[j].org == org ensures kept[j].prevHash != Some(GENESIS) {
        var q := KeptIsLogged(rows, org, log, cutoff, j);
        OnlyFirstStarts(h, log, q);
      }
    }
  }

  lemma InLog(rows: seq<Entry>, org: Option<string>, log: seq<Entry>, e: Entry)
    requires IsOrdered(rows, org, log)
    ensures e in log <==> e in rows && e.org == org
  {
    FilterMembers(rows, OfOrg(org), e);
    assert e in log <==> e in multiset(log);
    assert e in OrgRows(rows, org) <==> e in multiset(OrgRows(rows, org));
  }

  lemma HeadlessFails(h: Hash, rows: seq<Entry>, org: Option<string>, es: seq<Entry>)
    requires Headless(rows, org) && IsOrdered(rows, org, es)
    ensures !ChainValid(h, es)
  {
    var i :| 0 <= i < |rows| && rows[i].org == org;
    InLog(rows, org, es, rows[i]);
    InLog(rows, org, es, es[0]);
    assert !LinkedAt(h, es, 0);
  }

  lemma NoRowsNoLog(rows: seq<Entry>, org: Option<string>, es: seq<Entry>)
    requires !HasRows(rows, org) && IsOrdered(rows, org, es)
    ensures es == []
  {
    FilterEmpty(rows, OfOrg(org));
  }

  /** No step gives a headless log a new head while rows are left and no fresh start is pending. */
  lemma StepStaysHeadless(h: Hash, s: Live, step: Step, org: Option<string>)
    requires IsDigest(h) && AllDigested(s) && CanStep(s, step)
    requires Headless(s.rows, org) && !FreshStart(s, org)
    requires HasRows(After(h, s, step).rows, org)
    ensures Headless(After(h, s, step).rows, org) && !FreshStart(After(h, s, step), org)
  {
    var t := After(h, s, step);
    if step.Purge? {
      forall i | 0 <= i < |t.rows| && t.rows[i].org == org ensures t.rows[i].prevHash != Some(GENESIS) {
        FilterMembers(s.rows, Retained(step.cutoff), t.rows[i]);
      }
    }
  }

  lemma {:induction false} StaysHeadless(h: Hash, states: seq<Live>, steps: seq<Step>, n: nat, m: nat,
                                         org: Option<string>)
    requires IsDigest(h) && IsHistory(h, states, steps) && AllDigested(states[0]) && n <= m <= |steps|
    requires Headless(states[n].rows, org) && !FreshStart(states[n], org)
    requires forall i | n <= i <= m :: HasRows(states[i].rows, org)
    ensures Headless(states[m].rows, org) && !FreshStart(states[m], org)
  {
    if n < m {
      StaysHeadless(h, states, steps, n, m - 1, org);
      HistoryKeepsDigests(h, states, steps, m - 1);
      assert HasRows(states[m].rows, org) && states[m - 1 + 1] == After(h, states[m - 1], steps[m - 1]);
      StepStaysHeadless(h, states[m - 1], steps[m - 1], org);
    }
  }

  /** Once a purge has beheaded an honest log, the log verifies again only when its last row is gone:
      whatever is recorded, however recordings interleave, and whatever further purges remove. */
  lemma BrokenUntilEmptied(h: Hash, states: seq<Live>, steps: seq<Step>, n: nat, m: nat, org: Option<string>,
                           log: seq<Entry>, es: seq<Entry>)
    requires IsDigest(h) && IsHistory(h, states, steps) && states[0] == Live([], map[])
    requires n < m <= |steps| && steps[n].Purge?
    requires IsOrdered(states[n].rows, org, log) && Honest(h, log) && !FreshStart(states[n], org)
    requires log != [] && log[0].ts < steps[n].cutoff
    requires exists i | 0 <= i < |log| :: log[i].ts >= steps[n].cutoff
    requires forall i | n < i < m :: HasRows(states[i].rows, org)
    requires IsOrdered(states[m].rows, org, es)
    ensures ChainValid(h, es) <==> es == []
  {
    BeheadedIff(h, states[n].rows, org, log, steps[n].cutoff);
    if HasRows(states[m].rows, org) {
      StaysHeadless(h, states, steps, n + 1, m, org);
      HeadlessFails(h, states[m].rows, org, es);
    } else {
      NoRowsNoLog(states[m].rows, org, es);
    }
  }

  // ----- the exact side condition ----------------------------------------------------------------

  /** A continuation in which the org never runs out of rows and that ends in a log that verifies. */
  ghost predicate Revival(h: Hash, s: Live, org: Option<string>, states: seq<Live>, steps: seq<Step>,
                          es: seq<Entry>)
  {
    && IsHistory(h, states, steps) && states[0] == s
    && (forall i | 0 <= i <= |steps| :: HasRows(states[i].rows, org))
    && IsOrdered(states[|steps|].rows, org, es) && ChainValid(h, es)
  }

  /** A headless log can come back to life without being emptied exactly when some request had read the
      log before it had rows and is still to write. */
  lemma RevivableIff(h: Hash, s: Live, org: Option<string>)
    requires IsDigest(h) && AllDigested(s) && Headless(s.rows, org)
    ensures FreshStart(s, org) <==> exists states, steps, es :: Revival(h, s, org, states, steps, es)
  {
    if FreshStart(s, org) {
      var w :| w in s.open && s.open[w].org == org && s.open[w].prev.None?;
      var states, steps, es := Revive(h, s, org, w);
    } else if states: seq<Live>, steps: seq<Step>, es: seq<Entry> :| Revival(h, s, org, states, steps, es) {
      StaysHeadless(h, states, steps, 0, |steps|, org);
      HeadlessFails(h, states[|steps|].rows, org, es);
    }
  }

  lemma NewestTime(rows: seq<Entry>) returns (t: int)
    ensures forall i | 0 <= i < |rows| :: rows[i].ts < t
  {
    t := 0;
    for n := 0 to |rows|
      invariant forall i | 0 <= i < n :: rows[i].ts < t
    {
      if rows[n].ts >= t {
        t := rows[n].ts + 1;
      }
    }
  }

  /** The pending request writes a new first row, and a purge removes all older ones. */
  lemma Revive(h: Hash, s: Live, org: Option<string>, w: nat)
    returns (states: seq<Live>, steps: seq<Step>, es: seq<Entry>)
    requires HasRows(s.rows, org) && w in s.open && s.open[w].org == org && s.open[w].prev.None?
    ensures Revival(h, s, org, states, steps, es)
  {
    var t := NewestTime(s.rows);
    var a := Record(Append(w, Content(None, "", None, None, None, t)));
    var e := FreshAppend(h, s, org, w, a);
    var s1, s2 := Live(s.rows + [e], s.open - {w}), Live([e], s.open - {w});
    OnlyNewest(s.rows, e, t);
    assert s1.rows[|s.rows|] == e;
    OneRowLog(h, e);
    TwoSteps(h, s, s1, s2, a, Purge(t), org, e);
    states, steps, es := [s, s1, s2], [a, Purge(t)], [e];
  }

  lemma FreshAppend(h: Hash, s: Live, org: Option<string>, w: nat, a: Step) returns (e: Entry)
    requires w in s.open && s.open[w].org == org && s.open[w].prev.None?
    requires a.Record? && a.action.Append? && a.action.w == w
    ensures CanStep(s, a) && After(h, s, a) == Live(s.rows + [e], s.open - {w})
    ensures e.org == org && e.ts == a.action.content.ts && SelfConsistent(h, e) && e.prevHash == Some(GENESIS)
  {
    e := Written(h, s.open[w], a.action.content);
  }

  lemma TwoSteps(h: Hash, s: Live, s1: Live, s2: Live, a: Step, b: Step, org: Option<string>, e: Entry)
    requires CanStep(s, a) && s1 == After(h, s, a) && CanStep(s1, b) && s2 == After(h, s1, b)
    requires HasRows(s.rows, org) && HasRows(s1.rows, org) && e.org == org
    requires s2.rows == [e] && IsOrdered([e], org, [e]) && ChainValid(h, [e])
    ensures Revival(h, s, org, [s, s1, s2], [a, b], [e])
  {
    assert s2.rows[0] == e;
  }

  lemma OneRowLog(h: Hash, e: Entry)
    requires SelfConsistent(h, e) && e.prevHash == Some(GENESIS)
    ensures IsOrdered([e], e.org, [e]) && ChainValid(h, [e])
  {
    FilterFull([e], OfOrg(e.org));
  }

  lemma OnlyNewest(rows: seq<Entry>, e: Entry, t: int)
    requires e.ts == t && forall i | 0 <= i < |rows| :: rows[i].ts < t
    ensures Filter(rows + [e], Retained(t)) == [e]
  {
    FilterEmpty(rows, Retained(t));
    FilterConcat(rows, [e], Retained(t));
    FilterFull([e], Retained(t));
  }
}
