/** Interleaved `record_action` requests: each reads the org's last row in one step and appends in a
    later one, and other requests may run in between. */
module AuditRace {
  import opened Audit
  import opened Json
  import opened Seqs
  import opened Wrappers

  /** A request between its read and its append: what it read, and how long the table was then. */
  datatype Window = Window(org: Option<string>, prev: Option<Entry>, at: nat)

  datatype Content = Content(
    user: Option<string>,
    action: string,
    resource: Option<string>,
    meta: Option<Json>,
    ip: Option<string>,
    ts: int)

  /** `origin[i]` is the window that wrote `rows[i]`. */
  datatype State = State(rows: seq<Entry>, origin: seq<Window>, open: map<nat, Window>)

  datatype Action =
    | Read(w: nat, org: Option<string>, prev: Option<Entry>)
    | Append(w: nat, content: Content)
    | Fail(w: nat)

  ghost predicate Enabled(s: State, a: Action) {
    match a
    case Read(w, org, prev) => w !in s.open && IsLast(s.rows, org, prev)
    case _ => a.w in s.open
  }

  /** The append step of the window `w`. */
  function Written(h: Hash, w: Window, c: Content): Entry {
    NewEntry(h, w.prev, w.org, c.user, c.action, c.resource, c.meta, c.ip, c.ts)
  }

  function Next(h: Hash, s: State, a: Action): State
    requires a.Read? || a.w in s.open
  {
    match a
    case Read(w, org, prev) => s.(open := s.open[w := Window(org, prev, |s.rows|)])
    case Append(w, c) => State(s.rows + [Written(h, s.open[w], c)], s.origin + [s.open[w]], s.open - {w})
    case Fail(w) => s.(open := s.open - {w})
  }

  ghost predicate IsRun(h: Hash, states: seq<State>, actions: seq<Action>) {
    && |states| == |actions| + 1
    && states[0] == State([], [], map[])
    && forall i | 0 <= i < |actions| ::
         Enabled(states[i], actions[i]) && states[i + 1] == Next(h, states[i], actions[i])
  }

  /** Two windows of the org both appended, and the later append was read before the earlier one landed. */
  ghost predicate OverlapAt(s: State, org: Option<string>, i: nat, j: nat) {
    i < j < |s.rows| == |s.origin| && s.rows[i].org == org && s.rows[j].org == org && s.origin[j].at <= i
  }

  ghost predicate Overlapped(s: State, org: Option<string>) {
    exists i: nat, j: nat :: OverlapAt(s, org, i, j)
  }

  // ----- the invariant of every run -----------------------------------------------------

  ghost predicate Wrote(h: Hash, w: Window, e: Entry) {
    && e.org == w.org
    && SelfConsistent(h, e)
    && e.seqNo == (if w.prev.Some? then w.prev.value.seqNo + 1 else 1)
    && e.prevHash == (if w.prev.Some? then w.prev.value.entryHash else Some(GENESIS))
  }

  ghost predicate RowInv(h: Hash, s: State, i: nat)
    requires i < |s.rows| && i < |s.origin|
  {
    && s.origin[i].at <= i
    && IsLast(s.rows[..s.origin[i].at], s.rows[i].org, s.origin[i].prev)
    && Wrote(h, s.origin[i], s.rows[i])
    && s.rows[i].seqNo >= 1
  }

  ghost predicate Inv(h: Hash, s: State) {
    && |s.rows| == |s.origin|
    && (forall i: nat | i < |s.rows| :: RowInv(h, s, i))
    && (forall w | w in s.open ::
          s.open[w].at <= |s.rows| && IsLast(s.rows[..s.open[w].at], s.open[w].org, s.open[w].prev))
  }

  lemma WrittenByWindow(h: Hash, s: State, w: Window, c: Content)
    requires IsDigest(h) && Inv(h, s)
    requires w.at <= |s.rows| && IsLast(s.rows[..w.at], w.org, w.prev)
    ensures Wrote(h, w, Written(h, w, c)) && Written(h, w, c).seqNo >= 1
  {
    if w.prev.Some? {
      var k :| 0 <= k < w.at && s.rows[..w.at][k] == w.prev.value;
      assert RowInv(h, s, k);
    }
  }

  lemma StepKeepsInv(h: Hash, s: State, a: Action)
    requires IsDigest(h) && Inv(h, s) && Enabled(s, a)
    ensures Inv(h, Next(h, s, a))
  {
    var s' := Next(h, s, a);
    if a.Append? {
      var n := |s.rows|;
      WrittenByWindow(h, s, s.open[a.w], a.content);
      forall i: nat | i <= n ensures RowInv(h, s', i) {
        if i < n {
          assert RowInv(h, s, i);
        }
        assert s'.rows[..s'.origin[i].at] == s.rows[..s'.origin[i].at];
      }
      forall w | w in s'.open ensures IsLast(s'.rows[..s'.open[w].at], s'.open[w].org, s'.open[w].prev) {
        assert s'.rows[..s'.open[w].at] == s.rows[..s.open[w].at];
      }
    } else {
      forall i: nat | i < |s'.rows| ensures RowInv(h, s', i) {
        assert RowInv(h, s, i);
      }
      assert s.rows[..|s.rows|] == s.rows;
    }
  }

  lemma {:induction false} RunKeepsInv(h: Hash, states: seq<State>, actions: seq<Action>, n: nat)
    requires IsDigest(h) && IsRun(h, states, actions) && n <= |actions|
    ensures Inv(h, states[n])
  {
    if n > 0 {
      RunKeepsInv(h, states, actions, n - 1);
      StepKeepsInv(h, states[n - 1], actions[n - 1]);
    }
  }

  // ----- what the rows of a run say ---------------------------------------------------------------

  /** The read that opened a window still open. */
  lemma {:induction false} OpenedBy(h: Hash, states: seq<State>, actions: seq<Action>, n: nat, w: nat)
    returns (r: nat)
    requires IsRun(h, states, actions) && n <= |actions| && w in states[n].open
    ensures r < n && actions[r].Read? && actions[r].w == w
    ensures states[n].open[w] == Window(actions[r].org, actions[r].prev, |states[r].rows|)
    ensures forall j | r < j < n :: actions[j].w != w
    decreases n
  {
    var a := actions[n - 1];
    assert states[n - 1 + 1] == Next(h, states[n - 1], a);
    if a.Read? && a.w == w {
      r := n - 1;
    } else {
      assert a.w != w;
      r := OpenedBy(h, states, actions, n - 1, w);
    }
  }

  /** The append that wrote a row. */
  lemma {:induction false} WrittenAt(h: Hash, states: seq<State>, actions: seq<Action>, n: nat, i: nat)
    returns (k: nat)
    requires IsRun(h, states, actions) && n <= |actions| && i < |states[n].rows|
    ensures k < n && actions[k].Append? && |states[k].rows| == i && actions[k].w in states[k].open
    ensures states[n].rows[i] == Written(h, states[k].open[actions[k].w], actions[k].content)
    decreases n
  {
    assert states[n - 1 + 1] == Next(h, states[n - 1], actions[n - 1]);
    if i < |states[n - 1].rows| {
      k := WrittenAt(h, states, actions, n - 1, i);
    } else {
      k := n - 1;
    }
  }

  /** Every row of a run was written by an append whose window a read had opened, and nothing touched in
      between.  It holds the content given to that append under the org given to that read; its number and
      link follow the row the read returned, and its hash is the digest of all this. */
  lemma RowTellsItsRecording(h: Hash, states: seq<State>, actions: seq<Action>, n: nat, i: nat)
    returns (r: nat, k: nat)
    requires IsDigest(h) && IsRun(h, states, actions) && n <= |actions| && i < |states[n].rows|
    ensures r < k < n && |states[k].rows| == i
    ensures actions[r].Read? && actions[k].Append? && forall j | r < j < k :: actions[j].w != actions[k].w
    ensures actions[r].w == actions[k].w && IsLast(states[r].rows, actions[r].org, actions[r].prev)
    ensures var e, c := states[n].rows[i], actions[k].content;
            && e.org == actions[r].org && e.user == c.user && e.action == c.action && e.resource == c.resource
            && e.meta == c.meta && e.ip == c.ip && e.ts == c.ts
    ensures var e, prev := states[n].rows[i], actions[r].prev;
            && e.seqNo == (if prev.Some? then prev.value.seqNo + 1 else 1)
            && e.prevHash == (if prev.Some? then prev.value.entryHash else Some("genesis"))
    ensures var e, c := states[n].rows[i], actions[k].content;
            && e.prevHash.Some?
            && e.entryHash == Some(h(Payload(e.prevHash.value, e.seqNo, actions[r].org, c.user, c.action, c.resource,
                                             c.meta, c.ip)))
  {
    k := WrittenAt(h, states, actions, n, i);
    r := OpenedBy(h, states, actions, k, actions[k].w);
    RunKeepsInv(h, states, actions, k);
    assert Enabled(states[r], actions[r]);
    WrittenByWindow(h, states[k], states[k].open[actions[k].w], actions[k].content);
  }

  // ----- without overlap every log is honest ------------------------------------------------

  function Truncate(s: State, n: nat): State
    requires n <= |s.rows| == |s.origin|
  {
    State(s.rows[..n], s.origin[..n], map[])
  }

  lemma TruncateKeepsInv(h: Hash, s: State, n: nat)
    requires Inv(h, s) && n <= |s.rows|
    ensures Inv(h, Truncate(s, n))
  {
    forall i: nat | i < n ensures RowInv(h, Truncate(s, n), i) {
      assert RowInv(h, s, i);
      assert s.rows[..n][..s.origin[i].at] == s.rows[..s.origin[i].at];
    }
  }

  /** The last row of an honest log is the one the query returns. */
  lemma LastOfHonest(h: Hash, rows: seq<Entry>, org: Option<string>, prev: Option<Entry>)
    requires Honest(h, OrgRows(rows, org)) && IsLast(rows, org, prev)
    ensures var es := OrgRows(rows, org); prev == if es == [] then None else Some(es[|es| - 1])
  {
    var es := OrgRows(rows, org);
    if es != [] {
      var top := es[|es| - 1];
      FilterMembers(rows, OfOrg(org), top);
      FilterMembers(rows, OfOrg(org), prev.value);
      var k :| 0 <= k < |es| && es[k] == prev.value;
    } else if prev.Some? {
      FilterMembers(rows, OfOrg(org), prev.value);
    }
  }

  lemma OrgRowsSettled(rows: seq<Entry>, org: Option<string>, at: nat)
    requires at <= |rows| && forall i | at <= i < |rows| :: rows[i].org != org
    ensures OrgRows(rows[..at], org) == OrgRows(rows, org)
  {
    FilterConcat(rows[..at], rows[at..], OfOrg(org));
    FilterEmpty(rows[at..], OfOrg(org));
    assert rows == rows[..at] + rows[at..];
  }

  lemma {:induction false} SequentialIsHonest(h: Hash, s: State, org: Option<string>)
    requires Inv(h, s) && !Overlapped(s, org)
    ensures Honest(h, OrgRows(s.rows, org))
    decreases |s.rows|
  {
    if s.rows != [] {
      var n := |s.rows| - 1;
      var t := Truncate(s, n);
      TruncateKeepsInv(h, s, n);
      forall i: nat, j: nat ensures !OverlapAt(t, org, i, j) {
        assert !OverlapAt(s, org, i, j);
      }
      SequentialIsHonest(h, t, org);
      assert OrgRows(s.rows, org) ==
             if s.rows[n].org == org then OrgRows(t.rows, org) + [s.rows[n]] else OrgRows(t.rows, org);
      if s.rows[n].org == org {
        assert RowInv(h, s, n);
        var at := s.origin[n].at;
        forall i | at <= i < n ensures t.rows[i].org != org {
          assert !OverlapAt(s, org, i, n);
        }
        OrgRowsSettled(t.rows, org, at);
        assert s.rows[..at] == t.rows[..at];
        LastOfHonest(h, s.rows[..at], org, s.origin[n].prev);
        ExtendHonest(h, OrgRows(t.rows, org), s.origin[n], s.rows[n]);
      }
    }
  }

  lemma ExtendHonest(h: Hash, es: seq<Entry>, w: Window, e: Entry)
    requires Honest(h, es) && Wrote(h, w, e)
    requires w.prev == if es == [] then None else Some(es[|es| - 1])
    ensures Honest(h, es + [e])
  {
    forall i: nat | i <= |es| ensures LinkedAt(h, es + [e], i) {
      if i < |es| {
        assert LinkedAt(h, es, i);
      }
    }
  }

  /** A recording that reads and appends with nothing in between extends its org's honest log by one
      entry and leaves every other org's log alone. */
  lemma RecordExtendsHonest(h: Hash, rows: seq<Entry>, org: Option<string>, prev: Option<Entry>, c: Content,
                            other: Option<string>)
    requires IsDigest(h) && Honest(h, OrgRows(rows, org)) && IsLast(rows, org, prev)
    ensures var rows' := rows + [Written(h, Window(org, prev, |rows|), c)];
            && Honest(h, OrgRows(rows', org))
            && |OrgRows(rows', org)| == |OrgRows(rows, org)| + 1
            && (other != org ==> OrgRows(rows', other) == OrgRows(rows, other))
  {
    var w := Window(org, prev, |rows|);
    var e, es := Written(h, w, c), OrgRows(rows, org);
    assert (rows + [e])[..|rows|] == rows;
    LastOfHonest(h, rows, org, prev);
    if es != [] {
      assert LinkedAt(h, es, |es| - 1);
    }
    ExtendHonest(h, es, w, e);
  }

  // ----- with overlap no log verifies --------------------------------------------------------

  lemma SoundOrdered(h: Hash, rows: seq<Entry>, org: Option<string>, es: seq<Entry>)
    requires Sound(h, rows) && IsOrdered(rows, org, es)
    ensures Sound(h, es)
  {
    forall e | e in es ensures e in rows {
      assert e in multiset(es);
      FilterMembers(rows, OfOrg(org), e);
    }
    SoundSubset(h, rows, es);
  }

  /** If some order of the org's rows verifies, no two of its rows name the same predecessor. */
  lemma VerifiedRowsDiffer(h: Hash, rows: seq<Entry>, org: Option<string>, es: seq<Entry>, i: nat, j: nat)
    requires Sound(h, rows) && IsOrdered(rows, org, es) && ChainValid(h, es)
    requires i < j < |rows| && rows[i].org == org && rows[j].org == org
    ensures rows[i].prevHash != rows[j].prevHash
  {
    var x := rows[i].prevHash;
    if rows[j].prevHash == x {
      var same := (e: Entry) => e.prevHash == x;
      var both := (e: Entry) => e.org == org && e.prevHash == x;
      FilterFilter(rows, OfOrg(org), same, both);
      TwoPass(rows, both, i, j);
      FilterPermuted(es, OrgRows(rows, org), same);
      SoundOrdered(h, rows, org, es);
      var p, q := PassTwice(es, same);
      PrevHashesDistinct(h, es, p, q);
    }
  }

  ghost predicate PrevsDiffer(s: State, org: Option<string>) {
    forall i: nat, j: nat | i < j < |s.rows| && s.rows[i].org == org && s.rows[j].org == org ::
      s.rows[i].prevHash != s.rows[j].prevHash
  }

  /** The position of the row a window read. */
  lemma ReadRow(h: Hash, s: State, i: nat) returns (k: nat)
    requires Inv(h, s) && i < |s.rows| && s.origin[i].prev.Some?
    ensures k < s.origin[i].at <= i && s.rows[k] == s.origin[i].prev.value && s.rows[k].org == s.rows[i].org
    ensures s.rows[k].seqNo == s.rows[i].seqNo - 1 && s.rows[i].prevHash == s.rows[k].entryHash
  {
    assert RowInv(h, s, i);
    k :| 0 <= k < s.origin[i].at && s.rows[..s.origin[i].at][k] == s.origin[i].prev.value;
  }

  /** Distinct predecessors force distinct sequence numbers. */
  lemma {:induction false} SeqNosDiffer(h: Hash, s: State, org: Option<string>, i: nat, j: nat)
    requires Inv(h, s) && PrevsDiffer(s, org)
    requires i < |s.rows| && j < |s.rows| && i != j && s.rows[i].org == org && s.rows[j].org == org
    ensures s.rows[i].seqNo != s.rows[j].seqNo
    decreases s.rows[i].seqNo
  {
    FirstRow(h, s, i);
    FirstRow(h, s, j);
    if s.origin[i].prev.Some? && s.origin[j].prev.Some? {
      var a := ReadRow(h, s, i);
      var b := ReadRow(h, s, j);
      assert RowInv(h, s, a);
      if a != b {
        SeqNosDiffer(h, s, org, a, b);
      }
    }
  }

  lemma FirstRow(h: Hash, s: State, i: nat)
    requires Inv(h, s) && i < |s.rows|
    ensures s.origin[i].prev.None? <==> s.rows[i].seqNo == 1
    ensures s.origin[i].prev.None? ==> s.rows[i].prevHash == Some(GENESIS)
  {
    assert RowInv(h, s, i);
    if s.origin[i].prev.Some? {
      var k := ReadRow(h, s, i);
      assert RowInv(h, s, k);
    }
  }

  /** Below any row of the org its smaller sequence numbers all occur. */
  lemma {:induction false} SeqNosPresent(h: Hash, s: State, i: nat, n: int) returns (k: nat)
    requires Inv(h, s) && i < |s.rows| && 1 <= n <= s.rows[i].seqNo
    ensures k <= i && s.rows[k].org == s.rows[i].org && s.rows[k].seqNo == n
  {
    k := i;
    if n < s.rows[i].seqNo {
      assert RowInv(h, s, i);
      var p := ReadRow(h, s, i);
      k := SeqNosPresent(h, s, p, n);
    }
  }

  /** The greatest sequence number a window of the org can have seen. */
  function Seen(w: Window): int {
    if w.prev.Some? then w.prev.value.seqNo else 0
  }

  lemma SeenBounds(h: Hash, s: State, org: Option<string>, j: nat, k: nat)
    requires Inv(h, s) && j < |s.rows| && s.rows[j].org == org
    requires k < s.origin[j].at && k < |s.rows| && s.rows[k].org == org
    ensures s.rows[k].seqNo <= Seen(s.origin[j])
  {
    assert RowInv(h, s, j);
    assert s.rows[..s.origin[j].at][k] == s.rows[k];
  }

  lemma OverlapRepeatsSeqNo(h: Hash, s: State, org: Option<string>, i: nat, j: nat) returns (a: nat, b: nat)
    requires Inv(h, s) && OverlapAt(s, org, i, j)
    ensures a < |s.rows| && b < |s.rows| && a != b && s.rows[a].org == org && s.rows[b].org == org
    ensures s.rows[a].seqNo == s.rows[b].seqNo
  {
    var r := s.origin[j].at;
    a := r;
    while s.rows[a].org != org
      invariant r <= a <= i && forall k | r <= k < a :: s.rows[k].org != org
      decreases i - a
    {
      a := a + 1;
    }
    assert RowInv(h, s, a) && RowInv(h, s, j);
    var m := Seen(s.origin[j]);
    if s.origin[a].prev.Some? {
      var p := ReadRow(h, s, a);
      SeenBounds(h, s, org, j, p);
    }
    if s.rows[a].seqNo == m + 1 {
      b := j;
    } else {
      var p := ReadRow(h, s, j);
      b := SeqNosPresent(h, s, p, s.rows[a].seqNo);
    }
  }

  /** The whole story of a run: an org's log verifies, in whatever order ties come back, exactly when no
      two of its committed windows overlapped; and then it is numbered 1..n. */
  lemma VerifiesIffSequential(h: Hash, states: seq<State>, actions: seq<Action>, n: nat, org: Option<string>,
                              es: seq<Entry>)
    requires IsRun(h, states, actions) && n <= |actions| && Sound(h, states[n].rows)
    requires IsOrdered(states[n].rows, org, es)
    ensures ChainValid(h, es) <==> !Overlapped(states[n], org)
    ensures ChainValid(h, es) ==> Honest(h, es) && es == OrgRows(states[n].rows, org)
  {
    var s := states[n];
    RunKeepsInv(h, states, actions, n);
    if Overlapped(s, org) {
      if ChainValid(h, es) {
        forall i: nat, j: nat | i < j < |s.rows| && s.rows[i].org == org && s.rows[j].org == org
          ensures s.rows[i].prevHash != s.rows[j].prevHash
        {
          VerifiedRowsDiffer(h, s.rows, org, es, i, j);
        }
        var i: nat, j: nat :| OverlapAt(s, org, i, j);
        var a, b := OverlapRepeatsSeqNo(h, s, org, i, j);
        SeqNosDiffer(h, s, org, a, b);
      }
    } else {
      SequentialIsHonest(h, s, org);
      OrderIsUnique(es, OrgRows(s.rows, org));
    }
  }

  lemma {:induction false} RowsGrow(h: Hash, states: seq<State>, actions: seq<Action>, n: nat, m: nat)
    requires IsRun(h, states, actions) && n <= m <= |actions|
    ensures states[n].rows <= states[m].rows && states[n].origin <= states[m].origin
    ensures |states[m].rows| == |states[m].origin|
    decreases m
  {
    if n < m {
      RowsGrow(h, states, actions, n, m - 1);
    } else if n > 0 {
      RowsGrow(h, states, actions, n - 1, n - 1);
    }
  }

  /** Nothing recorded later repairs an org whose windows overlapped. */
  lemma OverlapIsPermanent(h: Hash, states: seq<State>, actions: seq<Action>, n: nat, m: nat,
                           org: Option<string>, es: seq<Entry>)
    requires IsRun(h, states, actions) && n <= m <= |actions| && Sound(h, states[m].rows)
    requires Overlapped(states[n], org) && IsOrdered(states[m].rows, org, es)
    ensures !ChainValid(h, es)
  {
    RowsGrow(h, states, actions, n, m);
    var i: nat, j: nat :| OverlapAt(states[n], org, i, j);
    assert OverlapAt(states[m], org, i, j);
    VerifiesIffSequential(h, states, actions, m, org, es);
  }

  // ----- the hypotheses can be met -----------------------------------------------------------

  /** A sample digest: it tells actions apart by their first character. */
  function Sample(p: Payload): (d: string)
    ensures |d| == 64 && (p.action != "" ==> d[0] == p.action[0])
  {
    seq(64, i => if p.action == "" then ' ' else p.action[0])
  }

  function Act(action: string, ts: int): Content {
    Content(None, action, None, None, None, ts)
  }

  /** On entries whose actions differ in their first character the sample digest is sound. */
  lemma SampleIsSound(es: seq<Entry>)
    requires forall i | 0 <= i < |es| :: es[i].action != ""
    requires forall i, j | 0 <= i < j < |es| :: es[i].action[0] != es[j].action[0]
    ensures Sound(Sample, es)
  {
    forall i, j | 0 <= i < |es| && 0 <= j < |es| && Clash(Sample, es[i], es[j]) ensures i == j {
    }
  }

  /** There are a digest and an honest log of three rows, at times 1, 2 and 3, on which it is sound. */
  lemma HonestLogExists() returns (h: Hash, es: seq<Entry>)
    ensures |es| == 3 && Honest(h, es) && Chronological(es) && Sound(h, es)
    ensures forall i | 0 <= i < 3 :: es[i].ts == i + 1 && es[i].org == None
  {
    h := Sample;
    var a, wa := Recorded(None, Act("a", 1));
    var b, wb := Recorded(Some(a), Act("b", 2));
    var c, wc := Recorded(Some(b), Act("c", 3));
    es := [a, b, c];
    ExtendHonest(h, [], wa, a);
    ExtendHonest(h, [a], wb, b);
    assert [a] + [b] == [a, b] && [a, b] + [c] == es;
    ExtendHonest(h, [a, b], wc, c);
    SampleIsSound(es);
  }

  /** A purge at work: cutting that log at time 2 leaves rows that verify in no order. */
  lemma PurgeBreaksSample() returns (h: Hash, es: seq<Entry>)
    ensures Honest(h, es) && IsOrdered(es, None, es) && Filter(es, Retained(2)) != []
    ensures forall left | IsOrdered(Filter(es, Retained(2)), None, left) :: !ChainValid(h, left)
  {
    h, es := HonestLogExists();
    FilterFull(es, OfOrg(None));
    assert !Retained(2)(es[0]) && Retained(2)(es[1]) && es[0] in es && es[1] in es;
    FilterMembers(es, Retained(2), es[1]);
    forall left | IsOrdered(Filter(es, Retained(2)), None, left) ensures !ChainValid(h, left) {
      PurgeBreaksChain(h, es, None, es, 2, left);
    }
  }

  lemma Recorded(prev: Option<Entry>, c: Content) returns (e: Entry, w: Window)
    requires prev.Some? ==> prev.value.entryHash.Some? && prev.value.entryHash.value != ""
    ensures w.prev == prev && Wrote(Sample, w, e) && e.ts == c.ts && e.action == c.action && e.org == None
    ensures e.entryHash.Some? && e.entryHash.value != ""
  {
    w := Window(None, prev, 0);
    e := Written(Sample, w, c);
  }

  /** Two requests that both read the empty table before either appends. */
  function RaceAction(i: nat): Action {
    match i
    case 0 => Read(0, None, None)
    case 1 => Read(1, None, None)
    case 2 => Append(0, Act("a", 1))
    case _ => Append(1, Act("b", 2))
  }

  function RaceState(i: nat): State {
    var w := Window(None, None, 0);
    var a, b := Written(Sample, w, Act("a", 1)), Written(Sample, w, Act("b", 2));
    match i
    case 0 => State([], [], map[])
    case 1 => State([], [], map[0 := w])
    case 2 => State([], [], map[0 := w, 1 := w])
    case 3 => State([a], [w], map[1 := w])
    case _ => State([a, b], [w, w], map[])
  }

  lemma RaceStep(i: nat)
    requires i < 4
    ensures Enabled(RaceState(i), RaceAction(i)) && RaceState(i + 1) == Next(Sample, RaceState(i), RaceAction(i))
  {
    if i == 3 {
      assert RaceState(3).open - {1} == map[];
    } else if i == 2 {
      assert RaceState(2).open - {0} == RaceState(3).open;
    }
  }

  /** There are a digest and a run with overlapping windows on whose rows it is sound. */
  lemma OverlappedRunExists() returns (h: Hash, states: seq<State>, actions: seq<Action>)
    ensures IsRun(h, states, actions) && Sound(h, states[|actions|].rows)
    ensures Overlapped(states[|actions|], None)
  {
    h, states, actions := Sample, seq(5, (i: nat) => RaceState(i)), seq(4, (i: nat) => RaceAction(i));
    var last := RaceState(4);
    forall i | 0 <= i < 4
      ensures Enabled(states[i], actions[i]) && states[i + 1] == Next(h, states[i], actions[i])
    {
      RaceStep(i);
    }
    assert states[4] == last;
    SampleIsSound(last.rows);
    assert OverlapAt(last, None, 0, 1);
  }
}
