/** Compliance scores and the evidence report, for any mapping table.  A score is a percentage in
    tenths: 1000 stands for 100.0. */
module Compliance {
  import opened Seqs

  /** check id -> framework -> control ids */
  type Mapping = map<string, map<string, seq<string>>>

  predicate Maps(m: Mapping, check: string, framework: string) {
    check in m && framework in m[check]
  }

  function ApplicableChecks(m: Mapping, framework: string): set<string> {
    set c | c in m && Maps(m, c, framework)
  }

  function Frameworks(m: Mapping): set<string> {
    set c, fw | c in m && fw in m[c] :: fw
  }

  /** Rounding to the nearest integer, ties to even. */
  function RoundHalfEven(num: nat, den: nat): nat
    requires den > 0
  {
    var q, r := num / den, num % den;
    if 2 * r < den || (2 * r == den && q % 2 == 0) then q else q + 1
  }

  /** `round(passed / applicable * 100, 1)`, in exact arithmetic. */
  function ScoreTenths(passed: nat, applicable: nat): nat
    requires applicable > 0
  {
    RoundHalfEven(1000 * passed, applicable)
  }

  /** `s` is the integer nearest to `num / den`, and the even one of two equally near ones. */
  predicate IsNearest(num: nat, den: nat, s: nat) {
    var twice := 2 * (den * s);
    && twice <= 2 * num + den
    && 2 * num <= twice + den
    && (twice == 2 * num + den || 2 * num == twice + den ==> s % 2 == 0)
  }

  lemma RoundIsNearest(num: nat, den: nat)
    requires den > 0
    ensures IsNearest(num, den, RoundHalfEven(num, den))
  {
    var q := num / den;
    assert num == den * q + num % den;
    assert den * (q + 1) == den * q + den;
  }

  datatype ScoreRow = ScoreRow(score: nat, applicable: nat, passed: nat, failed: nat, failedChecks: set<string>)

  /** The row scores the framework: its applicable checks are split into passed and failed ones. */
  ghost predicate Scores(m: Mapping, framework: string, failedIds: set<string>, row: ScoreRow) {
    var applicable := ApplicableChecks(m, framework);
    && applicable != {}
    && row.failedChecks == applicable * failedIds
    && row.failed == |row.failedChecks|
    && row.passed + row.failed == row.applicable == |applicable|
    && IsNearest(1000 * row.passed, row.applicable, row.score)
  }

  method ComputeScores(m: Mapping, failedIds: set<string>) returns (scores: map<string, ScoreRow>)
    ensures scores.Keys == Frameworks(m)
    ensures forall fw | fw in scores :: Scores(m, fw, failedIds, scores[fw])
    ensures forall fw :: fw in scores <==> exists c | c in m :: fw in m[c]
    ensures forall fw | fw in scores ::
              && (forall c :: c in scores[fw].failedChecks <==> c in m && fw in m[c] && c in failedIds)
              && scores[fw].failed == |scores[fw].failedChecks|
              && scores[fw].passed == scores[fw].applicable - scores[fw].failed
              && scores[fw].applicable == |set c | c in m && fw in m[c]|
              && 2 * scores[fw].applicable * scores[fw].score <= 2000 * scores[fw].passed + scores[fw].applicable
              && 2000 * scores[fw].passed <= 2 * scores[fw].applicable * scores[fw].score + scores[fw].applicable
  {
    scores := map[];
    var todo := Frameworks(m);
    while todo != {}
      invariant todo <= Frameworks(m) && scores.Keys == Frameworks(m) - todo
      invariant forall fw | fw in scores :: Scores(m, fw, failedIds, scores[fw])
      decreases todo
    {
      var fw :| fw in todo;
      var applicable := ApplicableChecks(m, fw);
      var c :| c in m && fw in m[c];
      assert c in applicable;
      var failed := applicable * failedIds;
      var passed := applicable - failed;
      assert applicable == passed + failed && passed !! failed;
      RoundIsNearest(1000 * |passed|, |applicable|);
      scores := scores[fw := ScoreRow(ScoreTenths(|passed|, |applicable|), |applicable|, |passed|, |failed|, failed)];
      todo := todo - {fw};
    }
    forall fw | fw in scores {
      RowTells(m, fw, failedIds, scores[fw]);
    }
  }

  /** What a row says: which applicable checks failed, and the percentage of the others to the nearest tenth. */
  lemma RowTells(m: Mapping, fw: string, failedIds: set<string>, row: ScoreRow)
    requires Scores(m, fw, failedIds, row)
    ensures forall c :: c in row.failedChecks <==> c in m && fw in m[c] && c in failedIds
    ensures row.applicable == |set c | c in m && fw in m[c]|
    ensures 2 * row.applicable * row.score <= 2000 * row.passed + row.applicable
    ensures 2000 * row.passed <= 2 * row.applicable * row.score + row.applicable
  {
    assert ApplicableChecks(m, fw) == set c | c in m && fw in m[c];
    assert 2 * (row.applicable * row.score) == 2 * row.applicable * row.score;
  }

  // ----- the score ----------------------------------------------------------------------------

  lemma NearestMonotone(a: nat, b: nat, den: nat, s: nat, t: nat)
    requires den > 0 && a <= b && IsNearest(a, den, s) && IsNearest(b, den, t)
    ensures s <= t
  {
    if s > t {
      ScaleStep(den, t, s);
      if s > t + 1 {
        ScaleStep(den, t, t + 1);
        ScaleStep(den, t + 1, s);
      }
    }
    NearestOrdered(a, b, den, s, t, den * s, den * t);
  }

  lemma NearestOrdered(a: nat, b: nat, den: nat, s: nat, t: nat, u: nat, v: nat)
    requires den > 0 && a <= b && 2 * u <= 2 * a + den && 2 * b <= 2 * v + den
    requires 2 * u == 2 * a + den ==> s % 2 == 0
    requires 2 * b == 2 * v + den ==> t % 2 == 0
    requires s > t ==> v + den <= u
    requires s > t + 1 ==> v + 2 * den <= u
    ensures s <= t
  {
  }

  lemma ScaleStep(d: nat, x: nat, y: nat)
    requires x < y
    ensures d * x + d <= d * y
  {
    var k := y - x - 1;
    assert d * k >= 0;
    assert d * (x + 1 + k) == d * x + d + d * k;
  }

  /** Two readings of the same failures give the same row. */
  lemma ScoreIsUnique(m: Mapping, framework: string, f: set<string>, g: set<string>, row: ScoreRow, other: ScoreRow)
    requires Scores(m, framework, f, row) && Scores(m, framework, g, other)
    requires ApplicableChecks(m, framework) * f == ApplicableChecks(m, framework) * g
    ensures row == other
  {
    NearestMonotone(1000 * row.passed, 1000 * row.passed, row.applicable, row.score, other.score);
    NearestMonotone(1000 * row.passed, 1000 * row.passed, row.applicable, other.score, row.score);
  }

  lemma SubsetSize(a: set<string>, b: set<string>)
    requires a <= b
    ensures |a| <= |b|
  {
    assert b == a + (b - a);
  }

  /** More failures never raise a framework's score. */
  lemma MoreFailuresNeverHelp(m: Mapping, framework: string, f: set<string>, g: set<string>, before: ScoreRow,
                              after: ScoreRow)
    requires f <= g && Scores(m, framework, f, before) && Scores(m, framework, g, after)
    ensures after.score <= before.score
  {
    var applicable := ApplicableChecks(m, framework);
    assert applicable * f <= applicable * g;
    SubsetSize(applicable * f, applicable * g);
    NearestMonotone(1000 * after.passed, 1000 * before.passed, |applicable|, after.score, before.score);
  }

  /** A score reads 100.0 exactly when at most one check in 2000 failed; so below 2000 applicable checks
      it means that none did. */
  lemma PerfectScoreIff(m: Mapping, framework: string, failedIds: set<string>, row: ScoreRow)
    requires Scores(m, framework, failedIds, row)
    ensures row.score <= 1000
    ensures row.score == 1000 <==> 2000 * row.failed <= row.applicable
    ensures row.applicable < 2000 ==> (row.score == 1000 <==> row.failedChecks == {})
  {
    PerfectRatio(row.passed, row.failed, row.applicable, row.score);
  }

  lemma PerfectRatio(passed: nat, failed: nat, n: nat, s: nat)
    requires n > 0 && passed + failed == n && IsNearest(1000 * passed, n, s)
    ensures s <= 1000
    ensures s == 1000 <==> 2000 * failed <= n
  {
    if s > 1000 {
      ScaleStep(n, 1000, s);
    } else if s < 999 {
      ScaleStep(n, s, 999);
    }
    NearTheTop(passed, failed, n, s, n * s);
  }

  lemma NearTheTop(passed: nat, failed: nat, n: nat, s: nat, v: nat)
    requires n > 0 && passed + failed == n
    requires 2 * v <= 2000 * passed + n && 2000 * passed <= 2 * v + n
    requires 2 * v == 2000 * passed + n || 2000 * passed == 2 * v + n ==> s % 2 == 0
    requires s > 1000 ==> v >= 1001 * n
    requires s == 1000 ==> v == 1000 * n
    requires s == 999 ==> v == 999 * n
    requires s < 999 ==> v <= 998 * n
    ensures s <= 1000
    ensures s == 1000 <==> 2000 * failed <= n
  {
  }

  // ----- evidence -------------------------------------------------------------------------------

  datatype FindingRef = FindingRef(checkId: string, resource: string)

  datatype Control = Control(controlId: string, checkId: string, failed: bool, resources: seq<string>)

  function IdsOf(findings: seq<FindingRef>): set<string> {
    set f | f in findings :: f.checkId
  }

  /** The resources that have a finding of the check, in order. */
  function Offenders(findings: seq<FindingRef>, checkId: string): seq<string> {
    if findings == [] then []
    else
      var n := |findings| - 1;
      Offenders(findings[..n], checkId) + if findings[n].checkId == checkId then [findings[n].resource] else []
  }

  function ControlIds(m: Mapping, check: string, framework: string): seq<string> {
    if check in m && framework in m[check] then m[check][framework] else []
  }

  /** The controls of the listed checks, check by check. */
  function ControlsOf(m: Mapping, framework: string, findings: seq<FindingRef>, order: seq<string>): seq<Control> {
    if order == [] then []
    else
      var n := |order| - 1;
      ControlsOf(m, framework, findings, order[..n]) +
      RowsFor(ControlIds(m, order[n], framework), order[n], Offenders(findings, order[n]))
  }

  function RowsFor(ids: seq<string>, check: string, offenders: seq<string>): seq<Control> {
    seq(|ids|, i requires 0 <= i < |ids| => Control(ids[i], check, offenders != [], offenders))
  }

  function OffendersIn(grouped: map<string, seq<string>>, check: string): seq<string> {
    if check in grouped then grouped[check] else []
  }

  /** The applicable findings grouped by check, as the report's first loop groups them. */
  function Grouped(applicable: set<string>, findings: seq<FindingRef>): map<string, seq<string>> {
    if findings == [] then map[]
    else
      var n := |findings| - 1;
      var f, g := findings[n], Grouped(applicable, findings[..n]);
      if f.checkId in applicable then g[f.checkId := OffendersIn(g, f.checkId) + [f.resource]] else g
  }

  lemma {:induction false} GroupedOffenders(applicable: set<string>, findings: seq<FindingRef>, check: string)
    requires check in applicable
    ensures OffendersIn(Grouped(applicable, findings), check) == Offenders(findings, check)
  {
    if findings != [] {
      GroupedOffenders(applicable, findings[..|findings| - 1], check);
    }
  }

  lemma {:induction false} GroupedKeys(applicable: set<string>, findings: seq<FindingRef>)
    ensures Grouped(applicable, findings).Keys == applicable * IdsOf(findings)
  {
    if findings != [] {
      var n := |findings| - 1;
      GroupedKeys(applicable, findings[..n]);
      assert findings == findings[..n] + [findings[n]];
      assert IdsOf(findings) == IdsOf(findings[..n]) + {findings[n].checkId};
    }
  }

  ghost predicate Lists(order: seq<string>, s: set<string>) {
    (forall c :: c in order <==> c in s) && forall i, j | 0 <= i < j < |order| :: order[i] != order[j]
  }

  /** The evidence of one framework: its score and one row per control of each applicable check. */
  method EvidenceReport(m: Mapping, framework: string, findings: seq<FindingRef>)
    returns (score: nat, controls: seq<Control>, ghost order: seq<string>)
    ensures framework !in Frameworks(m) ==> score == 1000 && controls == []
    ensures forall row | Scores(m, framework, IdsOf(findings), row) :: score == row.score
    ensures Lists(order, ApplicableChecks(m, framework))
    ensures controls == ControlsOf(m, framework, findings, order)
    ensures forall c | c in m && framework in m[c] :: RowsOfCheck(controls, c, m[c][framework], findings)
    ensures forall row | row in controls :: row.checkId in m && framework in m[row.checkId]
  {
    var applicable := ApplicableChecks(m, framework);
    var failedByCheck: map<string, seq<string>> := map[];
    for n := 0 to |findings|
      invariant failedByCheck == Grouped(applicable, findings[..n])
    {
      var f := findings[n];
      assert findings[..n + 1][..n] == findings[..n];
      if f.checkId in applicable {
        failedByCheck := failedByCheck[f.checkId := OffendersIn(failedByCheck, f.checkId) + [f.resource]];
      }
    }
    assert findings[..|findings|] == findings;
    GroupedKeys(applicable, findings);
    controls, order := ListControls(m, framework, findings, applicable, failedByCheck);
    ReportTells(m, framework, findings, order);
    var scores := ComputeScores(m, failedByCheck.Keys);
    score := if framework in scores then scores[framework].score else 1000;
    MappedIffApplicable(m, framework);
    forall row | Scores(m, framework, IdsOf(findings), row) ensures score == row.score {
      assert applicable * failedByCheck.Keys == applicable * IdsOf(findings);
      ScoreIsUnique(m, framework, failedByCheck.Keys, IdsOf(findings), scores[framework], row);
    }
  }

  lemma ListsMore(order: seq<string>, s: set<string>, check: string)
    requires Lists(order, s) && check !in s
    ensures Lists(order + [check], s + {check})
  {
    assert forall i | 0 <= i < |order| :: order[i] in order;
  }

  lemma ControlsMore(m: Mapping, framework: string, findings: seq<FindingRef>, order: seq<string>, check: string)
    ensures ControlsOf(m, framework, findings, order + [check]) ==
            ControlsOf(m, framework, findings, order) +
            RowsFor(ControlIds(m, check, framework), check, Offenders(findings, check))
  {
    assert (order + [check])[..|order|] == order;
  }

  /** The report's second loop, over the applicable checks in some order. */
  method ListControls(m: Mapping, framework: string, ghost findings: seq<FindingRef>,
                      applicable: set<string>, failedByCheck: map<string, seq<string>>)
    returns (controls: seq<Control>, ghost order: seq<string>)
    requires applicable == ApplicableChecks(m, framework) && failedByCheck == Grouped(applicable, findings)
    ensures Lists(order, applicable)
    ensures controls == ControlsOf(m, framework, findings, order)
    ensures applicable == {} ==> controls == []
  {
    controls, order := [], [];
    var todo := applicable;
    while todo != {}
      invariant todo <= applicable && Lists(order, applicable - todo)
      invariant controls == ControlsOf(m, framework, findings, order)
      invariant applicable == {} ==> controls == []
      decreases todo
    {
      var check :| check in todo;
      GroupedOffenders(applicable, findings, check);
      var offenders := OffendersIn(failedByCheck, check);
      controls := controls + RowsFor(ControlIds(m, check, framework), check, offenders);
      ListsMore(order, applicable - todo, check);
      ControlsMore(m, framework, findings, order, check);
      assert applicable - todo + {check} == applicable - (todo - {check});
      todo, order := todo - {check}, order + [check];
    }
  }

  lemma MappedIffApplicable(m: Mapping, framework: string)
    ensures framework in Frameworks(m) <==> ApplicableChecks(m, framework) != {}
  {
    if framework in Frameworks(m) {
      var c :| c in m && framework in m[c];
      assert c in ApplicableChecks(m, framework);
    }
  }

  function OfCheck(c: string): Control -> bool {
    (row: Control) => row.checkId == c
  }

  function FoundBy(c: string): FindingRef -> bool {
    (f: FindingRef) => f.checkId == c
  }

  function Resources(findings: seq<FindingRef>): seq<string> {
    seq(|findings|, i requires 0 <= i < |findings| => findings[i].resource)
  }

  lemma {:induction false} OffendersAreFound(findings: seq<FindingRef>, c: string)
    ensures Offenders(findings, c) == Resources(Filter(findings, FoundBy(c)))
    decreases |findings|
  {
    if findings != [] {
      OffendersAreFound(findings[..|findings| - 1], c);
    }
  }

  /** The rows of one check in a report: one for each of its controls, in their order, failed exactly when the
      check has a finding, with the resources of its findings in the order in which they were found. */
  ghost predicate RowsOfCheck(controls: seq<Control>, c: string, ids: seq<string>, findings: seq<FindingRef>) {
    var rows := Filter(controls, OfCheck(c));
    && |rows| == |ids|
    && forall i | 0 <= i < |rows| ::
         && rows[i].controlId == ids[i] && rows[i].checkId == c
         && (rows[i].failed <==> exists f | f in findings :: f.checkId == c)
         && rows[i].resources == Resources(Filter(findings, FoundBy(c)))
  }

  lemma OwnRows(ids: seq<string>, check: string, findings: seq<FindingRef>)
    ensures RowsOfCheck(RowsFor(ids, check, Offenders(findings, check)), check, ids, findings)
  {
    var rows := RowsFor(ids, check, Offenders(findings, check));
    FilterFull(rows, OfCheck(check));
    OffendersAreFound(findings, check);
    if f :| f in findings && f.checkId == check {
      FilterMembers(findings, FoundBy(check), f);
    }
    if Filter(findings, FoundBy(check)) != [] {
      FilterMembers(findings, FoundBy(check), Filter(findings, FoundBy(check))[0]);
    }
  }

  lemma RowsOfOne(ids: seq<string>, check: string, offenders: seq<string>, c: string)
    ensures Filter(RowsFor(ids, check, offenders), OfCheck(c)) ==
            if check == c then RowsFor(ids, check, offenders) else []
  {
    var rows := RowsFor(ids, check, offenders);
    if check == c {
      FilterFull(rows, OfCheck(c));
    } else {
      FilterEmpty(rows, OfCheck(c));
    }
  }

  lemma LastOfDistinct(order: seq<string>, c: string)
    requires order != [] && forall i, j | 0 <= i < j < |order| :: order[i] != order[j]
    ensures c in order <==> c in order[..|order| - 1] || c == order[|order| - 1]
    ensures order[|order| - 1] !in order[..|order| - 1]
  {
  }

  /** The rows of a check in the controls of distinct checks are those it has alone. */
  lemma {:induction false} RowsAmongOthers(m: Mapping, framework: string, findings: seq<FindingRef>, order: seq<string>,
                                           c: string)
    requires forall i, j | 0 <= i < j < |order| :: order[i] != order[j]
    ensures Filter(ControlsOf(m, framework, findings, order), OfCheck(c)) ==
            if c in order then RowsFor(ControlIds(m, c, framework), c, Offenders(findings, c)) else []
    decreases |order|
  {
    if order != [] {
      var n := |order| - 1;
      var ids, offenders := ControlIds(m, order[n], framework), Offenders(findings, order[n]);
      RowsAmongOthers(m, framework, findings, order[..n], c);
      FilterConcat(ControlsOf(m, framework, findings, order[..n]), RowsFor(ids, order[n], offenders), OfCheck(c));
      RowsOfOne(ids, order[n], offenders, c);
      LastOfDistinct(order, c);
    }
  }

  lemma {:induction false} RowsComeFromOrder(m: Mapping, framework: string, findings: seq<FindingRef>,
                                             order: seq<string>, row: Control)
    requires row in ControlsOf(m, framework, findings, order)
    ensures row.checkId in order
    decreases |order|
  {
    var n := |order| - 1;
    if row in ControlsOf(m, framework, findings, order[..n]) {
      RowsComeFromOrder(m, framework, findings, order[..n], row);
    }
  }

  /** The report has, for each check mapped to the framework, exactly the rows of that check, and no others. */
  lemma ReportTells(m: Mapping, framework: string, findings: seq<FindingRef>, order: seq<string>)
    requires Lists(order, ApplicableChecks(m, framework))
    ensures var controls := ControlsOf(m, framework, findings, order);
            && (forall c | c in m && framework in m[c] :: RowsOfCheck(controls, c, m[c][framework], findings))
            && (forall row | row in controls :: row.checkId in m && framework in m[row.checkId])
  {
    var controls := ControlsOf(m, framework, findings, order);
    forall c | c in m && framework in m[c] ensures RowsOfCheck(controls, c, m[c][framework], findings) {
      assert c in ApplicableChecks(m, framework);
      RowsAmongOthers(m, framework, findings, order, c);
      OwnRows(m[c][framework], c, findings);
      var rows := RowsFor(m[c][framework], c, Offenders(findings, c));
      FilterFull(rows, OfCheck(c));
    }
    forall row | row in controls ensures row.checkId in m && framework in m[row.checkId] {
      RowsComeFromOrder(m, framework, findings, order, row);
      assert row.checkId in ApplicableChecks(m, framework);
    }
  }
}
