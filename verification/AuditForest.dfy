/** Deletions from the log of any interleaving.  The rows of an org form a forest, each below the row its
    window read; what verifies after a deletion is one path of it from a root. */
module AuditForest {
  import opened Audit
  import opened AuditRace
  import opened Seqs
  import opened Wrappers

  predicate InRange(s: State, ps: seq<nat>) {
    |s.rows| == |s.origin| && forall i | 0 <= i < |ps| :: ps[i] < |s.rows|
  }

  /** The window of the row at `ps[i]` read the row at the position before, or no row at all if it is the
      first.  Rows that differ in `ts` only stand for one another. */
  predicate PathAt(s: State, ps: seq<nat>, i: nat)
    requires InRange(s, ps) && i < |ps|
  {
    var prev := s.origin[ps[i]].prev;
    if i == 0 then prev.None? else prev.Some? && prev.value.(ts := 0) == s.rows[ps[i - 1]].(ts := 0)
  }

  ghost predicate Path(s: State, ps: seq<nat>) {
    InRange(s, ps) && forall i: nat | i < |ps| :: PathAt(s, ps, i)
  }

  lemma PathLinks(h: Hash, s: State, ps: seq<nat>, i: nat)
    requires Inv(h, s) && Sound(h, s.rows) && InRange(s, ps) && i < |ps|
    ensures LinkedAt(h, Survivors(s.rows, ps), i) <==> PathAt(s, ps, i)
  {
    assert RowInv(h, s, ps[i]);
    if i > 0 {
      assert RowInv(h, s, ps[i - 1]);
    }
    if s.origin[ps[i]].prev.Some? {
      var k := ReadRow(h, s, ps[i]);
      assert RowInv(h, s, k);
      if i > 0 && s.rows[k].entryHash == s.rows[ps[i - 1]].entryHash {
        SameHashSameContent(h, s.rows, s.rows[k], s.rows[ps[i - 1]]);
      }
    }
  }

  lemma {:induction false} PathNumbers(h: Hash, s: State, ps: seq<nat>, i: nat)
    requires Inv(h, s) && Path(s, ps) && i < |ps|
    ensures s.rows[ps[i]].seqNo == i + 1
  {
    assert PathAt(s, ps, i);
    FirstRow(h, s, ps[i]);
    if i > 0 {
      PathNumbers(h, s, ps, i - 1);
      var k := ReadRow(h, s, ps[i]);
    }
  }

  // ----- positions and rows ---------------------------------------------------------------------

  function AtOrg(rows: seq<Entry>, org: Option<string>): nat -> bool {
    (p: nat) => p < |rows| && rows[p].org == org
  }

  /** The positions of the org's rows among those given. */
  function OrgPositions(rows: seq<Entry>, org: Option<string>, ks: seq<nat>): seq<nat> {
    Filter<nat>(ks, AtOrg(rows, org))
  }

  lemma PositionsInRange(rows: seq<Entry>, org: Option<string>, ks: seq<nat>)
    ensures forall i | 0 <= i < |OrgPositions(rows, org, ks)| :: OrgPositions(rows, org, ks)[i] < |rows|
  {
    FilterAll<nat>(ks, AtOrg(rows, org));
  }

  lemma {:induction false} OrgSurvivors(rows: seq<Entry>, org: Option<string>, ks: seq<nat>)
    requires forall i | 0 <= i < |ks| :: ks[i] < |rows|
    ensures forall i | 0 <= i < |OrgPositions(rows, org, ks)| :: OrgPositions(rows, org, ks)[i] < |rows|
    ensures OrgRows(Survivors(rows, ks), org) == Survivors(rows, OrgPositions(rows, org, ks))
    decreases |ks|
  {
    PositionsInRange(rows, org, ks);
    if ks != [] {
      var n := |ks| - 1;
      OrgSurvivors(rows, org, ks[..n]);
      assert Survivors(rows, ks)[..n] == Survivors(rows, ks[..n]);
    }
  }

  /** The same positions in another order. */
  ghost predicate Rearranges(ps: seq<nat>, qs: seq<nat>) {
    multiset(ps) == multiset(qs)
  }

  lemma SurvivorsWithout(rows: seq<Entry>, qs: seq<nat>, j: nat)
    requires j < |qs| && forall i | 0 <= i < |qs| :: qs[i] < |rows|
    ensures var es := Survivors(rows, qs); Survivors(rows, qs[..j] + qs[j + 1..]) == es[..j] + es[j + 1..]
  {
  }

  /** Any order of the rows comes from an order of their positions. */
  lemma {:induction false} OrderOfPositions(rows: seq<Entry>, qs: seq<nat>, left: seq<Entry>) returns (ps: seq<nat>)
    requires forall i | 0 <= i < |qs| :: qs[i] < |rows|
    requires multiset(left) == multiset(Survivors(rows, qs))
    ensures Rearranges(ps, qs) && (forall i | 0 <= i < |ps| :: ps[i] < |rows|) && Survivors(rows, ps) == left
    decreases |left|
  {
    SameBagSameLength(left, Survivors(rows, qs));
    if left == [] {
      ps := [];
    } else {
      var n, es := |left| - 1, Survivors(rows, qs);
      assert left[n] in multiset(es);
      var j :| 0 <= j < |es| && es[j] == left[n];
      TakeOutOfBoth(left, es, j);
      SurvivorsWithout(rows, qs, j);
      ps := OrderOfPositions(rows, qs[..j] + qs[j + 1..], left[..n]);
      TakeOut(qs, j);
      ps := ps + [qs[j]];
    }
  }

  lemma {:induction false} RowsOfPositions(rows: seq<Entry>, ps: seq<nat>, qs: seq<nat>)
    requires Rearranges(ps, qs) && forall i | 0 <= i < |qs| :: qs[i] < |rows|
    ensures forall i | 0 <= i < |ps| :: ps[i] < |rows|
    ensures multiset(Survivors(rows, ps)) == multiset(Survivors(rows, qs))
    decreases |ps|
  {
    SameBagSameLength(ps, qs);
    if ps != [] {
      var n := |ps| - 1;
      assert ps[n] in multiset(qs);
      var j :| 0 <= j < |qs| && qs[j] == ps[n];
      TakeOutOfBoth(ps, qs, j);
      RowsOfPositions(rows, ps[..n], qs[..j] + qs[j + 1..]);
      SurvivorsWithout(rows, qs, j);
      TakeOut(Survivors(rows, qs), j);
      assert Survivors(rows, ps) == Survivors(rows, ps[..n]) + [rows[ps[n]]];
    }
  }

  // ----- what verifies after a deletion ------------------------------------------------------------

  lemma PathVerifies(h: Hash, s: State, ps: seq<nat>)
    requires Inv(h, s) && Sound(h, s.rows) && InRange(s, ps)
    ensures ChainValid(h, Survivors(s.rows, ps)) <==> Path(s, ps)
  {
    forall i: nat | i < |ps| ensures LinkedAt(h, Survivors(s.rows, ps), i) <==> PathAt(s, ps, i) {
      PathLinks(h, s, ps, i);
    }
  }

  /** After any interleaving and the deletion of any rows, an org's log verifies exactly when the rows left
      of it are one path, from a row whose window read no row, each next one's window having read the one
      before it. */
  lemma SurvivorsFormPath(h: Hash, states: seq<State>, actions: seq<Action>, n: nat, org: Option<string>,
                          ks: seq<nat>, left: seq<Entry>)
    requires IsRun(h, states, actions) && n <= |actions| && Sound(h, states[n].rows)
    requires Increasing(ks, |states[n].rows|) && IsOrdered(Survivors(states[n].rows, ks), org, left)
    ensures ChainValid(h, left) <==>
            exists ps :: Rearranges(ps, OrgPositions(states[n].rows, org, ks)) && Path(states[n], ps)
  {
    var s := states[n];
    var qs := OrgPositions(s.rows, org, ks);
    RunKeepsInv(h, states, actions, n);
    OrgSurvivors(s.rows, org, ks);
    if ChainValid(h, left) {
      var ps := OrderOfPositions(s.rows, qs, left);
      PathVerifies(h, s, ps);
    }
    if ps: seq<nat> :| Rearranges(ps, qs) && Path(s, ps) {
      PathIsTheLog(h, s, ps, qs, left);
    }
  }

  lemma PathIsTheLog(h: Hash, s: State, ps: seq<nat>, qs: seq<nat>, left: seq<Entry>)
    requires Inv(h, s) && Sound(h, s.rows) && Path(s, ps) && Rearranges(ps, qs) && InRange(s, qs)
    requires Sorted(left) && multiset(left) == multiset(Survivors(s.rows, qs))
    ensures ChainValid(h, left)
  {
    RowsOfPositions(s.rows, ps, qs);
    var es := Survivors(s.rows, ps);
    forall i | 0 <= i < |es| ensures es[i].seqNo == i + 1 {
      PathNumbers(h, s, ps, i);
    }
    OrderIsUnique(left, es);
    PathVerifies(h, s, ps);
  }

  /** So a deletion can repair the log of any run: some row of the org verifies when it alone is left. */
  lemma SomeRowVerifies(h: Hash, states: seq<State>, actions: seq<Action>, n: nat, org: Option<string>, i: nat)
    returns (k: nat)
    requires IsRun(h, states, actions) && n <= |actions| && Sound(h, states[n].rows)
    requires i < |states[n].rows| && states[n].rows[i].org == org
    ensures k < |states[n].rows| && states[n].rows[k].org == org
    ensures forall left | IsOrdered([states[n].rows[k]], org, left) :: ChainValid(h, left)
  {
    var s := states[n];
    RunKeepsInv(h, states, actions, n);
    assert RowInv(h, s, i);
    k := SeqNosPresent(h, s, i, 1);
    FirstRow(h, s, k);
    forall left | IsOrdered([s.rows[k]], org, left) ensures ChainValid(h, left) {
      RootVerifies(h, s, k, left);
    }
  }

  lemma RootVerifies(h: Hash, s: State, k: nat, left: seq<Entry>)
    requires Inv(h, s) && Sound(h, s.rows) && k < |s.rows| && s.origin[k].prev.None?
    requires IsOrdered([s.rows[k]], s.rows[k].org, left)
    ensures ChainValid(h, left)
  {
    var e := s.rows[k];
    FilterFull([e], OfOrg(e.org));
    OrderIsUnique(left, [e]);
    PathVerifies(h, s, [k]);
    assert PathAt(s, [k], 0);
    assert Survivors(s.rows, [k]) == [e];
  }
}
