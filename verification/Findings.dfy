/** Findings and their deduplicated persistence. */
module Findings {

  /** A finding as the auditors produce it; the fields that do not matter to persistence are one. */
  datatype Finding = Finding(checkId: string, resource: string, details: string)

  datatype FindingRow = FindingRow(account: string, scanRun: string, finding: Finding, dedupHash: string)

  /** SHA-256 of the dedup key string. */
  type Hash = string -> string

  /** `f"{account}|{check_id}|{resource}"` */
  function DedupKey(account: string, checkId: string, resource: string): string {
    account + "|" + checkId + "|" + resource
  }

  function DedupHash(h: Hash, account: string, f: Finding): string {
    h(DedupKey(account, f.checkId, f.resource))
  }

  // ----- the key string -------------------------------------------------------------------

  predicate BarFree(s: string) {
    '|' !in s
  }

  lemma KeyBars(account: string, checkId: string, resource: string)
    ensures var k, p := DedupKey(account, checkId, resource), |account|;
            && k[p] == '|' && k[p + 1 + |checkId|] == '|'
            && k[..p] == account && k[p + 1..p + 1 + |checkId|] == checkId && k[p + 2 + |checkId|..] == resource
  {
  }

  lemma BarsOnlyBetween(account: string, checkId: string, resource: string, i: nat)
    requires BarFree(account) && BarFree(checkId) && i < |DedupKey(account, checkId, resource)|
    requires i < |account| + 1 + |checkId| || BarFree(resource)
    ensures DedupKey(account, checkId, resource)[i] == '|' <==> i == |account| || i == |account| + 1 + |checkId|
  {
    var k := DedupKey(account, checkId, resource);
    if i < |account| {
      assert k[i] == account[i];
    } else if |account| < i < |account| + 1 + |checkId| {
      assert k[i] == checkId[i - |account| - 1];
    } else if i > |account| + 1 + |checkId| {
      assert k[i] == resource[i - |account| - 2 - |checkId|];
    }
  }

  /** The key is injective on account ids and check ids without a bar, whatever the resource. */
  lemma KeyIsInjective(a: string, c: string, r: string, a': string, c': string, r': string)
    requires BarFree(a) && BarFree(c) && BarFree(a') && BarFree(c')
    requires DedupKey(a, c, r) == DedupKey(a', c', r')
    ensures a == a' && c == c' && r == r'
  {
    KeyBars(a, c, r);
    KeyBars(a', c', r');
  }

  lemma ShiftedBar(x: string, y: string, z: string, t: string)
    ensures DedupKey(x, y + "|" + z, t) == DedupKey(x, y, z + "|" + t)
    ensures DedupKey(x + "|" + y, z, t) == DedupKey(x, y + "|" + z, t)
  {
    assert DedupKey(x, y + "|" + z, t) == x + "|" + y + "|" + z + "|" + t;
    assert DedupKey(x, y, z + "|" + t) == x + "|" + y + "|" + z + "|" + t;
    assert DedupKey(x + "|" + y, z, t) == x + "|" + y + "|" + z + "|" + t;
  }

  lemma SplitAtBar(s: string) returns (x: string, y: string)
    requires !BarFree(s)
    ensures s == x + "|" + y
  {
    var i :| 0 <= i < |s| && s[i] == '|';
    x, y := s[..i], s[i + 1..];
  }

  /** No other triple has the key. */
  ghost predicate KeyIsUnique(a: string, c: string, r: string) {
    forall a', c', r' | DedupKey(a', c', r') == DedupKey(a, c, r) :: a' == a && c' == c && r' == r
  }

  /** Among all triples, a key determines its triple exactly when none of the three parts has a bar. */
  lemma KeyIsUniqueIff(a: string, c: string, r: string)
    ensures KeyIsUnique(a, c, r) <==> BarFree(a) && BarFree(c) && BarFree(r)
  {
    if BarFree(a) && BarFree(c) && BarFree(r) {
      forall a', c', r' | DedupKey(a', c', r') == DedupKey(a, c, r) ensures a' == a && c' == c && r' == r {
        KeyBars(a, c, r);
        KeyBars(a', c', r');
        BarsOnlyBetween(a, c, r, |a'|);
        BarsOnlyBetween(a, c, r, |a'| + 1 + |c'|);
      }
    } else if !BarFree(a) {
      var x, y := SplitAtBar(a);
      ShiftedBar(x, y, c, r);
      assert |x| < |a|;
    } else if !BarFree(c) {
      var x, y := SplitAtBar(c);
      ShiftedBar(a, x, y, r);
      assert |x| < |c|;
    } else {
      var x, y := SplitAtBar(r);
      ShiftedBar(a, c, x, y);
      assert |y| < |r|;
    }
  }

  // ----- persistence ------------------------------------------------------------------------

  function HashesOf(rows: seq<FindingRow>): set<string> {
    set r | r in rows :: r.dedupHash
  }

  function BatchHashes(h: Hash, account: string, batch: seq<Finding>): set<string> {
    set f | f in batch :: DedupHash(h, account, f)
  }

  ghost predicate UniqueHashes(rows: seq<FindingRow>) {
    forall i, j | 0 <= i < j < |rows| :: rows[i].dedupHash != rows[j].dedupHash
  }

  function RowFor(h: Hash, account: string, scanRun: string, f: Finding): FindingRow {
    FindingRow(account, scanRun, f, DedupHash(h, account, f))
  }

  /** The rows a batch adds: one per hash the table does not have, made of the first finding with it. */
  function NewRows(h: Hash, account: string, scanRun: string, known: set<string>,
                   batch: seq<Finding>): seq<FindingRow> {
    if batch == [] then []
    else
      var before, f := batch[..|batch| - 1], batch[|batch| - 1];
      var dedup := DedupHash(h, account, f);
      var rows := NewRows(h, account, scanRun, known, before);
      if dedup in known || dedup in BatchHashes(h, account, before) then rows
      else rows + [RowFor(h, account, scanRun, f)]
  }

  /** Every row carries the hash of its own account, check and resource, and no hash occurs twice; so no two
      rows have the same account, check and resource. */
  ghost predicate Labelled(h: Hash, rows: seq<FindingRow>) {
    && (forall i | 0 <= i < |rows| ::
          rows[i].dedupHash == h(rows[i].account + "|" + rows[i].finding.checkId + "|" + rows[i].finding.resource))
    && (forall i, j | 0 <= i < j < |rows| ::
          && rows[i].dedupHash != rows[j].dedupHash
          && !(rows[i].account == rows[j].account && rows[i].finding.checkId == rows[j].finding.checkId &&
               rows[i].finding.resource == rows[j].finding.resource))
  }

  ghost predicate Collide(h: Hash, k: string, l: string) {
    k != l && h(k) == h(l)
  }

  /** No account or check id in hand has a bar, and no two keys in hand collide. */
  ghost predicate Tellable(h: Hash, rows: seq<FindingRow>, account: string, batch: seq<Finding>) {
    && BarFree(account)
    && (forall i | 0 <= i < |batch| :: BarFree(batch[i].checkId))
    && (forall i | 0 <= i < |rows| :: BarFree(rows[i].account) && BarFree(rows[i].finding.checkId))
    && (forall i, j | 0 <= i < |batch| && 0 <= j < |batch| ::
          !Collide(h, account + "|" + batch[i].checkId + "|" + batch[i].resource,
                   account + "|" + batch[j].checkId + "|" + batch[j].resource))
    && (forall i, j | 0 <= i < |batch| && 0 <= j < |rows| ::
          !Collide(h, account + "|" + batch[i].checkId + "|" + batch[i].resource,
                   rows[j].account + "|" + rows[j].finding.checkId + "|" + rows[j].finding.resource))
  }

  class FindingTable {
    const hash: Hash
    var rows: seq<FindingRow>

    constructor (h: Hash)
      ensures hash == h && rows == []
    {
      hash, rows := h, [];
    }

    /** Store the batch.  The session does not flush on queries, so the query sees the table as it was;
        `seen` is what keeps a batch from storing one hash twice. */
    method PersistFindings(account: string, scanRun: string, batch: seq<Finding>) returns (persisted: nat)
      modifies this
      ensures rows == old(rows) + NewRows(hash, account, scanRun, HashesOf(old(rows)), batch)
      ensures persisted == |rows| - |old(rows)|
      ensures old(rows) <= rows
      ensures forall i | |old(rows)| <= i < |rows| ::
                var r := rows[i];
                && r.account == account && r.scanRun == scanRun && r.finding in batch
                && r.dedupHash == hash(account + "|" + r.finding.checkId + "|" + r.finding.resource)
      ensures Labelled(hash, old(rows)) && Tellable(hash, old(rows), account, batch) ==>
                && Labelled(hash, rows)
                && forall f | f in batch ::
                     exists i | 0 <= i < |rows| ::
                       && rows[i].account == account
                       && rows[i].finding.checkId == f.checkId && rows[i].finding.resource == f.resource
    {
      persisted := 0;
      var seen: set<string> := {};
      var pending: seq<FindingRow> := [];
      for n := 0 to |batch|
        invariant rows == old(rows)
        invariant seen == BatchHashes(hash, account, batch[..n])
        invariant pending == NewRows(hash, account, scanRun, HashesOf(rows), batch[..n])
        invariant persisted == |pending|
      {
        var f := batch[n];
        var dedup := DedupHash(hash, account, f);
        OneMore(hash, account, scanRun, HashesOf(rows), batch, n);
        if dedup !in seen {
          seen := seen + {dedup};
          if dedup !in HashesOf(rows) {
            pending := pending + [FindingRow(account, scanRun, f, dedup)];
            persisted := persisted + 1;
          }
        }
      }
      assert batch[..|batch|] == batch;
      NewRowsAreLabelled(hash, account, scanRun, HashesOf(rows), batch);
      if Labelled(hash, rows) && Tellable(hash, rows, account, batch) {
        EachFindingIsStored(hash, account, scanRun, rows, batch);
      }
      rows := rows + pending;
    }
  }

  lemma OneMore(h: Hash, account: string, scanRun: string, known: set<string>, batch: seq<Finding>, n: nat)
    requires n < |batch|
    ensures var d, seen := DedupHash(h, account, batch[n]), BatchHashes(h, account, batch[..n]);
            && BatchHashes(h, account, batch[..n + 1]) == seen + {d}
            && NewRows(h, account, scanRun, known, batch[..n + 1]) ==
               NewRows(h, account, scanRun, known, batch[..n]) +
               if d in known || d in seen then [] else [RowFor(h, account, scanRun, batch[n])]
  {
    assert batch[..n + 1][..n] == batch[..n];
    assert batch[..n + 1] == batch[..n] + [batch[n]];
  }

  lemma HashesConcat(a: seq<FindingRow>, b: seq<FindingRow>)
    ensures HashesOf(a + b) == HashesOf(a) + HashesOf(b)
  {
  }

  lemma UniqueConcat(a: seq<FindingRow>, b: seq<FindingRow>)
    requires UniqueHashes(a) && UniqueHashes(b) && HashesOf(a) !! HashesOf(b)
    ensures UniqueHashes(a + b)
  {
    forall i, j | 0 <= i < |a| && 0 <= j < |b| ensures a[i].dedupHash != b[j].dedupHash {
      assert a[i].dedupHash in HashesOf(a) && b[j].dedupHash in HashesOf(b);
    }
  }

  lemma HashesOneMore(rows: seq<FindingRow>, row: FindingRow)
    ensures HashesOf(rows + [row]) == HashesOf(rows) + {row.dedupHash}
  {
    HashesConcat(rows, [row]);
  }

  lemma UniqueOneMore(rows: seq<FindingRow>, row: FindingRow)
    requires UniqueHashes(rows) && row.dedupHash !in HashesOf(rows)
    ensures UniqueHashes(rows + [row])
  {
    UniqueConcat(rows, [row]);
  }

  lemma {:induction false} UniqueCount(rows: seq<FindingRow>)
    requires UniqueHashes(rows)
    ensures |HashesOf(rows)| == |rows|
    decreases |rows|
  {
    if rows != [] {
      var init, last := rows[..|rows| - 1], rows[|rows| - 1];
      UniqueCount(init);
      HashesOneMore(init, last);
      assert rows == init + [last];
      assert last.dedupHash !in HashesOf(init);
    }
  }

  /** The new rows have exactly the batch's unknown hashes, each once. */
  lemma NewRowsHashes(h: Hash, account: string, scanRun: string, known: set<string>, batch: seq<Finding>)
    ensures var added := NewRows(h, account, scanRun, known, batch);
            && HashesOf(added) == BatchHashes(h, account, batch) - known
            && UniqueHashes(added)
            && |added| == |BatchHashes(h, account, batch) - known|
  {
    UnknownHashes(h, account, scanRun, known, batch);
    UniqueCount(NewRows(h, account, scanRun, known, batch));
  }

  lemma {:induction false} UnknownHashes(h: Hash, account: string, scanRun: string, known: set<string>,
                                         batch: seq<Finding>)
    ensures HashesOf(NewRows(h, account, scanRun, known, batch)) == BatchHashes(h, account, batch) - known
    ensures UniqueHashes(NewRows(h, account, scanRun, known, batch))
    decreases |batch|
  {
    if batch != [] {
      var n := |batch| - 1;
      UnknownHashes(h, account, scanRun, known, batch[..n]);
      OneMore(h, account, scanRun, known, batch, n);
      assert batch[..n + 1] == batch;
      var rows, row := NewRows(h, account, scanRun, known, batch[..n]), RowFor(h, account, scanRun, batch[n]);
      if row.dedupHash !in known && row.dedupHash !in HashesOf(rows) {
        HashesOneMore(rows, row);
        UniqueOneMore(rows, row);
      }
    }
  }

  /** Each new row was made of the first finding of the batch with its hash. */
  lemma {:induction false} NewRowsAreFirst(h: Hash, account: string, scanRun: string, known: set<string>,
                                           batch: seq<Finding>, row: FindingRow)
    requires row in NewRows(h, account, scanRun, known, batch)
    ensures exists i: nat :: i < |batch| && row == RowFor(h, account, scanRun, batch[i]) && row.dedupHash !in known
                             && row.dedupHash !in BatchHashes(h, account, batch[..i])
  {
    var n := |batch| - 1;
    OneMore(h, account, scanRun, known, batch, n);
    assert batch[..n + 1] == batch;
    if row in NewRows(h, account, scanRun, known, batch[..n]) {
      NewRowsAreFirst(h, account, scanRun, known, batch[..n], row);
      var i: nat :| i < n && row == RowFor(h, account, scanRun, batch[..n][i]) && row.dedupHash !in known
                    && row.dedupHash !in BatchHashes(h, account, batch[..n][..i]);
      assert batch[..n][..i] == batch[..i];
    }
  }

  /** Persisting a batch: the hash set becomes the union, and unique hashes stay unique. */
  lemma PersistedTable(h: Hash, account: string, scanRun: string, rows: seq<FindingRow>, batch: seq<Finding>)
    ensures var rows' := rows + NewRows(h, account, scanRun, HashesOf(rows), batch);
            && HashesOf(rows') == HashesOf(rows) + BatchHashes(h, account, batch)
            && (UniqueHashes(rows) ==> UniqueHashes(rows'))
  {
    NewRowsHashes(h, account, scanRun, HashesOf(rows), batch);
    HashesConcat(rows, NewRows(h, account, scanRun, HashesOf(rows), batch));
    if UniqueHashes(rows) {
      UniqueConcat(rows, NewRows(h, account, scanRun, HashesOf(rows), batch));
    }
  }

  /** What a new row says: the account and scan run it was stored for, a finding of the batch, and the hash of
      its own account, check and resource. */
  lemma {:induction false} NewRowsAreLabelled(h: Hash, account: string, scanRun: string, known: set<string>,
                                              batch: seq<Finding>)
    ensures forall r | r in NewRows(h, account, scanRun, known, batch) ::
              && r.account == account && r.scanRun == scanRun && r.finding in batch
              && r.dedupHash == h(account + "|" + r.finding.checkId + "|" + r.finding.resource)
    decreases |batch|
  {
    if batch != [] {
      NewRowsAreLabelled(h, account, scanRun, known, batch[..|batch| - 1]);
      assert batch == batch[..|batch| - 1] + [batch[|batch| - 1]];
    }
  }

  lemma SameLabelSameHash(h: Hash, rows: seq<FindingRow>)
    requires UniqueHashes(rows)
    requires forall r | r in rows ::
               r.dedupHash == h(r.account + "|" + r.finding.checkId + "|" + r.finding.resource)
    ensures Labelled(h, rows)
  {
    forall i | 0 <= i < |rows| ensures rows[i] in rows {
    }
  }

  lemma RowOfHash(rows: seq<FindingRow>, hash: string) returns (i: nat)
    requires hash in HashesOf(rows)
    ensures i < |rows| && rows[i].dedupHash == hash
  {
    var r :| r in rows && r.dedupHash == hash;
    i :| 0 <= i < |rows| && rows[i] == r;
  }

  lemma StoredAs(h: Hash, account: string, scanRun: string, rows: seq<FindingRow>, batch: seq<Finding>, n: nat)
    returns (i: nat)
    requires Labelled(h, rows) && Tellable(h, rows, account, batch) && n < |batch|
    ensures var rows' := rows + NewRows(h, account, scanRun, HashesOf(rows), batch);
            && i < |rows'| && rows'[i].account == account
            && rows'[i].finding.checkId == batch[n].checkId && rows'[i].finding.resource == batch[n].resource
  {
    var added := NewRows(h, account, scanRun, HashesOf(rows), batch);
    var f := batch[n];
    PersistedTable(h, account, scanRun, rows, batch);
    NewRowsAreLabelled(h, account, scanRun, HashesOf(rows), batch);
    i := RowOfHash(rows + added, DedupHash(h, account, f));
    var r := (rows + added)[i];
    if i < |rows| {
      assert !Collide(h, account + "|" + f.checkId + "|" + f.resource,
                      rows[i].account + "|" + rows[i].finding.checkId + "|" + rows[i].finding.resource);
      KeyIsInjective(account, f.checkId, f.resource, r.account, r.finding.checkId, r.finding.resource);
    } else {
      assert r in added;
      var m :| 0 <= m < |batch| && batch[m] == r.finding;
      assert !Collide(h, account + "|" + f.checkId + "|" + f.resource,
                      account + "|" + batch[m].checkId + "|" + batch[m].resource);
      KeyIsInjective(account, f.checkId, f.resource, account, r.finding.checkId, r.finding.resource);
    }
  }

  /** After persisting, every finding of the batch has exactly one row with its account, check and resource;
      so findings that differ in check or resource have rows of their own. */
  lemma EachFindingIsStored(h: Hash, account: string, scanRun: string, rows: seq<FindingRow>, batch: seq<Finding>)
    requires Labelled(h, rows) && Tellable(h, rows, account, batch)
    ensures var rows' := rows + NewRows(h, account, scanRun, HashesOf(rows), batch);
            && Labelled(h, rows')
            && forall f | f in batch ::
                 exists i | 0 <= i < |rows'| ::
                   && rows'[i].account == account
                   && rows'[i].finding.checkId == f.checkId && rows'[i].finding.resource == f.resource
  {
    var added := NewRows(h, account, scanRun, HashesOf(rows), batch);
    PersistedTable(h, account, scanRun, rows, batch);
    NewRowsAreLabelled(h, account, scanRun, HashesOf(rows), batch);
    SameLabelSameHash(h, rows + added);
    forall f | f in batch
      ensures exists i | 0 <= i < |rows + added| ::
                && (rows + added)[i].account == account
                && (rows + added)[i].finding.checkId == f.checkId && (rows + added)[i].finding.resource == f.resource
    {
      var n :| 0 <= n < |batch| && batch[n] == f;
      var i := StoredAs(h, account, scanRun, rows, batch, n);
    }
  }

  /** A batch adds no row exactly when the table has all its hashes, whatever else its findings say. */
  lemma AddsNothingIff(h: Hash, account: string, scanRun: string, rows: seq<FindingRow>, batch: seq<Finding>)
    ensures NewRows(h, account, scanRun, HashesOf(rows), batch) == [] <==>
            BatchHashes(h, account, batch) <= HashesOf(rows)
  {
    NewRowsHashes(h, account, scanRun, HashesOf(rows), batch);
  }

  /** A rescan whose findings have dedup keys of the first scan, in any order, with repeats and with any
      change of the other fields, adds no row. */
  lemma RescanAddsNothing(h: Hash, account: string, first: string, second: string, rows: seq<FindingRow>,
                          batch: seq<Finding>, again: seq<Finding>)
    requires forall f | f in again :: exists g | g in batch :: DedupHash(h, account, f) == DedupHash(h, account, g)
    ensures NewRows(h, account, second, HashesOf(rows + NewRows(h, account, first, HashesOf(rows), batch)), again) == []
  {
    PersistedTable(h, account, first, rows, batch);
    AddsNothingIff(h, account, second, rows + NewRows(h, account, first, HashesOf(rows), batch), again);
  }
}
