/** The hash-chained audit log: recording, verification and the retention purge. */
module Audit {
  import opened Json
  import opened Seqs
  import opened Wrappers

  /** The hashed content of an entry.  `_entry_hash` is SHA-256 of its sorted-key JSON dump; the model
      takes the two together as one function of these fields. */
  datatype Payload = Payload(
    prev: string,
    seqNo: int,
    org: Option<string>,
    user: Option<string>,
    action: string,
    resource: Option<string>,
    meta: Option<Json>,
    ip: Option<string>)

  type Hash = Payload -> string

  const GENESIS := "genesis"

  /** A digest has 64 characters, so it is neither "genesis" nor empty. */
  ghost predicate IsDigest(h: Hash) {
    forall p :: |h(p)| == 64
  }

  datatype Entry = Entry(
    org: Option<string>,
    user: Option<string>,
    action: string,
    resource: Option<string>,
    meta: Option<Json>,
    ip: Option<string>,
    ts: int,
    seqNo: int,
    prevHash: Option<string>,
    entryHash: Option<string>)

  function PayloadOf(e: Entry, prev: string): Payload {
    Payload(prev, e.seqNo, e.org, e.user, e.action, e.resource, e.meta, e.ip)
  }

  /** The two entries have different hashed content and the same digest. */
  ghost predicate Clash(h: Hash, a: Entry, b: Entry) {
    && a.prevHash.Some? && b.prevHash.Some?
    && PayloadOf(a, a.prevHash.value) != PayloadOf(b, b.prevHash.value)
    && h(PayloadOf(a, a.prevHash.value)) == h(PayloadOf(b, b.prevHash.value))
  }

  /** No two of the entries in hand collide. */
  ghost predicate Sound(h: Hash, es: seq<Entry>) {
    IsDigest(h) && forall i, j | 0 <= i < |es| && 0 <= j < |es| :: !Clash(h, es[i], es[j])
  }

  /** Two self-consistent entries with one entry hash have the same hashed content. */
  lemma SameHashSameContent(h: Hash, es: seq<Entry>, a: Entry, b: Entry)
    requires Sound(h, es) && a in es && b in es
    requires SelfConsistent(h, a) && SelfConsistent(h, b) && a.entryHash == b.entryHash
    ensures a.(ts := 0) == b.(ts := 0)
  {
    var i :| 0 <= i < |es| && es[i] == a;
    var j :| 0 <= j < |es| && es[j] == b;
    assert !Clash(h, es[i], es[j]);
  }

  lemma SoundSubset(h: Hash, es: seq<Entry>, part: seq<Entry>)
    requires Sound(h, es) && forall e | e in part :: e in es
    ensures Sound(h, part)
  {
    forall i, j | 0 <= i < |part| && 0 <= j < |part| ensures !Clash(h, part[i], part[j]) {
      assert part[i] in es && part[j] in es;
      var a :| 0 <= a < |es| && es[a] == part[i];
      var b :| 0 <= b < |es| && es[b] == part[j];
      assert !Clash(h, es[a], es[b]);
    }
  }

  /** The entry `record_action` writes when the last row it read was `prev`. */
  function NewEntry(h: Hash, prev: Option<Entry>, org: Option<string>, user: Option<string>, action: string,
                    resource: Option<string>, meta: Option<Json>, ip: Option<string>, ts: int): (e: Entry)
  {
    var prevHash := if prev.Some? && prev.value.entryHash.Some? && prev.value.entryHash.value != ""
                    then prev.value.entryHash.value else GENESIS;
    var seqNo := if prev.Some? then prev.value.seqNo + 1 else 1;
    Sealed(h, Entry(org, user, action, resource, meta, ip, ts, seqNo, Some(prevHash), None))
  }

  /** Fill in the entry hash. */
  function Sealed(h: Hash, e: Entry): Entry
    requires e.prevHash.Some?
  {
    e.(entryHash := Some(h(PayloadOf(e, e.prevHash.value))))
  }

  // ----- verification ---------------------------------------------------------------

  function TipBefore(es: seq<Entry>, i: nat): Option<string>
    requires i <= |es|
  {
    if i == 0 then Some(GENESIS) else es[i - 1].entryHash
  }

  predicate SelfConsistent(h: Hash, e: Entry) {
    e.prevHash.Some? && e.entryHash == Some(h(PayloadOf(e, e.prevHash.value)))
  }

  ghost predicate LinkedAt(h: Hash, es: seq<Entry>, i: nat)
    requires i < |es|
  {
    SelfConsistent(h, es[i]) && es[i].prevHash == TipBefore(es, i)
  }

  /** Every entry carries its own hash and names its predecessor's. */
  ghost predicate ChainValid(h: Hash, es: seq<Entry>) {
    forall i: nat | i < |es| :: LinkedAt(h, es, i)
  }

  /** An honestly built log: a valid chain numbered 1, 2, 3, ... */
  ghost predicate Honest(h: Hash, es: seq<Entry>) {
    ChainValid(h, es) && forall i | 0 <= i < |es| :: es[i].seqNo == i + 1
  }

  function OrgRows(rows: seq<Entry>, org: Option<string>): seq<Entry> {
    Filter(rows, OfOrg(org))
  }

  /** An answer the database may give to "the org's rows by ascending seq"; ties come in any order. */
  ghost predicate IsOrdered(rows: seq<Entry>, org: Option<string>, es: seq<Entry>) {
    multiset(es) == multiset(OrgRows(rows, org)) && Sorted(es)
  }

  /** An answer the database may give to "the org's row with the greatest seq". */
  ghost predicate IsLast(rows: seq<Entry>, org: Option<string>, last: Option<Entry>) {
    match last
    case None => forall e | e in rows :: e.org != org
    case Some(l) => l in rows && l.org == org && forall e | e in rows && e.org == org :: e.seqNo <= l.seqNo
  }

  function Retained(cutoff: int): Entry -> bool {
    (e: Entry) => e.ts >= cutoff
  }

  function OfOrg(org: Option<string>): Entry -> bool {
    (e: Entry) => e.org == org
  }

  class AuditLog {
    const hash: Hash
    var rows: seq<Entry>

    constructor (h: Hash)
      ensures hash == h && rows == []
    {
      hash, rows := h, [];
    }

    /** Append one entry; `prev` is the row the request read.  A failed write is rolled back silently. */
    method RecordAction(prev: Option<Entry>, org: Option<string>, user: Option<string>, action: string,
                        resource: Option<string>, meta: Option<Json>, ip: Option<string>, ts: int, commits: bool)
      modifies this
      ensures rows == old(rows) +
                      if commits then [NewEntry(hash, prev, org, user, action, resource, meta, ip, ts)] else []
      ensures !commits ==> rows == old(rows)
      ensures commits ==> |rows| == |old(rows)| + 1 && old(rows) <= rows
      ensures commits ==>
                var e := rows[|old(rows)|];
                && e.org == org && e.user == user && e.action == action && e.resource == resource
                && e.meta == meta && e.ip == ip && e.ts == ts
                && e.seqNo == (if prev.Some? then prev.value.seqNo + 1 else 1)
      ensures commits ==>
                var e := rows[|old(rows)|];
                var link := if prev.Some? && prev.value.entryHash.Some? && prev.value.entryHash.value != ""
                            then prev.value.entryHash.value else "genesis";
                && e.prevHash == Some(link)
                && e.entryHash == Some(hash(Payload(link, e.seqNo, org, user, action, resource, meta, ip)))
    {
      var prevHash := if prev.Some? && prev.value.entryHash.Some? && prev.value.entryHash.value != ""
                      then prev.value.entryHash.value else GENESIS;
      var entry := Entry(org, user, action, resource, meta, ip, ts,
                         if prev.Some? then prev.value.seqNo + 1 else 1, None, None);
      if commits {
        entry := entry.(prevHash := Some(prevHash));
        entry := entry.(entryHash := Some(hash(PayloadOf(entry, prevHash))));
        rows := rows + [entry];
      }
    }

    /** Recompute the chain over the org's rows as the database ordered them. */
    method VerifyChain(entries: seq<Entry>) returns (intact: bool)
      ensures intact <==> ChainValid(hash, entries)
    {
      var prevHash := GENESIS;
      for i := 0 to |entries|
        invariant TipBefore(entries, i) == Some(prevHash)
        invariant forall j: nat | j < i :: LinkedAt(hash, entries, j)
      {
        var e := entries[i];
        if e.prevHash != Some(prevHash) {
          assert !LinkedAt(hash, entries, i);
          return false;
        }
        if e.entryHash != Some(hash(PayloadOf(e, prevHash))) {
          assert !LinkedAt(hash, entries, i);
          return false;
        }
        prevHash := e.entryHash.value;
      }
      return true;
    }

    /** Delete the rows of every org that are older than the cutoff. */
    method RetentionPurge(cutoff: int) returns (purged: nat)
      modifies this
      ensures rows == Filter(old(rows), Retained(cutoff))
      ensures purged + |rows| == |old(rows)|
    {
      var kept: seq<Entry> := [];
      purged := 0;
      for i := 0 to |rows|
        invariant rows == old(rows)
        invariant kept == Filter(rows[..i], Retained(cutoff))
        invariant purged + |kept| == i
      {
        assert rows[..i + 1][..i] == rows[..i];
        if Retained(cutoff)(rows[i]) {
          kept := kept + [rows[i]];
        } else {
          purged := purged + 1;
        }
      }
      assert rows[..|rows|] == rows;
      rows := kept;
    }
  }

  // ----- what a valid chain fixes ----------------------------------------------------

  /** In a valid chain no two entries name the same predecessor. */
  lemma {:induction false} PrevHashesDistinct(h: Hash, es: seq<Entry>, i: nat, j: nat)
    requires Sound(h, es) && ChainValid(h, es) && i < j < |es|
    ensures es[i].prevHash != es[j].prevHash
  {
    if es[i].prevHash == es[j].prevHash {
      assert LinkedAt(h, es, i);
      assert LinkedAt(h, es, j);
      assert LinkedAt(h, es, j - 1);
      if i > 0 {
        assert LinkedAt(h, es, i - 1);
        PrevHashesDistinct(h, es, i - 1, j - 1);
        SameHashSameContent(h, es, es[i - 1], es[j - 1]);
      }
    }
  }

  lemma ChainPrefix(h: Hash, es: seq<Entry>, n: nat)
    requires ChainValid(h, es) && n <= |es|
    ensures ChainValid(h, es[..n])
  {
    forall i: nat | i < n ensures LinkedAt(h, es[..n], i) {
      assert LinkedAt(h, es, i);
    }
  }

  /** Two verified logs that end in the same entry hash agree on every hashed field of every entry. */
  lemma {:induction false} SameTipSameLog(h: Hash, a: seq<Entry>, b: seq<Entry>)
    requires Sound(h, a + b) && ChainValid(h, a) && ChainValid(h, b)
    requires TipBefore(a, |a|) == TipBefore(b, |b|)
    ensures |a| == |b|
    ensures forall i | 0 <= i < |a| :: a[i].(ts := 0) == b[i].(ts := 0)
  {
    var m, n := |a| - 1, |b| - 1;
    if a != [] {
      assert LinkedAt(h, a, m);
    }
    if b != [] {
      assert LinkedAt(h, b, n);
    }
    if a != [] && b != [] {
      SameHashSameContent(h, a + b, a[m], b[n]);
      SoundSubset(h, a + b, a[..m] + b[..n]);
      ChainPrefix(h, a, m);
      ChainPrefix(h, b, n);
      SameTipSameLog(h, a[..m], b[..n]);
      forall i | 0 <= i < |a| ensures a[i].(ts := 0) == b[i].(ts := 0) {
        if i < m {
          assert a[..m][i].(ts := 0) == b[..n][i].(ts := 0);
        }
      }
    }
  }

  // ----- deletion -----------------------------------------------------------------------

  ghost predicate Increasing(ks: seq<nat>, n: nat) {
    && (forall p | 0 <= p < |ks| :: ks[p] < n)
    && (forall p, q | 0 <= p < q < |ks| :: ks[p] < ks[q])
  }

  /** The rows left at positions `ks`. */
  function Survivors(es: seq<Entry>, ks: seq<nat>): seq<Entry>
    requires forall p | 0 <= p < |ks| :: ks[p] < |es|
  {
    seq(|ks|, p requires 0 <= p < |ks| => es[ks[p]])
  }

  /** After deleting any set of rows from a valid chain, verification succeeds exactly when the
      survivors are a prefix: only the end of the log can be cut unnoticed. */
  lemma SurvivorsFormPrefix(h: Hash, es: seq<Entry>, ks: seq<nat>)
    requires Sound(h, es) && ChainValid(h, es) && Increasing(ks, |es|)
    ensures ChainValid(h, Survivors(es, ks)) <==> forall p | 0 <= p < |ks| :: ks[p] == p
  {
    var left := Survivors(es, ks);
    if ChainValid(h, left) {
      forall p | 0 <= p < |ks| ensures ks[p] == p {
        SurvivorInPlace(h, es, ks, p);
      }
    }
    if forall p | 0 <= p < |ks| :: ks[p] == p {
      forall i: nat | i < |left| ensures LinkedAt(h, left, i) {
        assert ks[i] == i;
        assert LinkedAt(h, es, i);
      }
    }
  }

  lemma {:induction false} SurvivorInPlace(h: Hash, es: seq<Entry>, ks: seq<nat>, p: nat)
    requires Sound(h, es) && ChainValid(h, es) && Increasing(ks, |es|) && p < |ks|
    requires ChainValid(h, Survivors(es, ks))
    ensures ks[p] == p
  {
    var left := Survivors(es, ks);
    if p > 0 {
      SurvivorInPlace(h, es, ks, p - 1);
    }
    assert LinkedAt(h, left, p);
    assert LinkedAt(h, es, p);
    if ks[p] > p {
      PrevHashesDistinct(h, es, p, ks[p]);
    }
  }

  ghost predicate Sorted(es: seq<Entry>) {
    forall i, j | 0 <= i < j < |es| :: es[i].seqNo <= es[j].seqNo
  }

  ghost predicate Numbered(es: seq<Entry>) {
    forall i, j | 0 <= i < j < |es| :: es[i].seqNo < es[j].seqNo
  }

  /** Rows sorted by distinct numbers have only one order. */
  lemma {:induction false} OrderIsUnique(a: seq<Entry>, b: seq<Entry>)
    requires multiset(a) == multiset(b) && Sorted(a) && Numbered(b)
    ensures a == b
  {
    SameBagSameLength(a, b);
    if a != [] {
      SameFirst(a, b);
      assert a == [a[0]] + a[1..] && b == [b[0]] + b[1..];
      assert multiset(a[1..]) == multiset(a) - multiset{a[0]};
      assert multiset(b[1..]) == multiset(b) - multiset{b[0]};
      TailsOrdered(a, b);
      OrderIsUnique(a[1..], b[1..]);
    }
  }

  lemma TailsOrdered(a: seq<Entry>, b: seq<Entry>)
    requires a != [] && b != [] && Sorted(a) && Numbered(b)
    ensures Sorted(a[1..]) && Numbered(b[1..])
  {
  }

  lemma SameFirst(a: seq<Entry>, b: seq<Entry>)
    requires multiset(a) == multiset(b) && a != [] && b != [] && Sorted(a) && Numbered(b)
    ensures a[0] == b[0]
  {
    assert a[0] in multiset(a) && b[0] in multiset(b);
    assert a[0] in b && b[0] in a;
    var i :| 0 <= i < |b| && b[i] == a[0];
    var j :| 0 <= j < |a| && a[j] == b[0];
  }

  ghost predicate Chronological(es: seq<Entry>) {
    forall i, j | 0 <= i < j < |es| :: es[i].ts <= es[j].ts
  }

  /** Deleting from the table and deleting from the org's log come to the same rows. */
  lemma DeletionOfOrg(rows: seq<Entry>, org: Option<string>, es: seq<Entry>, keep: Entry -> bool, left: seq<Entry>)
    requires IsOrdered(rows, org, es) && Numbered(es)
    requires IsOrdered(Filter(rows, keep), org, left)
    ensures left == Filter(es, keep)
  {
    var both := (e: Entry) => e.org == org && keep(e);
    FilterFilter(rows, keep, OfOrg(org), both);
    FilterFilter(rows, OfOrg(org), keep, both);
    FilterPermuted(es, OrgRows(rows, org), keep);
    FilterNumbered(es, keep);
    OrderIsUnique(left, Filter(es, keep));
  }

  lemma {:induction false} FilterNumbered(es: seq<Entry>, p: Entry -> bool)
    requires Numbered(es)
    ensures Numbered(Filter(es, p))
  {
    if es != [] {
      var init, last := es[..|es| - 1], es[|es| - 1];
      FilterNumbered(init, p);
      forall e | e in Filter(init, p) ensures e.seqNo < last.seqNo {
        FilterMembers(init, p, e);
        var i :| 0 <= i < |init| && init[i] == e;
        assert es[i].seqNo < es[|es| - 1].seqNo;
      }
    }
  }

  lemma {:induction false} KeptPositions(es: seq<Entry>, keep: Entry -> bool) returns (ks: seq<nat>)
    ensures Increasing(ks, |es|) && Survivors(es, ks) == Filter(es, keep)
    ensures forall i: nat | i < |es| :: keep(es[i]) <==> i in ks
    decreases |es|
  {
    ks := [];
    if es != [] {
      var n := |es| - 1;
      ks := KeptPositions(es[..n], keep);
      assert Survivors(es, ks) == Survivors(es[..n], ks);
      if keep(es[n]) {
        assert Survivors(es, ks + [n]) == Survivors(es, ks) + [es[n]];
        ks := ks + [n];
      }
    }
  }

  /** Positions with no gap below any of them count up from zero. */
  lemma {:induction false} NoGaps(ks: seq<nat>, n: nat, p: nat)
    requires Increasing(ks, n) && p < |ks|
    requires forall i: nat, q: nat | q < |ks| && i < ks[q] :: i in ks
    ensures ks[p] == p
  {
    if p > 0 {
      NoGaps(ks, n, p - 1);
      if ks[p] > p {
        assert p in ks;
      }
    } else if ks[0] > 0 {
      assert 0 in ks;
    }
  }

  lemma PrefixIsClosed(es: seq<Entry>, keep: Entry -> bool, ks: seq<nat>)
    requires forall i: nat | i < |es| :: keep(es[i]) <==> i in ks
    requires forall p | 0 <= p < |ks| :: ks[p] == p
    ensures forall i, j | 0 <= i < j < |es| && keep(es[j]) :: keep(es[i])
  {
    forall i, j | 0 <= i < j < |es| && keep(es[j]) ensures keep(es[i]) {
      assert j in ks;
      assert ks[i] == i;
    }
  }

  lemma ClosedIsPrefix(es: seq<Entry>, keep: Entry -> bool, ks: seq<nat>)
    requires Increasing(ks, |es|) && forall i: nat | i < |es| :: keep(es[i]) <==> i in ks
    requires forall i, j | 0 <= i < j < |es| && keep(es[j]) :: keep(es[i])
    ensures forall p | 0 <= p < |ks| :: ks[p] == p
  {
    forall i: nat, q: nat | q < |ks| && i < ks[q] ensures i in ks {
      assert ks[q] in ks && keep(es[ks[q]]) && keep(es[i]);
    }
    forall p | 0 <= p < |ks| ensures ks[p] == p {
      NoGaps(ks, |es|, p);
    }
  }

  /** Deleting any rows of an org's honest log from the table goes unnoticed exactly when no deleted row
      comes before a kept one: only the end of the log can be cut. */
  lemma DeletionIsDetected(h: Hash, rows: seq<Entry>, org: Option<string>, es: seq<Entry>, keep: Entry -> bool,
                           left: seq<Entry>)
    requires Sound(h, es) && IsOrdered(rows, org, es) && Honest(h, es)
    requires IsOrdered(Filter(rows, keep), org, left)
    ensures ChainValid(h, left) <==> forall i, j | 0 <= i < j < |es| && keep(es[j]) :: keep(es[i])
  {
    DeletionOfOrg(rows, org, es, keep, left);
    var ks := KeptPositions(es, keep);
    SurvivorsFormPrefix(h, es, ks);
    if ChainValid(h, left) {
      PrefixIsClosed(es, keep, ks);
    }
    if forall i, j | 0 <= i < j < |es| && keep(es[j]) :: keep(es[i]) {
      ClosedIsPrefix(es, keep, ks);
    }
  }

  /** The retention purge keeps an honestly built log verifiable exactly when it removes none or all
      of the org's rows, whichever order the database returns the remaining rows in. */
  lemma PurgeBreaksChain(h: Hash, rows: seq<Entry>, org: Option<string>, es: seq<Entry>, cutoff: int, left: seq<Entry>)
    requires Sound(h, es) && IsOrdered(rows, org, es) && Honest(h, es) && Chronological(es)
    requires IsOrdered(Filter(rows, Retained(cutoff)), org, left)
    ensures ChainValid(h, left) <==>
            || (forall e | e in es :: Retained(cutoff)(e))
            || (forall e | e in es :: !Retained(cutoff)(e))
  {
    DeletionIsDetected(h, rows, org, es, Retained(cutoff), left);
    if ChainValid(h, left) {
      forall i, j | 0 <= i < |es| && 0 <= j < |es| && Retained(cutoff)(es[j]) ensures Retained(cutoff)(es[i]) {
      }
    }
  }

  // ----- replacing one row of the table -------------------------------------------------------

  /** Replacing the entry at one place: it must keep its link and carry its own hash, and unless it is
      the last one its hashed fields must not change. */
  lemma ReplacedEntry(h: Hash, es: seq<Entry>, p: nat, e: Entry)
    requires Sound(h, es + [e]) && ChainValid(h, es) && p < |es|
    ensures ChainValid(h, es[p := e]) <==>
            && SelfConsistent(h, e)
            && e.prevHash == es[p].prevHash
            && (p + 1 < |es| ==> e.(ts := es[p].ts) == es[p])
  {
    var es' := es[p := e];
    assert LinkedAt(h, es, p);
    if p + 1 < |es| {
      assert LinkedAt(h, es, p + 1);
    }
    if ChainValid(h, es') {
      assert LinkedAt(h, es', p);
      if p + 1 < |es| {
        assert LinkedAt(h, es', p + 1);
        SameHashSameContent(h, es + [e], e, es[p]);
      }
    }
    if SelfConsistent(h, e) && e.prevHash == es[p].prevHash && (p + 1 < |es| ==> e.entryHash == es[p].entryHash) {
      forall i: nat | i < |es'| ensures LinkedAt(h, es', i) {
        assert LinkedAt(h, es, i);
      }
    }
  }

  function Without(es: seq<Entry>, p: nat): seq<Entry>
    requires p < |es|
  {
    es[..p] + es[p + 1..]
  }

  lemma WithoutBag(es: seq<Entry>, p: nat)
    requires p < |es|
    ensures multiset(es) == multiset(Without(es, p)) + multiset{es[p]}
  {
    assert es == es[..p] + [es[p]] + es[p + 1..];
  }

  lemma WithoutAt(es: seq<Entry>, p: nat)
    requires p < |es|
    ensures |Without(es, p)| == |es| - 1
    ensures forall i | 0 <= i < p :: Without(es, p)[i] == es[i]
    ensures forall i | p < i < |es| :: es[i] == Without(es, p)[i - 1]
  {
  }

  lemma WithoutOrder(es: seq<Entry>, p: nat)
    requires p < |es|
    ensures Sorted(es) ==> Sorted(Without(es, p))
    ensures Numbered(es) ==> Numbered(Without(es, p))
  {
    var rest := Without(es, p);
    assert forall i | 0 <= i < |rest| :: rest[i] == es[if i < p then i else i + 1];
  }

  lemma TableBag(rows: seq<Entry>, org: Option<string>, es: seq<Entry>, k: nat, e: Entry, left: seq<Entry>)
    requires k < |rows| && rows[k].org == org
    requires IsOrdered(rows, org, es) && IsOrdered(rows[k := e], org, left)
    ensures multiset(left) + multiset{rows[k]} == multiset(es) + (if e.org == org then multiset{e} else multiset{})
  {
    FilterUpdate(rows, OfOrg(org), k, e);
  }

  /** What the query returns after the row at place `p` of the org's log became `e`, if `e` has left. */
  lemma RowLeft(es: seq<Entry>, p: nat, left: seq<Entry>)
    requires Numbered(es) && p < |es| && Sorted(left)
    requires multiset(left) + multiset{es[p]} == multiset(es)
    ensures left == Without(es, p)
  {
    WithoutBag(es, p);
    WithoutOrder(es, p);
    SameBag(multiset(left), multiset(Without(es, p)), es[p]);
    OrderIsUnique(left, Without(es, p));
  }

  /** ... and if `e` is still the org's: the other rows keep their order around it. */
  lemma RowStayed(es: seq<Entry>, p: nat, e: Entry, left: seq<Entry>, q: nat)
    requires Numbered(es) && p < |es| && Sorted(left) && q < |left| && left[q] == e
    requires multiset(left) + multiset{es[p]} == multiset(es) + multiset{e}
    ensures Without(left, q) == Without(es, p)
  {
    var a, b := Without(left, q), Without(es, p);
    WithoutBag(es, p);
    WithoutBag(left, q);
    WithoutOrder(es, p);
    WithoutOrder(left, q);
    SameBag(multiset(a) + multiset{es[p]}, multiset(b) + multiset{es[p]}, e);
    SameBag(multiset(a), multiset(b), es[p]);
    OrderIsUnique(a, b);
  }

  /** The place of a row in its org's honest log is told by its number. */
  lemma PlaceOfRow(h: Hash, rows: seq<Entry>, org: Option<string>, es: seq<Entry>, k: nat)
    requires IsOrdered(rows, org, es) && Honest(h, es) && k < |rows| && rows[k].org == org
    ensures 1 <= rows[k].seqNo <= |es| && es[rows[k].seqNo - 1] == rows[k]
  {
    FilterMembers(rows, OfOrg(org), rows[k]);
    assert rows[k] in multiset(es);
    var i :| 0 <= i < |es| && es[i] == rows[k];
  }

  /** Cutting one entry out of a valid chain is noticed unless it is the last. */
  lemma CutEntry(h: Hash, es: seq<Entry>, p: nat)
    requires Sound(h, es) && ChainValid(h, es) && p < |es|
    ensures ChainValid(h, Without(es, p)) <==> p + 1 == |es|
  {
    var ks: seq<nat> := seq(|es| - 1, i requires 0 <= i < |es| - 1 => if i < p then i else i + 1);
    assert Survivors(es, ks) == Without(es, p);
    SurvivorsFormPrefix(h, es, ks);
    if p + 1 < |es| {
      assert ks[p] == p + 1;
    }
  }

  lemma NotLater(h: Hash, es: seq<Entry>, p: nat, left: seq<Entry>)
    requires Sound(h, es) && ChainValid(h, es) && p + 1 < |es| == |left|
    requires left[p] == es[p + 1] && (p > 0 ==> left[p - 1] == es[p - 1])
    ensures !ChainValid(h, left)
  {
    if ChainValid(h, left) {
      assert LinkedAt(h, left, p) && LinkedAt(h, es, p) && LinkedAt(h, es, p + 1);
      PrevHashesDistinct(h, es, p, p + 1);
    }
  }

  lemma NotEarlier(h: Hash, es: seq<Entry>, e: Entry, left: seq<Entry>, q: nat)
    requires Sound(h, es + [e]) && ChainValid(h, es) && q + 1 < |es| == |left|
    requires left[q] == e && left[q + 1] == es[q] && (q > 0 ==> left[q - 1] == es[q - 1])
    ensures !ChainValid(h, left)
  {
    if ChainValid(h, left) {
      assert LinkedAt(h, left, q) && LinkedAt(h, left, q + 1) && LinkedAt(h, es, q);
      if q > 0 {
        assert LinkedAt(h, es, q - 1);
        SameHashSameContent(h, es + [e], e, es[q - 1]);
        SoundSubset(h, es + [e], es);
        PrevHashesDistinct(h, es, q - 1, q);
      }
    }
  }

  /** Among the other entries of the log, `e` can only stand where the entry it replaced stood. */
  lemma InsertedInPlace(h: Hash, es: seq<Entry>, p: nat, e: Entry, left: seq<Entry>, q: nat)
    requires Sound(h, es + [e]) && ChainValid(h, es) && p < |es| == |left|
    requires q < |left| && left[q] == e && Without(left, q) == Without(es, p)
    requires ChainValid(h, left)
    ensures q == p && left == es[p := e]
  {
    WithoutAt(es, p);
    WithoutAt(left, q);
    if p < q {
      SoundSubset(h, es + [e], es);
      NotLater(h, es, p, left);
    }
    if q < p {
      NotEarlier(h, es, e, left, q);
    }
  }

  /** Exactly which replacements of one row of an org's honest log go unnoticed, whatever becomes of its
      org, number and hashes.  A row before the last must keep its org and every hashed field.  The last
      row may leave the org; if it stays, it must keep its link, carry its own hash and still come last, as
      a number above all others makes sure and a number below another one prevents. */
  lemma ReplacedRow(h: Hash, rows: seq<Entry>, org: Option<string>, es: seq<Entry>, k: nat, e: Entry,
                    left: seq<Entry>)
    requires Sound(h, es + [e]) && IsOrdered(rows, org, es) && Honest(h, es)
    requires k < |rows| && rows[k].org == org && IsOrdered(rows[k := e], org, left)
    ensures rows[k].seqNo < |es| ==> (ChainValid(h, left) <==> e.(ts := rows[k].ts) == rows[k])
    ensures rows[k].seqNo == |es| ==>
              (ChainValid(h, left) <==>
               || e.org != org
               || (SelfConsistent(h, e) && e.prevHash == rows[k].prevHash && left != [] && left[|left| - 1] == e))
    ensures rows[k].seqNo == |es| && e.org == org ==>
              && left != []
              && (|es| == 1 || e.seqNo >= |es| ==> left[|left| - 1] == e)
              && (left[|left| - 1] == e ==> |es| == 1 || e.seqNo >= |es| - 1)
    ensures rows[k].seqNo <= |es|
  {
    PlaceOfRow(h, rows, org, es, k);
    TableBag(rows, org, es, k, e, left);
    SoundSubset(h, es + [e], es);
    var p := rows[k].seqNo - 1;
    if e.org != org {
      RowLeft(es, p, left);
      CutEntry(h, es, p);
    } else {
      ReplacedStaying(h, es, p, e, left);
      if p + 1 == |es| {
        ComesLast(es, e, left);
      }
    }
  }

  lemma ReplacedStaying(h: Hash, es: seq<Entry>, p: nat, e: Entry, left: seq<Entry>)
    requires Sound(h, es + [e]) && Honest(h, es) && p < |es| && Sorted(left)
    requires multiset(left) + multiset{es[p]} == multiset(es) + multiset{e}
    ensures p + 1 < |es| ==> (ChainValid(h, left) <==> e.(ts := es[p].ts) == es[p])
    ensures p + 1 == |es| ==>
              (ChainValid(h, left) <==>
               SelfConsistent(h, e) && e.prevHash == es[p].prevHash && left != [] && left[|left| - 1] == e)
  {
    StillThere(es, p, e, left);
    SoundSubset(h, es + [e], es);
    if ChainValid(h, left) {
      var q := LastPlaceOf(left, e);
      RowStayed(es, p, e, left, q);
      InsertedInPlace(h, es, p, e, left, q);
      ReplacedEntry(h, es, p, e);
    } else {
      if e.(ts := es[p].ts) == es[p] {
        UnhashedEdit(h, es, p, e, left);
      }
      if p + 1 == |es| && left[p] == e && SelfConsistent(h, e) && e.prevHash == es[p].prevHash {
        RowStayed(es, p, e, left, p);
        assert left == left[..p] + [e] && es[p := e] == es[..p] + [e];
        assert left[..p] == Without(left, p) && es[..p] == Without(es, p);
        ReplacedEntry(h, es, p, e);
      }
    }
  }

  lemma StillThere(es: seq<Entry>, p: nat, e: Entry, left: seq<Entry>)
    requires p < |es| && multiset(left) + multiset{es[p]} == multiset(es) + multiset{e}
    ensures |left| == |es| && e in left
  {
    assert |left| + 1 == |multiset(left) + multiset{es[p]}|;
    WithoutBag(es, p);
    SameBag(multiset(left), multiset(Without(es, p)) + multiset{e}, es[p]);
    assert e in multiset(left);
  }

  lemma LastPlaceOf(left: seq<Entry>, e: Entry) returns (q: nat)
    requires e in left
    ensures q < |left| && left[q] == e && (left[|left| - 1] == e ==> q == |left| - 1)
  {
    q :| 0 <= q < |left| && left[q] == e;
    if left[|left| - 1] == e {
      q := |left| - 1;
    }
  }

  /** A row that keeps its hashed fields stays in its place and keeps the chain valid. */
  lemma UnhashedEdit(h: Hash, es: seq<Entry>, p: nat, e: Entry, left: seq<Entry>)
    requires Honest(h, es) && p < |es| && Sorted(left)
    requires multiset(left) + multiset{es[p]} == multiset(es) + multiset{e}
    requires e.(ts := es[p].ts) == es[p]
    ensures left == es[p := e] && ChainValid(h, left)
  {
    ReplacedBag(es, p, e);
    SameBag(multiset(left), multiset(es[p := e]), es[p]);
    OrderIsUnique(left, es[p := e]);
    var es' := es[p := e];
    forall i: nat | i < |es'| ensures LinkedAt(h, es', i) {
      assert LinkedAt(h, es, i);
    }
  }

  lemma ReplacedBag(es: seq<Entry>, p: nat, e: Entry)
    requires p < |es|
    ensures multiset(es[p := e]) + multiset{es[p]} == multiset(es) + multiset{e}
  {
    WithoutBag(es, p);
    WithoutBag(es[p := e], p);
    assert Without(es[p := e], p) == Without(es, p);
  }

  /** Whether the row that replaced the last one comes last itself. */
  lemma ComesLast(es: seq<Entry>, e: Entry, left: seq<Entry>)
    requires Numbered(es) && es != [] && Sorted(left)
    requires multiset(left) + multiset{es[|es| - 1]} == multiset(es) + multiset{e}
    ensures left != []
    ensures |es| == 1 || e.seqNo > es[|es| - 2].seqNo ==> left[|left| - 1] == e
    ensures left[|left| - 1] == e ==> |es| == 1 || e.seqNo >= es[|es| - 2].seqNo
  {
    var p := |es| - 1;
    StillThere(es, p, e, left);
    var q := LastPlaceOf(left, e);
    RowStayed(es, p, e, left, q);
    var rest := Without(es, p);
    if p > 0 {
      assert rest[p - 1] == es[p - 1];
      assert q < p ==> left[p] == rest[p - 1];
      assert q == p ==> left[p - 1] == rest[p - 1];
    }
  }

  /** Editing a row without rehashing it: changed content is noticed by the org the row is then in, and
      the org it was moved away from notices unless it was that org's last row. */
  lemma EditIsDetected(h: Hash, rows: seq<Entry>, org: Option<string>, es: seq<Entry>, k: nat, e: Entry,
                       left: seq<Entry>, there: seq<Entry>)
    requires Sound(h, es + [e]) && IsOrdered(rows, org, es) && Honest(h, es)
    requires k < |rows| && rows[k].org == org
    requires e.prevHash == rows[k].prevHash && e.entryHash == rows[k].entryHash
    requires IsOrdered(rows[k := e], org, left) && IsOrdered(rows[k := e], e.org, there)
    ensures e.(ts := rows[k].ts) == rows[k] ==> ChainValid(h, left)
    ensures e.(ts := rows[k].ts) != rows[k] ==> !ChainValid(h, there)
    ensures e.org != org ==> (ChainValid(h, left) <==> rows[k].seqNo == |es|)
  {
    ReplacedRow(h, rows, org, es, k, e, left);
    if e.(ts := rows[k].ts) == rows[k] {
      AcceptedHere(h, rows, org, es, k, e, left);
    } else if ChainValid(h, there) {
      NoticedThere(h, rows, org, es, k, e, there);
    }
  }

  lemma AcceptedHere(h: Hash, rows: seq<Entry>, org: Option<string>, es: seq<Entry>, k: nat, e: Entry,
                     left: seq<Entry>)
    requires IsOrdered(rows, org, es) && Honest(h, es) && k < |rows| && rows[k].org == org
    requires IsOrdered(rows[k := e], org, left) && e.(ts := rows[k].ts) == rows[k]
    ensures ChainValid(h, left)
  {
    PlaceOfRow(h, rows, org, es, k);
    TableBag(rows, org, es, k, e, left);
    UnhashedEdit(h, es, rows[k].seqNo - 1, e, left);
  }

  lemma NoticedThere(h: Hash, rows: seq<Entry>, org: Option<string>, es: seq<Entry>, k: nat, e: Entry,
                     there: seq<Entry>)
    requires Sound(h, es + [e]) && IsOrdered(rows, org, es) && Honest(h, es)
    requires k < |rows| && rows[k].org == org
    requires e.prevHash == rows[k].prevHash && e.entryHash == rows[k].entryHash
    requires IsOrdered(rows[k := e], e.org, there) && ChainValid(h, there)
    ensures e.(ts := rows[k].ts) == rows[k]
  {
    PlaceOfRow(h, rows, org, es, k);
    FilterMembers(rows[k := e], OfOrg(e.org), e);
    assert rows[k := e][k] == e;
    CopiedHashes(h, es, rows[k].seqNo - 1, e, there);
  }

  /** A row that carries the hashes of another one verifies only with the same content. */
  lemma CopiedHashes(h: Hash, es: seq<Entry>, p: nat, e: Entry, there: seq<Entry>)
    requires Sound(h, es + [e]) && ChainValid(h, es) && p < |es| && ChainValid(h, there)
    requires e in multiset(there) && e.prevHash == es[p].prevHash && e.entryHash == es[p].entryHash
    ensures e.(ts := es[p].ts) == es[p]
  {
    var i :| 0 <= i < |there| && there[i] == e;
    assert LinkedAt(h, there, i) && LinkedAt(h, es, p);
    SameHashSameContent(h, es + [e], e, es[p]);
  }
}
