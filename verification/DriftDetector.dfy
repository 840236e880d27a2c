/** Structural drift detection: `diff_snapshots` and its inverse, the approval patch. */
module DriftDetector {
  import opened Json
  import opened Wrappers

  /** One resource's normalized configuration, and the configurations of one account by resource id. */
  type Config = map<string, Json>
  type Snapshot = map<string, Config>

  datatype DriftType = Created | Deleted | Changed | PermissionChanged

  datatype DriftDiff = DriftDiff(
    resourceId: string,
    resourceType: Json,
    driftType: DriftType,
    before: Option<Config>,
    after: Option<Config>)

  const SECURITY_SENSITIVE_TYPES := {
    "iam_policy", "iam_role", "iam_user", "s3_bucket", "security_group",
    "network_security_group", "firewall_rule", "kms_key"
  }

  const PERM_KEYS := {"ingress", "egress", "policy", "acl", "iam", "security_rules"}

  function Lookup<V>(m: map<string, V>, k: string): Option<V> {
    if k in m then Some(m[k]) else None
  }

  /** What `not DeepDiff(a, b, ignore_order=True)` says of two configurations. */
  predicate Same(a: Config, b: Config) {
    Equiv(Obj(a), Obj(b))
  }

  // ----- classification -----------------------------------------------------

  function LowerChar(c: char): char {
    if 'A' <= c <= 'Z' then (c as int + 32) as char else c
  }

  /** `p in s[i:].lower()` at its first position. */
  predicate MatchesAt(s: string, p: string, i: nat) {
    i + |p| <= |s| && forall t | 0 <= t < |p| :: LowerChar(s[i + t]) == p[t]
  }

  /** `p in s.lower()` */
  predicate LowerContains(s: string, p: string) {
    exists i | 0 <= i <= |s| :: MatchesAt(s, p, i)
  }

  /** `" ".join(keys)` */
  function Join(keys: seq<string>): string {
    if |keys| == 0 then ""
    else if |keys| == 1 then keys[0]
    else keys[0] + " " + Join(keys[1..])
  }

  predicate IsSecuritySensitive(resourceType: Json) {
    resourceType.Str? && resourceType.s in SECURITY_SENSITIVE_TYPES
  }

  /** The top-level keys on which two configurations differ. */
  function AffectedRootKeys(before: Config, after: Config): set<string> {
    set k | k in before.Keys + after.Keys &&
            !(k in before && k in after && Equiv(before[k], after[k]))
  }

  /** A change is a permission change when the type is sensitive or some differing key names a permission. */
  predicate TouchesPermissions(resourceType: Json, before: Config, after: Config) {
    || IsSecuritySensitive(resourceType)
    || exists k, pk | k in AffectedRootKeys(before, after) && pk in PERM_KEYS :: LowerContains(k, pk)
  }

  method ClassifyChange(resourceType: Json, before: Config, after: Config) returns (kind: DriftType)
    ensures kind == if TouchesPermissions(resourceType, before, after) then PermissionChanged else Changed
  {
    var affected := AffectedRootKeys(before, after);
    var keys: seq<string> := [];
    while affected != {}
      invariant (set k | k in keys) + affected == AffectedRootKeys(before, after)
      decreases affected
    {
      var k :| k in affected;
      affected, keys := affected - {k}, keys + [k];
    }
    var changedPaths := Join(keys);
    forall pk | pk in PERM_KEYS
      ensures LowerContains(changedPaths, pk) <==> exists k | k in keys :: LowerContains(k, pk)
    {
      JoinContains(keys, pk);
    }
    if exists pk | pk in PERM_KEYS :: LowerContains(changedPaths, pk) {
      var pk :| pk in PERM_KEYS && LowerContains(changedPaths, pk);
      var k :| k in keys && LowerContains(k, pk);
      assert k in AffectedRootKeys(before, after);
      kind := PermissionChanged;
    } else if IsSecuritySensitive(resourceType) {
      kind := PermissionChanged;
    } else {
      forall k, pk | k in AffectedRootKeys(before, after) && pk in PERM_KEYS ensures !LowerContains(k, pk) {
        assert k in keys;
      }
      kind := Changed;
    }
  }

  /** Searching the joined key string never finds a match that straddles two keys. */
  lemma {:induction false} JoinContains(keys: seq<string>, p: string)
    requires |p| > 0 && ' ' !in p
    ensures LowerContains(Join(keys), p) <==> exists k | k in keys :: LowerContains(k, p)
  {
    if |keys| >= 2 {
      JoinContains(keys[1..], p);
      ContainsAcrossSpace(keys[0], Join(keys[1..]), p);
      assert keys == [keys[0]] + keys[1..];
    }
  }

  lemma ContainsAcrossSpace(k: string, rest: string, p: string)
    requires |p| > 0 && ' ' !in p
    ensures LowerContains(k + " " + rest, p) <==> LowerContains(k, p) || LowerContains(rest, p)
  {
    var s := k + " " + rest;
    if LowerContains(s, p) {
      var i: nat :| i <= |s| && MatchesAt(s, p, i);
      if i <= |k| < i + |p| {
        MatchHasNoSpace(s, p, i, |k|);
      } else if i > |k| {
        MatchShift(k + " ", rest, p, i - |k| - 1);
        assert MatchesAt(rest, p, i - |k| - 1);
      } else {
        assert MatchesAt(k, p, i);
      }
    }
    if LowerContains(k, p) {
      var i: nat :| i <= |k| && MatchesAt(k, p, i);
      assert MatchesAt(s, p, i);
    }
    if LowerContains(rest, p) {
      var i: nat :| i <= |rest| && MatchesAt(rest, p, i);
      MatchShift(k + " ", rest, p, i);
      assert MatchesAt(s, p, |k| + 1 + i);
    }
  }

  lemma MatchShift(pre: string, rest: string, p: string, i: nat)
    ensures MatchesAt(pre + rest, p, |pre| + i) <==> MatchesAt(rest, p, i)
  {
    var s := pre + rest;
    forall t | 0 <= t < |p| && i + |p| <= |rest|
      ensures LowerChar(s[|pre| + i + t]) == p[t] <==> LowerChar(rest[i + t]) == p[t]
    {
    }
  }

  lemma MatchHasNoSpace(s: string, p: string, i: nat, at: nat)
    requires MatchesAt(s, p, i) && ' ' !in p && i <= at < i + |p|
    ensures s[at] != ' '
  {
    assert LowerChar(s[i + (at - i)]) == p[at - i];
    assert p[at - i] in p;
  }

  // ----- the diff -------------------------------------------------------------

  /** A resource drifted: present on one side only, or on both with configurations that are not the same. */
  predicate Differs(baseline: Snapshot, current: Snapshot, rid: string) {
    if rid in baseline && rid in current then !Same(baseline[rid], current[rid])
    else rid in baseline || rid in current
  }

  function KindOf(baseline: Snapshot, current: Snapshot, rid: string): DriftType {
    if rid !in baseline then Created
    else if rid !in current then Deleted
    else if TouchesPermissions(TypeOf(baseline, current, rid), baseline[rid], current[rid]) then PermissionChanged
    else Changed
  }

  /** The current side names the type when it can, then the baseline, then "unknown". */
  function TypeOf(baseline: Snapshot, current: Snapshot, rid: string): Json {
    if rid in current && "type" in current[rid] then current[rid]["type"]
    else if rid in baseline && "type" in baseline[rid] then baseline[rid]["type"]
    else Str("unknown")
  }

  function EventFor(baseline: Snapshot, current: Snapshot, rid: string): DriftDiff {
    DriftDiff(rid, TypeOf(baseline, current, rid), KindOf(baseline, current, rid),
              Lookup(baseline, rid), Lookup(current, rid))
  }

  /** `ds` holds exactly one event, the right one, for each drifted resource among `scope`. */
  ghost predicate IsDiffOver(baseline: Snapshot, current: Snapshot, ds: seq<DriftDiff>, scope: set<string>) {
    && (forall i | 0 <= i < |ds| ::
          && ds[i].resourceId in scope
          && Differs(baseline, current, ds[i].resourceId)
          && ds[i] == EventFor(baseline, current, ds[i].resourceId))
    && (forall i, j | 0 <= i < j < |ds| :: ds[i].resourceId != ds[j].resourceId)
    && (forall rid | rid in scope && Differs(baseline, current, rid) ::
          exists i | 0 <= i < |ds| :: ds[i].resourceId == rid)
  }

  ghost predicate IsDiff(baseline: Snapshot, current: Snapshot, ds: seq<DriftDiff>) {
    IsDiffOver(baseline, current, ds, baseline.Keys + current.Keys)
  }

  lemma ExtendDiff(baseline: Snapshot, current: Snapshot, ds: seq<DriftDiff>, scope: set<string>, rid: string)
    requires IsDiffOver(baseline, current, ds, scope) && rid !in scope
    ensures Differs(baseline, current, rid) ==>
              IsDiffOver(baseline, current, ds + [EventFor(baseline, current, rid)], scope + {rid})
    ensures !Differs(baseline, current, rid) ==> IsDiffOver(baseline, current, ds, scope + {rid})
  {
    if Differs(baseline, current, rid) {
      var es := ds + [EventFor(baseline, current, rid)];
      forall r | r in scope + {rid} && Differs(baseline, current, r)
        ensures exists i | 0 <= i < |es| :: es[i].resourceId == r
      {
        if r == rid {
          assert es[|ds|].resourceId == r;
        } else {
          var i :| 0 <= i < |ds| && ds[i].resourceId == r;
          assert es[i].resourceId == r;
        }
      }
    }
  }

  /** One event per drifted resource; each says what happened to its resource and shows both sides. */
  method DiffSnapshots(baseline: Snapshot, current: Snapshot) returns (drifts: seq<DriftDiff>)
    ensures IsDiff(baseline, current, drifts)
    ensures forall d | d in drifts ::
              && (d.driftType == Created <==> d.resourceId !in baseline)
              && (d.driftType == Deleted <==> d.resourceId !in current)
              && d.before == (if d.resourceId in baseline then Some(baseline[d.resourceId]) else None)
              && d.after == (if d.resourceId in current then Some(current[d.resourceId]) else None)
  {
    drifts := AddCreated(baseline, current);
    drifts := AddDeleted(baseline, current, drifts);
    drifts := AddChanged(baseline, current, drifts);
    forall i | 0 <= i < |drifts| {
      EventTellsDrift(baseline, current, drifts, i);
    }
  }

  /** What an event of a diff tells about its resource: which side it is missing on, the configurations, the
      type by the side that names it, and, for a change, whether permissions are involved. */
  lemma EventTellsDrift(baseline: Snapshot, current: Snapshot, ds: seq<DriftDiff>, i: nat)
    requires IsDiff(baseline, current, ds) && i < |ds|
    ensures var d := ds[i];
            var rid := d.resourceId;
            && (rid in baseline || rid in current)
            && (d.driftType == Created <==> rid !in baseline)
            && (d.driftType == Deleted <==> rid !in current)
            && d.before == (if rid in baseline then Some(baseline[rid]) else None)
            && d.after == (if rid in current then Some(current[rid]) else None)
    ensures var d := ds[i];
            && (d.after.Some? && "type" in d.after.value ==> d.resourceType == d.after.value["type"])
            && (d.before.Some? && "type" in d.before.value && (d.after.Some? ==> "type" !in d.after.value) ==>
                  d.resourceType == d.before.value["type"])
            && ((d.before.Some? ==> "type" !in d.before.value) && (d.after.Some? ==> "type" !in d.after.value) ==>
                  d.resourceType == Str("unknown"))
    ensures ds[i].before.Some? && ds[i].after.Some? ==>
              (ds[i].driftType == PermissionChanged <==>
               || ds[i].resourceType in {Str("iam_policy"), Str("iam_role"), Str("iam_user"), Str("s3_bucket"),
                                         Str("security_group"), Str("network_security_group"), Str("firewall_rule"),
                                         Str("kms_key")}
               || (exists k, pk | (k in ds[i].before.value || k in ds[i].after.value) &&
                                  pk in {"ingress", "egress", "policy", "acl", "iam", "security_rules"} ::
                     LowerContains(k, pk) && !(k in ds[i].before.value && k in ds[i].after.value &&
                                               Equiv(ds[i].before.value[k], ds[i].after.value[k]))))
  {
    var d := ds[i];
    assert d == EventFor(baseline, current, d.resourceId);
    if d.before.Some? && d.after.Some? {
      PermissionKeys(d.resourceType, d.before.value, d.after.value);
    }
  }

  /** Which resources have an event: those on one side only, and those whose configurations differ by more than
      order and repetition in lists; and each of them has one. */
  lemma EventIff(baseline: Snapshot, current: Snapshot, ds: seq<DriftDiff>, rid: string)
    requires IsDiff(baseline, current, ds)
    ensures (exists i | 0 <= i < |ds| :: ds[i].resourceId == rid) <==>
            || (rid in baseline && rid !in current)
            || (rid !in baseline && rid in current)
            || (rid in baseline && rid in current && DeepHash(Obj(baseline[rid])) != DeepHash(Obj(current[rid])))
    ensures forall i, j | 0 <= i < |ds| && 0 <= j < |ds| && ds[i].resourceId == rid == ds[j].resourceId :: i == j
  {
    if rid in baseline && rid in current {
      DigestDecidesEquiv(Obj(baseline[rid]), Obj(current[rid]));
    }
    if rid in baseline || rid in current {
      assert rid in baseline.Keys + current.Keys;
    }
  }

  lemma PermissionKeys(resourceType: Json, before: Config, after: Config)
    ensures TouchesPermissions(resourceType, before, after) <==>
            || resourceType in {Str("iam_policy"), Str("iam_role"), Str("iam_user"), Str("s3_bucket"),
                                Str("security_group"), Str("network_security_group"), Str("firewall_rule"),
                                Str("kms_key")}
            || (exists k, pk | (k in before || k in after) && pk in PERM_KEYS ::
                  LowerContains(k, pk) && !(k in before && k in after && Equiv(before[k], after[k])))
  {
  }

  function UpperChar(c: char): char {
    if 'a' <= c <= 'z' then (c as int - 32) as char else c
  }

  /** The search for a permission word does not see the case of the key: writing any of its letters as
      capitals changes nothing. */
  lemma CaseDoesNotMatter(key: string, upper: string, word: string)
    requires |upper| == |key| && forall i | 0 <= i < |key| :: upper[i] == key[i] || upper[i] == UpperChar(key[i])
    ensures LowerContains(upper, word) <==> LowerContains(key, word)
  {
    forall i | 0 <= i <= |key| ensures MatchesAt(upper, word, i) <==> MatchesAt(key, word, i) {
    }
  }

  /** In a key without capitals it is plain containment. */
  lemma LowerKeyContains(key: string, word: string)
    requires forall i | 0 <= i < |key| :: !('A' <= key[i] <= 'Z')
    ensures LowerContains(key, word) <==> exists a, b :: key == a + word + b
  {
    if LowerContains(key, word) {
      var i :| 0 <= i <= |key| && MatchesAt(key, word, i);
      assert key[i..i + |word|] == word;
      assert key == key[..i] + word + key[i + |word|..];
    }
    if a, b :| key == a + word + b {
      assert forall i | 0 <= i < |word| :: word[i] == key[|a| + i];
      MatchInMiddle(a, word, b);
    }
  }

  lemma MatchInMiddle(a: string, word: string, b: string)
    requires forall i | 0 <= i < |word| :: !('A' <= word[i] <= 'Z')
    ensures LowerContains(a + word + b, word)
  {
    var s := a + word + b;
    forall t | 0 <= t < |word| ensures LowerChar(s[|a| + t]) == word[t] {
      assert s[|a| + t] == word[t];
    }
    assert MatchesAt(s, word, |a|);
  }

  /** The first loop: resources the baseline does not know. */
  method AddCreated(baseline: Snapshot, current: Snapshot) returns (drifts: seq<DriftDiff>)
    ensures IsDiffOver(baseline, current, drifts, current.Keys - baseline.Keys)
  {
    drifts := [];
    var todo := current.Keys - baseline.Keys;
    ghost var done: set<string> := {};
    while todo != {}
      invariant todo <= current.Keys - baseline.Keys && done == current.Keys - baseline.Keys - todo
      invariant IsDiffOver(baseline, current, drifts, done)
      decreases todo
    {
      var rid :| rid in todo;
      ExtendDiff(baseline, current, drifts, done, rid);
      var cfg := current[rid];
      var rtype := if "type" in cfg then cfg["type"] else Str("unknown");
      drifts := drifts + [DriftDiff(rid, rtype, Created, None, Some(cfg))];
      todo, done := todo - {rid}, done + {rid};
    }
  }

  /** The second loop: resources that are gone. */
  method AddDeleted(baseline: Snapshot, current: Snapshot, drifts0: seq<DriftDiff>)
    returns (drifts: seq<DriftDiff>)
    requires IsDiffOver(baseline, current, drifts0, current.Keys - baseline.Keys)
    ensures IsDiffOver(baseline, current, drifts,
                       (current.Keys - baseline.Keys) + (baseline.Keys - current.Keys))
  {
    drifts := drifts0;
    var rids := baseline.Keys - current.Keys;
    var todo := rids;
    ghost var done := current.Keys - baseline.Keys;
    while todo != {}
      invariant todo <= rids && done == (current.Keys - baseline.Keys) + (rids - todo)
      invariant IsDiffOver(baseline, current, drifts, done)
      decreases todo
    {
      var rid :| rid in todo;
      ExtendDiff(baseline, current, drifts, done, rid);
      var cfg := baseline[rid];
      var rtype := if "type" in cfg then cfg["type"] else Str("unknown");
      drifts := drifts + [DriftDiff(rid, rtype, Deleted, Some(cfg), None)];
      todo, done := todo - {rid}, done + {rid};
    }
  }

  method ChangedEvent(baseline: Snapshot, current: Snapshot, rid: string) returns (drift: DriftDiff)
    requires rid in baseline && rid in current
    ensures drift == EventFor(baseline, current, rid)
  {
    var before, after := baseline[rid], current[rid];
    var rtype := if "type" in after then after["type"]
                 else if "type" in before then before["type"]
                 else Str("unknown");
    var kind := ClassifyChange(rtype, before, after);
    drift := DriftDiff(rid, rtype, kind, Some(before), Some(after));
  }

  method CompareSides(baseline: Snapshot, current: Snapshot, drifts0: seq<DriftDiff>, rid: string,
                      ghost scope: set<string>)
    returns (drifts: seq<DriftDiff>)
    requires rid in baseline && rid in current && rid !in scope && IsDiffOver(baseline, current, drifts0, scope)
    ensures IsDiffOver(baseline, current, drifts, scope + {rid})
  {
    drifts := drifts0;
    ExtendDiff(baseline, current, drifts, scope, rid);
    if !Same(baseline[rid], current[rid]) {
      var drift := ChangedEvent(baseline, current, rid);
      drifts := drifts + [drift];
    }
  }

  /** The third loop: resources on both sides whose configurations differ. */
  method AddChanged(baseline: Snapshot, current: Snapshot, drifts0: seq<DriftDiff>)
    returns (drifts: seq<DriftDiff>)
    requires IsDiffOver(baseline, current, drifts0, (current.Keys - baseline.Keys) + (baseline.Keys - current.Keys))
    ensures IsDiff(baseline, current, drifts)
  {
    ghost var oneSided := (current.Keys - baseline.Keys) + (baseline.Keys - current.Keys);
    var shared := baseline.Keys * current.Keys;
    drifts := CompareAll(baseline, current, drifts0, shared, oneSided);
    assert oneSided + shared == baseline.Keys + current.Keys;
  }

  method CompareAll(baseline: Snapshot, current: Snapshot, drifts0: seq<DriftDiff>, rids: set<string>,
                    ghost scope: set<string>)
    returns (drifts: seq<DriftDiff>)
    requires rids <= baseline.Keys && rids <= current.Keys && rids !! scope
    requires IsDiffOver(baseline, current, drifts0, scope)
    ensures IsDiffOver(baseline, current, drifts, scope + rids)
  {
    drifts := drifts0;
    var todo := rids;
    ghost var done := scope;
    while todo != {}
      invariant todo <= rids && done !! todo && done + todo == scope + rids
      invariant IsDiffOver(baseline, current, drifts, done)
      decreases todo
    {
      var rid :| rid in todo;
      drifts := CompareSides(baseline, current, drifts, rid, done);
      todo, done := todo - {rid}, done + {rid};
    }
    assert done == scope + rids;
  }

  /** No events exactly when both sides have the same resources with the same configurations. */
  lemma NoDriftIffSame(baseline: Snapshot, current: Snapshot, ds: seq<DriftDiff>)
    requires IsDiff(baseline, current, ds)
    ensures ds == [] <==>
            baseline.Keys == current.Keys &&
            forall rid | rid in baseline :: rid in current && Equiv(Obj(baseline[rid]), Obj(current[rid]))
  {
    if ds != [] {
      assert Differs(baseline, current, ds[0].resourceId);
    } else {
      forall rid | rid in baseline.Keys + current.Keys ensures !Differs(baseline, current, rid) {
      }
      assert forall rid :: rid in baseline ==> rid in baseline.Keys + current.Keys;
      assert forall rid :: rid in current ==> rid in baseline.Keys + current.Keys;
    }
  }

  /** Formatting is never drift: reordering lists at any depth of any resource yields no event. */
  lemma ReorderingYieldsNoEvent(baseline: Snapshot, current: Snapshot, ds: seq<DriftDiff>)
    requires IsDiff(baseline, current, ds)
    requires baseline.Keys == current.Keys
    requires forall rid | rid in baseline :: Reordered(Obj(baseline[rid]), Obj(current[rid]))
    ensures ds == []
  {
    forall rid | rid in baseline ensures Same(baseline[rid], current[rid]) {
      ReorderedIsEquiv(Obj(baseline[rid]), Obj(current[rid]));
    }
    NoDriftIffSame(baseline, current, ds);
  }

  // ----- the patch ------------------------------------------------------------

  /** What approving one event does to the account's baseline, seen as a map. */
  function Patch(m: Snapshot, d: DriftDiff): Snapshot {
    if d.after.None? then m - {d.resourceId} else m[d.resourceId := d.after.value]
  }

  function PatchAll(m: Snapshot, ds: seq<DriftDiff>): Snapshot {
    if ds == [] then m else Patch(PatchAll(m, ds[..|ds| - 1]), ds[|ds| - 1])
  }

  lemma PatchesCommute(m: Snapshot, d: DriftDiff, e: DriftDiff)
    requires d.resourceId != e.resourceId
    ensures Patch(Patch(m, d), e) == Patch(Patch(m, e), d)
  {
  }

  /** Approvals of distinct resources commute wherever they stand in a sequence of approvals. */
  lemma {:induction false} SwappedApprovals(m: Snapshot, xs: seq<DriftDiff>, d: DriftDiff, e: DriftDiff,
                                            ys: seq<DriftDiff>)
    requires d.resourceId != e.resourceId
    ensures PatchAll(m, xs + [d, e] + ys) == PatchAll(m, xs + [e, d] + ys)
  {
    if ys == [] {
      assert xs + [d, e] + ys == xs + [d] + [e] && xs + [e, d] + ys == xs + [e] + [d];
      PatchOneMore(m, xs, d);
      PatchOneMore(m, xs + [d], e);
      PatchOneMore(m, xs, e);
      PatchOneMore(m, xs + [e], d);
      PatchesCommute(PatchAll(m, xs), d, e);
    } else {
      var n := |ys| - 1;
      SwappedApprovals(m, xs, d, e, ys[..n]);
      assert xs + [d, e] + ys == xs + [d, e] + ys[..n] + [ys[n]];
      assert xs + [e, d] + ys == xs + [e, d] + ys[..n] + [ys[n]];
      PatchOneMore(m, xs + [d, e] + ys[..n], ys[n]);
      PatchOneMore(m, xs + [e, d] + ys[..n], ys[n]);
    }
  }

  lemma PatchOneMore(m: Snapshot, ds: seq<DriftDiff>, d: DriftDiff)
    ensures PatchAll(m, ds + [d]) == Patch(PatchAll(m, ds), d)
  {
    assert (ds + [d])[..|ds|] == ds;
  }

  predicate Mentions(ds: seq<DriftDiff>, rid: string) {
    exists i | 0 <= i < |ds| :: ds[i].resourceId == rid
  }

  /** Patching from one diff, in any order and with repeats, replaces exactly the mentioned resources. */
  lemma {:induction false} PatchAllAt(baseline: Snapshot, current: Snapshot, ds: seq<DriftDiff>, rid: string)
    requires forall i | 0 <= i < |ds| :: ds[i] == EventFor(baseline, current, ds[i].resourceId)
    ensures Lookup(PatchAll(baseline, ds), rid) ==
            if Mentions(ds, rid) then Lookup(current, rid) else Lookup(baseline, rid)
  {
    if ds != [] {
      var init, last := ds[..|ds| - 1], ds[|ds| - 1];
      PatchAllAt(baseline, current, init, rid);
      if Mentions(init, rid) {
        var i :| 0 <= i < |init| && init[i].resourceId == rid;
        assert ds[i].resourceId == rid;
      }
    }
  }

  /** After approving any of the events of a diff, in any order and with repeats, the resources that
      still drift are exactly the drifted ones that were not approved. */
  lemma ApprovedSubset(baseline: Snapshot, current: Snapshot, ds: seq<DriftDiff>, approved: seq<DriftDiff>, rid: string)
    requires IsDiff(baseline, current, ds)
    requires forall a | a in approved :: a in ds
    ensures Differs(PatchAll(baseline, approved), current, rid) <==>
            Differs(baseline, current, rid) && !Mentions(approved, rid)
  {
    forall i | 0 <= i < |approved| ensures approved[i] == EventFor(baseline, current, approved[i].resourceId) {
      assert approved[i] in ds;
    }
    PatchAllAt(baseline, current, approved, rid);
    var m := PatchAll(baseline, approved);
    assert Lookup(m, rid) == if Mentions(approved, rid) then Lookup(current, rid) else Lookup(baseline, rid);
    if rid in current {
      EquivIsEquivalence(Obj(current[rid]), Obj(current[rid]), Obj(current[rid]));
    }
  }

  /** Approving every event makes the baseline agree with the snapshot, so a second diff is empty. */
  lemma ApprovingAllClearsDrift(baseline: Snapshot, current: Snapshot, ds: seq<DriftDiff>,
                                approved: seq<DriftDiff>, again: seq<DriftDiff>)
    requires IsDiff(baseline, current, ds)
    requires forall a | a in approved :: a in ds
    requires forall d | d in ds :: d in approved
    requires IsDiff(PatchAll(baseline, approved), current, again)
    ensures PatchAll(baseline, approved).Keys == current.Keys
    ensures forall rid | rid in current :: Same(PatchAll(baseline, approved)[rid], current[rid])
    ensures again == []
  {
    var m := PatchAll(baseline, approved);
    forall rid ensures !Differs(m, current, rid) {
      ApprovedSubset(baseline, current, ds, approved, rid);
      if Differs(baseline, current, rid) {
        assert rid in baseline.Keys + current.Keys;
        var i :| 0 <= i < |ds| && ds[i].resourceId == rid;
        assert ds[i] in approved;
        var j :| 0 <= j < |approved| && approved[j] == ds[i];
        assert Mentions(approved, rid);
      }
    }
    forall rid ensures rid in m <==> rid in current {
      assert !Differs(m, current, rid);
    }
    forall rid | rid in current ensures Same(m[rid], current[rid]) {
      assert !Differs(m, current, rid);
    }
    NoDriftIffSame(m, current, again);
  }
}
