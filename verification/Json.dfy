/** JSON values as the drift detector sees them, and the comparison that
    `DeepDiff(before, after, ignore_order=True)` makes of them.

    Library assumption: with `ignore_order` DeepDiff hashes every list item, ignoring order and
    repetition at every depth, and reports a difference exactly when the two lists do not have the
    same item hashes.  Values of different types (a bool and an int, an int and a float) always
    differ.  No key starts with "__", which it would skip, and a dict is never reported as changed as a
    whole.  A float is represented by its printed form, which determines it.  A dict is a Dafny map,
    so key order is invisible. */
module Json {

  datatype Json =
    | Null
    | Bool(b: bool)
    | Int(n: int)
    | Float(repr: string)
    | Str(s: string)
    | Arr(items: seq<Json>)
    | Obj(fields: map<string, Json>)

  /** The reference comparison: lists are equal as sets up to the comparison itself. */
  predicate Equiv(a: Json, b: Json)
    decreases a, 0
  {
    match (a, b)
    case (Arr(xs), Arr(ys)) =>
      && (forall x | x in xs :: HasMatch(x, ys))
      && (forall y | y in ys :: IsMatched(xs, y))
    case (Obj(f), Obj(g)) =>
      f.Keys == g.Keys && forall k | k in f :: k in g && Equiv(f[k], g[k])
    case _ => a == b
  }

  predicate HasMatch(x: Json, ys: seq<Json>)
    decreases x, 1
  {
    exists y | y in ys :: Equiv(x, y)
  }

  predicate IsMatched(xs: seq<Json>, y: Json)
    decreases xs, 1
  {
    exists x | x in xs :: Equiv(x, y)
  }

  /** What DeepHash keeps of a value: lists become sets of item digests. */
  datatype Digest = Leaf(value: Json) | Bag(items: set<Digest>) | Table(fields: map<string, Digest>)

  function DeepHash(a: Json): Digest {
    match a
    case Arr(xs) => Bag(Elements(seq(|xs|, i requires 0 <= i < |xs| => DeepHash(xs[i]))))
    case Obj(f) => Table(map k | k in f :: DeepHash(f[k]))
    case _ => Leaf(a)
  }

  function Elements<T>(s: seq<T>): set<T> {
    set x | x in s
  }

  function Digests(xs: seq<Json>): seq<Digest> {
    seq(|xs|, i requires 0 <= i < |xs| => DeepHash(xs[i]))
  }

  /** Comparing digests is comparing values: the hash-set algorithm computes the reference comparison. */
  lemma {:induction false} DigestDecidesEquiv(a: Json, b: Json)
    ensures Equiv(a, b) <==> DeepHash(a) == DeepHash(b)
    decreases a
  {
    if a.Arr? && b.Arr? {
      forall x, y | x in a.items && y in b.items ensures Equiv(x, y) <==> DeepHash(x) == DeepHash(y) {
        DigestDecidesEquiv(x, y);
      }
      ListDigests(a.items, b.items);
    } else if a.Obj? && b.Obj? {
      forall k | k in a.fields && k in b.fields
        ensures Equiv(a.fields[k], b.fields[k]) <==> DeepHash(a.fields[k]) == DeepHash(b.fields[k])
      {
        DigestDecidesEquiv(a.fields[k], b.fields[k]);
      }
      TableDigests(a.fields, b.fields);
    }
  }

  lemma ListDigests(xs: seq<Json>, ys: seq<Json>)
    requires forall x, y | x in xs && y in ys :: Equiv(x, y) <==> DeepHash(x) == DeepHash(y)
    ensures Equiv(Arr(xs), Arr(ys)) <==> DeepHash(Arr(xs)) == DeepHash(Arr(ys))
  {
    AllMatch(xs, ys);
    AllMatched(xs, ys);
    assert DeepHash(Arr(xs)) == Bag(Elements(Digests(xs)));
    assert DeepHash(Arr(ys)) == Bag(Elements(Digests(ys)));
  }

  lemma AllMatch(xs: seq<Json>, ys: seq<Json>)
    requires forall x, y | x in xs && y in ys :: Equiv(x, y) <==> DeepHash(x) == DeepHash(y)
    ensures (forall x | x in xs :: HasMatch(x, ys)) <==> Elements(Digests(xs)) <= Elements(Digests(ys))
  {
    forall x | x in xs ensures HasMatch(x, ys) <==> DeepHash(x) in Digests(ys) {
      InDigests(x, ys);
    }
    DigestsIncluded(xs, ys);
  }

  lemma AllMatched(xs: seq<Json>, ys: seq<Json>)
    requires forall x, y | x in xs && y in ys :: Equiv(x, y) <==> DeepHash(x) == DeepHash(y)
    ensures (forall y | y in ys :: IsMatched(xs, y)) <==> Elements(Digests(ys)) <= Elements(Digests(xs))
  {
    forall y | y in ys ensures IsMatched(xs, y) <==> DeepHash(y) in Digests(xs) {
      InDigests(y, xs);
    }
    DigestsIncluded(ys, xs);
  }

  lemma InDigests(x: Json, ys: seq<Json>)
    ensures DeepHash(x) in Digests(ys) <==> exists y | y in ys :: DeepHash(x) == DeepHash(y)
  {
    if y :| y in ys && DeepHash(x) == DeepHash(y) {
      var j :| 0 <= j < |ys| && ys[j] == y;
      assert Digests(ys)[j] == DeepHash(x);
    }
  }

  lemma DigestsIncluded(xs: seq<Json>, ys: seq<Json>)
    ensures Elements(Digests(xs)) <= Elements(Digests(ys)) <==> forall x | x in xs :: DeepHash(x) in Digests(ys)
  {
    forall x | x in xs ensures DeepHash(x) in Digests(xs) {
      InDigests(x, xs);
    }
    if Elements(Digests(xs)) <= Elements(Digests(ys)) {
      forall x | x in xs ensures DeepHash(x) in Digests(ys) {
        assert DeepHash(x) in Elements(Digests(xs));
      }
    } else {
      var d :| d in Digests(xs) && d !in Digests(ys);
      var i :| 0 <= i < |xs| && Digests(xs)[i] == d;
      assert xs[i] in xs && DeepHash(xs[i]) == d;
    }
  }

  lemma TableDigests(f: map<string, Json>, g: map<string, Json>)
    requires forall k | k in f && k in g :: Equiv(f[k], g[k]) <==> DeepHash(f[k]) == DeepHash(g[k])
    ensures Equiv(Obj(f), Obj(g)) <==> DeepHash(Obj(f)) == DeepHash(Obj(g))
  {
    SameTables(f, g);
    assert DeepHash(Obj(f)) == Table(TableOf(f)) && DeepHash(Obj(g)) == Table(TableOf(g));
  }

  lemma SameTables(f: map<string, Json>, g: map<string, Json>)
    ensures TableOf(f) == TableOf(g) <==>
            f.Keys == g.Keys && forall k | k in f :: k in g && DeepHash(f[k]) == DeepHash(g[k])
  {
    var df, dg := TableOf(f), TableOf(g);
    assert df.Keys == f.Keys && dg.Keys == g.Keys;
    if df == dg {
      forall k | k in f ensures k in g && DeepHash(f[k]) == DeepHash(g[k]) {
        assert k in df.Keys && df[k] == dg[k];
      }
    }
  }

  function TableOf(f: map<string, Json>): map<string, Digest> {
    map k | k in f :: DeepHash(f[k])
  }

  /** The comparison is an equivalence relation. */
  lemma {:induction false} EquivIsEquivalence(a: Json, b: Json, c: Json)
    ensures Equiv(a, a)
    ensures Equiv(a, b) <==> Equiv(b, a)
    ensures Equiv(a, b) && Equiv(b, c) ==> Equiv(a, c)
  {
    DigestDecidesEquiv(a, a);
    DigestDecidesEquiv(a, b);
    DigestDecidesEquiv(b, a);
    DigestDecidesEquiv(b, c);
    DigestDecidesEquiv(a, c);
  }

  /** `p` lists the positions 0..n-1 in some order. */
  ghost predicate IsPermutation(p: seq<nat>, n: nat) {
    && |p| == n
    && (forall i | 0 <= i < n :: p[i] < n)
    && (forall j: nat | j < n :: j in p)
  }

  /** `b` is `a` with the lists at every depth reordered. */
  ghost predicate Reordered(a: Json, b: Json)
    decreases a
  {
    match (a, b)
    case (Arr(xs), Arr(ys)) =>
      |xs| == |ys| &&
      exists p: seq<nat> :: IsPermutation(p, |xs|) && forall i | 0 <= i < |xs| :: Reordered(xs[i], ys[p[i]])
    case (Obj(f), Obj(g)) =>
      f.Keys == g.Keys && forall k | k in f :: k in g && Reordered(f[k], g[k])
    case _ => a == b
  }

  /** Reordering lists at any depth is invisible to the comparison. */
  lemma {:induction false} ReorderedIsEquiv(a: Json, b: Json)
    requires Reordered(a, b)
    ensures Equiv(a, b)
    decreases a
  {
    if a.Arr? {
      var xs, ys := a.items, b.items;
      var p: seq<nat> :| IsPermutation(p, |xs|) && forall i | 0 <= i < |xs| :: Reordered(xs[i], ys[p[i]]);
      forall i | 0 <= i < |xs| ensures Equiv(xs[i], ys[p[i]]) {
        ReorderedIsEquiv(xs[i], ys[p[i]]);
      }
      PermutedLists(xs, ys, p);
    } else if a.Obj? {
      forall k | k in a.fields ensures Equiv(a.fields[k], b.fields[k]) {
        ReorderedIsEquiv(a.fields[k], b.fields[k]);
      }
    }
  }

  lemma PermutedLists(xs: seq<Json>, ys: seq<Json>, p: seq<nat>)
    requires |xs| == |ys| && IsPermutation(p, |xs|)
    requires forall i | 0 <= i < |xs| :: Equiv(xs[i], ys[p[i]])
    ensures Equiv(Arr(xs), Arr(ys))
  {
    forall x | x in xs ensures HasMatch(x, ys) {
      var i :| 0 <= i < |xs| && xs[i] == x;
      assert Equiv(x, ys[p[i]]);
    }
    forall y | y in ys ensures IsMatched(xs, y) {
      var j: nat :| j < |ys| && ys[j] == y;
      assert j in p;
      var i :| 0 <= i < |p| && p[i] == j;
      assert Equiv(xs[i], ys[p[i]]);
    }
  }
}
