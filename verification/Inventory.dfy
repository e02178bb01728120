/** The inventory: what was last decided for each digest and environment. */
module Inventory {
  import opened Wrappers
  import opened Records
  import Digest

  datatype Item = Item(
    name: string, version: string, digest: string, environment: string, lastState: Outcome, evaluatedAt: Time)

  function ItemOf(d: Decision): Item {
    Item(d.subject.name, d.subject.version, d.subject.digest, d.environment, d.outcome, d.evaluatedAt)
  }

  /** The key of the index: digest, colon, environment. */
  function Key(d: Decision): string {
    d.subject.digest + ":" + d.environment
  }

  predicate Passes(d: Decision, env: string) {
    env == "" || d.environment == env
  }

  predicate SamePair(d: Decision, e: Decision) {
    d.subject.digest == e.subject.digest && d.environment == e.environment
  }

  /** ds[i] is the last decision in log order for its digest and environment. */
  ghost predicate LastOfPair(ds: seq<Decision>, i: nat)
    requires i < |ds|
  {
    forall j | i < j < |ds| :: !SamePair(ds[i], ds[j])
  }

  /** Each pair that passes the filter is listed exactly once, in the state of its last
      decision, and nothing else is listed. */
  ghost predicate Lists(list: seq<Item>, ds: seq<Decision>, env: string) {
    ListsOnce(list) && ListsAll(list, ds, env) && ListsOnly(list, ds, env)
  }

  ghost predicate ListsOnce(list: seq<Item>) {
    forall i, j | 0 <= i < j < |list| ::
      !(list[i].digest == list[j].digest && list[i].environment == list[j].environment)
  }

  ghost predicate ListsAll(list: seq<Item>, ds: seq<Decision>, env: string) {
    forall i | 0 <= i < |ds| && (env == "" || ds[i].environment == env) && LastOfPair(ds, i) ::
      exists x | x in list :: Tells(x, ds[i])
  }

  ghost predicate ListsOnly(list: seq<Item>, ds: seq<Decision>, env: string) {
    forall x | x in list :: exists i | 0 <= i < |ds| ::
      (env == "" || ds[i].environment == env) && LastOfPair(ds, i) && Tells(x, ds[i])
  }

  /** The item says of the artifact what the decision says. */
  ghost predicate Tells(x: Item, d: Decision) {
    && x.name == d.subject.name && x.version == d.subject.version && x.digest == d.subject.digest
    && x.environment == d.environment && x.lastState == d.outcome && x.evaluatedAt == d.evaluatedAt
  }

  /** Different pairs that pass the filter have different keys. */
  ghost predicate NoCollision(ds: seq<Decision>, env: string) {
    forall d, e | d in ds && e in ds && Passes(d, env) && Passes(e, env) && Key(d) == Key(e) :: SamePair(d, e)
  }

  /** ds[i] is the last decision that passes the filter and has its key. */
  ghost predicate LastOfKey(ds: seq<Decision>, env: string, i: nat)
    requires i < |ds|
  {
    Passes(ds[i], env) && forall j | i < j < |ds| && Passes(ds[j], env) :: Key(ds[j]) != Key(ds[i])
  }

  /** The last decision that passes the filter and has the key. */
  function LastKeyed(ds: seq<Decision>, env: string, key: string): Option<Decision> {
    if ds == [] then None
    else
      var last := ds[|ds| - 1];
      if Passes(last, env) && Key(last) == key then Some(last) else LastKeyed(ds[..|ds| - 1], env, key)
  }

  lemma {:induction false} LastKeyedAt(ds: seq<Decision>, env: string, i: nat)
    requires i < |ds| && LastOfKey(ds, env, i)
    ensures LastKeyed(ds, env, Key(ds[i])) == Some(ds[i])
  {
    var n := |ds| - 1;
    if i < n {
      assert LastOfKey(ds[..n], env, i);
      LastKeyedAt(ds[..n], env, i);
    }
  }

  lemma {:induction false} LastKeyedFound(ds: seq<Decision>, env: string, key: string) returns (i: nat)
    requires LastKeyed(ds, env, key).Some?
    ensures i < |ds| && LastOfKey(ds, env, i) && Key(ds[i]) == key && LastKeyed(ds, env, key) == Some(ds[i])
  {
    var n := |ds| - 1;
    i := n;
    if !(Passes(ds[n], env) && Key(ds[n]) == key) {
      i := LastKeyedFound(ds[..n], env, key);
      assert forall j | i < j < n && Passes(ds[j], env) :: Key(ds[..n][j]) != key;
    }
  }

  /** The index holds the item of the last decision under each key. */
  ghost predicate Indexes(m: map<string, Item>, ds: seq<Decision>, env: string) {
    && (forall k :: k in m <==> LastKeyed(ds, env, k).Some?)
    && (forall k | k in m :: Tells(m[k], LastKeyed(ds, env, k).value))
  }

  method BuildIndex(ds: seq<Decision>, env: string) returns (m: map<string, Item>)
    ensures Indexes(m, ds, env)
  {
    m := map[];
    for n := 0 to |ds|
      invariant Indexes(m, ds[..n], env)
    {
      var d := ds[n];
      assert ds[..n + 1][..n] == ds[..n];
      if env == "" || d.environment == env {
        m := m[Key(d) := ItemOf(d)];
      }
    }
    assert ds[..|ds|] == ds;
  }

  /** The list is the index in whatever order the map is walked. It is the inventory exactly
      when no two listed pairs share a key. */
  method Inventory(ds: seq<Decision>, env: string) returns (list: seq<Item>)
    ensures Lists(list, ds, env) <==> NoCollision(ds, env)
  {
    var m := BuildIndex(ds, env);
    list := [];
    var rest := m.Keys;
    ghost var keys: seq<string> := [];
    while rest != {}
      invariant Walked(list, keys, m, rest)
    {
      var k :| k in rest;
      WalkOne(list, keys, m, rest, k);
      list := list + [m[k]];
      keys := keys + [k];
      rest := rest - {k};
    }
    ListedExactly(list, keys, m, ds, env);
  }

  lemma WalkOne(list: seq<Item>, keys: seq<string>, m: map<string, Item>, rest: set<string>, k: string)
    requires Walked(list, keys, m, rest) && k in rest
    ensures Walked(list + [m[k]], keys + [k], m, rest - {k})
  {
    var keys' := keys + [k];
    forall x | x in m
      ensures x in rest - {k} || x in keys'
    {
      assert keys'[|keys|] == k;
    }
  }

  /** The keys walked so far and the rest make up the index. */
  ghost predicate Walked(list: seq<Item>, keys: seq<string>, m: map<string, Item>, rest: set<string>) {
    && |list| == |keys| && rest <= m.Keys
    && (forall i | 0 <= i < |keys| :: keys[i] in m && keys[i] !in rest && list[i] == m[keys[i]])
    && (forall i, j | 0 <= i < j < |keys| :: keys[i] != keys[j])
    && (forall k | k in m :: k in rest || k in keys)
  }

  /** An item of the index carries its own key. */
  lemma ItemKeys(m: map<string, Item>, ds: seq<Decision>, env: string, k: string)
    requires Indexes(m, ds, env) && k in m
    ensures m[k].digest + ":" + m[k].environment == k
  {
    var i := LastKeyedFound(ds, env, k);
  }

  lemma ListedExactly(list: seq<Item>, keys: seq<string>, m: map<string, Item>, ds: seq<Decision>, env: string)
    requires Indexes(m, ds, env) && Walked(list, keys, m, {})
    ensures Lists(list, ds, env) <==> NoCollision(ds, env)
  {
    if NoCollision(ds, env) {
      ListedOnce(list, keys, m, ds, env);
      LastPairsAreListed(list, keys, m, ds, env);
      ListedAreLastPairs(list, keys, m, ds, env);
    }
    if Lists(list, ds, env) {
      forall d, e | d in ds && e in ds && Passes(d, env) && Passes(e, env) && Key(d) == Key(e)
        ensures SamePair(d, e)
      {
        ListedPairs(list, keys, m, ds, env, d, e);
      }
    }
  }

  lemma ListedOnce(list: seq<Item>, keys: seq<string>, m: map<string, Item>, ds: seq<Decision>, env: string)
    requires Indexes(m, ds, env) && Walked(list, keys, m, {})
    ensures ListsOnce(list)
  {
    forall i, j | 0 <= i < j < |list|
      ensures !(list[i].digest == list[j].digest && list[i].environment == list[j].environment)
    {
      ItemKeys(m, ds, env, keys[i]);
      ItemKeys(m, ds, env, keys[j]);
    }
  }

  lemma LastPairsAreListed(list: seq<Item>, keys: seq<string>, m: map<string, Item>, ds: seq<Decision>, env: string)
    requires Indexes(m, ds, env) && Walked(list, keys, m, {}) && NoCollision(ds, env)
    ensures ListsAll(list, ds, env)
  {
    forall i | 0 <= i < |ds| && Passes(ds[i], env) && LastOfPair(ds, i)
      ensures exists x | x in list :: Tells(x, ds[i])
    {
      forall j | i < j < |ds| && Passes(ds[j], env)
        ensures Key(ds[j]) != Key(ds[i])
      {
        assert !SamePair(ds[i], ds[j]);
      }
      LastKeyedAt(ds, env, i);
      var n :| 0 <= n < |keys| && keys[n] == Key(ds[i]);
      assert list[n] in list && Tells(list[n], ds[i]);
    }
  }

  lemma ListedAreLastPairs(list: seq<Item>, keys: seq<string>, m: map<string, Item>, ds: seq<Decision>, env: string)
    requires Indexes(m, ds, env) && Walked(list, keys, m, {})
    ensures ListsOnly(list, ds, env)
  {
    forall x | x in list
      ensures exists i | 0 <= i < |ds| :: Passes(ds[i], env) && LastOfPair(ds, i) && Tells(x, ds[i])
    {
      var n :| 0 <= n < |list| && list[n] == x;
      var i := LastKeyedFound(ds, env, keys[n]);
      assert LastOfPair(ds, i);
    }
  }

  /** Two decisions under one key are listed by one item, which carries one pair. */
  lemma ListedPairs(list: seq<Item>, keys: seq<string>, m: map<string, Item>, ds: seq<Decision>, env: string,
                    d: Decision, e: Decision)
    requires Indexes(m, ds, env) && Walked(list, keys, m, {}) && ListsAll(list, ds, env)
    requires d in ds && e in ds && Passes(d, env) && Passes(e, env) && Key(d) == Key(e)
    ensures SamePair(d, e)
  {
    var x := PairIsListed(list, ds, env, d);
    var y := PairIsListed(list, ds, env, e);
    assert list[x] in list && list[y] in list;
    ItemKeys(m, ds, env, keys[x]);
    ItemKeys(m, ds, env, keys[y]);
    assert keys[x] == Key(d) && keys[y] == Key(e);
  }

  lemma PairIsListed(list: seq<Item>, ds: seq<Decision>, env: string, d: Decision) returns (x: nat)
    requires ListsAll(list, ds, env) && d in ds && Passes(d, env)
    ensures x < |list| && list[x].digest == d.subject.digest && list[x].environment == d.environment
  {
    var k :| 0 <= k < |ds| && ds[k] == d;
    var i := LastIndex(ds, k);
    var item :| item in list && Tells(item, ds[i]);
    x :| 0 <= x < |list| && list[x] == item;
  }

  lemma LastIndex(ds: seq<Decision>, k: nat) returns (i: nat)
    requires k < |ds|
    ensures k <= i < |ds| && SamePair(ds[i], ds[k]) && LastOfPair(ds, i)
    decreases |ds| - k
  {
    if LastOfPair(ds, k) {
      i := k;
    } else {
      var j :| k < j < |ds| && SamePair(ds[k], ds[j]);
      i := LastIndex(ds, j);
    }
  }

  /** Decisions on well-formed digests never collide, whatever their environments contain. */
  lemma ValidDigestsNeverCollide(ds: seq<Decision>, env: string)
    requires forall d | d in ds && Passes(d, env) :: Digest.ValidateSHA256(d.subject.digest).None?
    ensures NoCollision(ds, env)
  {
    forall d, e | d in ds && e in ds && Passes(d, env) && Passes(e, env) && Key(d) == Key(e)
      ensures SamePair(d, e)
    {
      var x, y := ":" + d.environment, ":" + e.environment;
      assert d.subject.digest + x == Key(d) && e.subject.digest + y == Key(e);
      Digest.DigestCut(d.subject.digest, x, e.subject.digest, y);
      assert x[1..] == d.environment && y[1..] == e.environment;
    }
  }

  /** Decisions on malformed digests, which are denied but still logged, can collide: the
      second hides the first. */
  lemma MalformedDigestsCollide(d: Decision)
    ensures var a := d.(subject := d.subject.(digest := "x"), environment := "y:z");
            var b := d.(subject := d.subject.(digest := "x:y"), environment := "z");
            Key(a) == Key(b) && !SamePair(a, b) && !NoCollision([a, b], "")
  {
    var a := d.(subject := d.subject.(digest := "x"), environment := "y:z");
    var b := d.(subject := d.subject.(digest := "x:y"), environment := "z");
    assert Key(a) == "x:y:z" == Key(b);
    assert a in [a, b] && b in [a, b];
  }
}
