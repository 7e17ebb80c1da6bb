/**
 * The two indexes of app.js and its search dispatch.
 *
 * `buildHashMap` groups the catalogue in a JavaScript `Map` from lower-cased name to
 * the list of foods with that name; a `Map` remembers the order in which keys were
 * first set, and `entries()` visits them in that order, so the model is a sequence of
 * entries.  `buildTrie` builds an object trie keyed on whole (lower-cased) characters,
 * with no folding of non-letters; the model is a tree value whose edges are kept in the
 * order `for…in` lists an object's keys: the digit keys first in ascending order, then
 * the other keys in creation order.  Every search except trie-exact is cut to its first 20 results.
 * Queries reach these functions already trimmed and lower-cased by `searchFood`.
 */
module JsIndex {
  import opened Wrappers
  import opened Text
  import opened Nutrition
  import opened Selection

  /** `results.slice(0, 20)`. */
  const ResultCap: nat := 20

  /** `s.slice(0, n)`: the first `n` elements, or all of them when there are fewer. */
  function Take(s: seq<Food>, n: nat): (r: seq<Food>)
    ensures |r| == if |s| <= n then |s| else n
    ensures r <= s
  {
    if |s| <= n then s else s[..n]
  }

  /** A test on the lower-cased name of a food. */
  function KeyHolds(p: string -> bool): Food -> bool
  {
    (f: Food) => p(ToLower(f.name))
  }

  /** The three search types, as key tests: the key is, starts with, or contains the query. */
  datatype SearchType = Exact | Prefix | Substring

  function Matches(mode: SearchType, query: string): string -> bool
  {
    match mode
    case Exact => (k: string) => k == query
    case Prefix => (k: string) => StartsWith(k, query)
    case Substring => (k: string) => Contains(k, query)
  }

  // ---------------------------------------------------------------------------
  // buildHashMap: a Map with keys in first-insertion order

  datatype Entry = Entry(key: string, foods: seq<Food>)

  /** `map.has(k)` / `map.get(k)`: the position of the entry for `k`, or -1. */
  function Find(m: seq<Entry>, k: string): (r: int)
    ensures -1 <= r < |m|
    ensures r >= 0 ==> m[r].key == k
    ensures forall j :: 0 <= j < |m| && (r < 0 || j < r) ==> m[j].key != k
  {
    if m == [] then -1
    else if m[0].key == k then 0
    else
      var j := Find(m[1..], k);
      assert forall i :: 1 <= i < |m| ==> m[i] == m[1..][i - 1];
      if j < 0 then -1 else j + 1
  }

  /** `map.get(k) || []`. */
  function Get(m: seq<Entry>, k: string): seq<Food>
  {
    var i := Find(m, k);
    if i < 0 then [] else m[i].foods
  }

  /** One step of `buildHashMap`: set an empty list under a new key, then push the food. */
  function Add(m: seq<Entry>, f: Food): (r: seq<Entry>)
    ensures |r| == |m| || |r| == |m| + 1
    ensures forall j :: 0 <= j < |m| ==> r[j].key == m[j].key
  {
    var k := ToLower(f.name);
    var i := Find(m, k);
    if i >= 0 then m[i := Entry(k, m[i].foods + [f])] else m + [Entry(k, [f])]
  }

  /** The Map `buildHashMap` returns: the foods added one by one in catalogue order. */
  function MapOf(foods: seq<Food>): seq<Entry>
  {
    if foods == [] then [] else Add(MapOf(foods[..|foods| - 1]), foods[|foods| - 1])
  }

  /** `buildHashMap`'s `forEach` loop. */
  method BuildHashMap(foods: seq<Food>) returns (m: seq<Entry>)
    ensures m == MapOf(foods)
  {
    m := [];
    var n := 0;
    while n < |foods|
      invariant 0 <= n <= |foods|
      invariant m == MapOf(foods[..n])
    {
      assert foods[..n + 1][..n] == foods[..n];
      var food := foods[n];
      var key := ToLower(food.name);
      var i := Find(m, key);
      ghost var before := m;
      if i < 0 {
        m := m + [Entry(key, [])];
        i := |m| - 1;
        assert m[i].foods + [food] == [food];
        assert m[i := Entry(key, [food])] == before + [Entry(key, [food])];
      }
      m := m[i := Entry(key, m[i].foods + [food])];
      n := n + 1;
    }
    assert foods[..n] == foods;
  }

  /** Two maps whose keys agree position by position find every key at the same place. */
  lemma FindSameKeys(m: seq<Entry>, m': seq<Entry>, k: string)
    requires |m| == |m'| && forall j :: 0 <= j < |m| ==> m[j].key == m'[j].key
    ensures Find(m, k) == Find(m', k)
  {
  }

  /** Adding a food appends it to the list of its own key and to no other list. */
  lemma GetAdd(m: seq<Entry>, f: Food, q: string)
    ensures Get(Add(m, f), q) == Get(m, q) + (if ToLower(f.name) == q then [f] else [])
  {
    var k := ToLower(f.name);
    var i := Find(m, k);
    var r := Add(m, f);
    if i >= 0 {
      FindSameKeys(m, r, q);
    } else {
      if q == k {
        assert r[|m|].key == k;
        assert Find(r, q) == |m|;
      } else {
        assert Find(r, q) == Find(m, q) by {
          var j := Find(m, q);
          assert j >= 0 ==> r[j].key == q;
        }
      }
    }
  }

  /** No key is listed twice. */
  predicate DistinctKeys(m: seq<Entry>)
  {
    forall i, j :: 0 <= i < j < |m| ==> m[i].key != m[j].key
  }

  /** `buildHashMap` files every food under its lower-cased name, keeping catalogue order
      within each list; every entry is non-empty and no key is listed twice. */
  lemma {:induction false} MapOfFacts(foods: seq<Food>)
    ensures DistinctKeys(MapOf(foods))
    ensures forall q :: Get(MapOf(foods), q) == Select(foods, KeyHolds((k: string) => k == q))
    ensures forall e :: e in MapOf(foods) ==> e.foods != []
  {
    if foods != [] {
      var init := foods[..|foods| - 1];
      var f := foods[|foods| - 1];
      MapOfFacts(init);
      var m := MapOf(init);
      var k := ToLower(f.name);
      forall q ensures Get(MapOf(foods), q) == Select(foods, KeyHolds((k: string) => k == q)) {
        GetAdd(m, f, q);
      }
      var i := Find(m, k);
      if i < 0 {
        assert forall e :: e in m + [Entry(k, [f])] ==> e in m || e == Entry(k, [f]);
      } else {
        var r := m[i := Entry(k, m[i].foods + [f])];
        forall e | e in r ensures e.foods != [] {
          var j :| 0 <= j < |r| && r[j] == e;
          if j != i {
            assert r[j] == m[j];
          }
        }
      }
    }
  }

  // ---------------------------------------------------------------------------
  // searchInHashMap

  /** The concatenated lists of the entries whose key passes `p`, in entry order. */
  function Gather(m: seq<Entry>, p: string -> bool): seq<Food>
  {
    if m == [] then []
    else Gather(m[..|m| - 1], p) + (if p(m[|m| - 1].key) then m[|m| - 1].foods else [])
  }

  lemma {:induction false} GatherAppend(m: seq<Entry>, e: Entry, p: string -> bool)
    ensures Gather(m + [e], p) == Gather(m, p) + (if p(e.key) then e.foods else [])
  {
    assert (m + [e])[..|m|] == m;
  }

  /** Pushing one food onto the list of entry `i` adds that food to a gathering that
      includes entry `i`, and nothing to one that does not. */
  lemma {:induction false} GatherPush(m: seq<Entry>, i: nat, f: Food, p: string -> bool)
    requires i < |m|
    ensures multiset(Gather(m[i := Entry(m[i].key, m[i].foods + [f])], p))
            == multiset(Gather(m, p)) + (if p(m[i].key) then multiset{f} else multiset{})
  {
    var e := Entry(m[i].key, m[i].foods + [f]);
    var r := m[i := e];
    var n := |m| - 1;
    if i == n {
      GatherPushLast(m, f, p);
    } else {
      assert r[..n] == m[..n][i := e];
      GatherPush(m[..n], i, f, p);
      assert r[n] == m[n];
      assert Gather(r, p) == Gather(r[..n], p) + (if p(m[n].key) then m[n].foods else []);
    }
  }

  /** `GatherPush` for the last entry. */
  lemma GatherPushLast(m: seq<Entry>, f: Food, p: string -> bool)
    requires m != []
    ensures var n := |m| - 1;
      multiset(Gather(m[n := Entry(m[n].key, m[n].foods + [f])], p))
      == multiset(Gather(m, p)) + (if p(m[n].key) then multiset{f} else multiset{})
  {
    var n := |m| - 1;
    var r := m[n := Entry(m[n].key, m[n].foods + [f])];
    assert r[..n] == m[..n];
    assert Gather(r, p) == Gather(m[..n], p) + (if p(m[n].key) then m[n].foods + [f] else []);
  }

  /** The gathered foods are the catalogue's foods whose key passes `p`, as a bag: the
      order is by first appearance of the key, then catalogue order. */
  lemma {:induction false} GatherBag(foods: seq<Food>, p: string -> bool)
    ensures multiset(Gather(MapOf(foods), p)) == multiset(Select(foods, KeyHolds(p)))
  {
    if foods != [] {
      var init := foods[..|foods| - 1];
      var f := foods[|foods| - 1];
      GatherBag(init, p);
      var m := MapOf(init);
      var k := ToLower(f.name);
      var i := Find(m, k);
      if i >= 0 {
        assert m[i].key == k;
        GatherPush(m, i, f, p);
      } else {
        GatherAppend(m, Entry(k, [f]), p);
      }
    }
  }

  /** Every gathered food comes from an entry whose key passes `p`. */
  lemma {:induction false} GatherPasses(foods: seq<Food>, p: string -> bool)
    ensures forall f :: f in Gather(MapOf(foods), p) ==> p(ToLower(f.name))
  {
    GatherBag(foods, p);
    SelectMembers(foods, KeyHolds(p));
    forall f | f in Gather(MapOf(foods), p) ensures p(ToLower(f.name)) {
      assert f in multiset(Gather(MapOf(foods), p));
      assert f in Select(foods, KeyHolds(p));
      assert KeyHolds(p)(f);
    }
  }

  /** The foods `searchInHashMap` collects before the cut to 20. */
  function HashHits(m: seq<Entry>, query: string, mode: SearchType): seq<Food>
  {
    if mode == Exact then Get(m, query) else Gather(m, Matches(mode, query))
  }

  /** `searchInHashMap`: one lookup for exact search, a scan over the entries in key order
      for prefix and substring search, then the first 20. */
  method SearchInHashMap(m: seq<Entry>, query: string, mode: SearchType) returns (r: seq<Food>)
    ensures r == Take(HashHits(m, query, mode), ResultCap)
  {
    var results: seq<Food> := [];
    if mode == Exact {
      var i := Find(m, query);
      if i >= 0 {
        results := m[i].foods;
      }
    } else {
      var p := Matches(mode, query);
      var n := 0;
      while n < |m|
        invariant 0 <= n <= |m|
        invariant results == Gather(m[..n], p)
      {
        assert m[..n + 1][..n] == m[..n];
        if p(m[n].key) {
          results := results + m[n].foods;
        }
        n := n + 1;
      }
      assert m[..n] == m;
    }
    r := Take(results, ResultCap);
  }

  /** What hash-mode search returns over the catalogue's map: at most 20 foods, each
      with a key that passes the search; exact search gives the first 20 foods named
      `query` in catalogue order; as many foods as match, up to 20; and when no more than
      20 match, exactly the matching foods. */
  lemma HashSearchFacts(foods: seq<Food>, query: string, mode: SearchType)
    ensures var r := Take(HashHits(MapOf(foods), query, mode), ResultCap);
            var hits := Select(foods, KeyHolds(Matches(mode, query)));
            && |r| <= ResultCap
            && (forall f :: f in r ==> f in foods && Matches(mode, query)(ToLower(f.name)))
            && (mode == Exact ==> r == Take(hits, ResultCap))
            && |r| == (if |hits| <= ResultCap then |hits| else ResultCap)
            && (|hits| <= ResultCap ==> multiset(r) == multiset(hits))
  {
    var p := Matches(mode, query);
    var hits := Select(foods, KeyHolds(p));
    var all := HashHits(MapOf(foods), query, mode);
    MapOfFacts(foods);
    SelectMembers(foods, KeyHolds(p));
    if mode == Exact {
      assert all == Select(foods, KeyHolds((k: string) => k == query));
      assert KeyHolds((k: string) => k == query) == KeyHolds(p);
    } else {
      GatherBag(foods, p);
      assert |all| == |hits| by {
        assert |multiset(all)| == |multiset(hits)|;
      }
    }
    forall f | f in Take(all, ResultCap) ensures f in foods && p(ToLower(f.name)) {
      assert f in all;
      assert f in multiset(all);
    }
  }

  // ---------------------------------------------------------------------------
  // buildTrie: an object trie on whole characters

  /** `{ children: {}, foods: [] }`; the children are kept in the order `for…in` lists
      them. */
  datatype JsNode = JsNode(edges: seq<Edge>, foods: seq<Food>)
  datatype Edge = Edge(symbol: char, child: JsNode)

  const EmptyNode := JsNode([], [])

  /** `node.children[c]`: the position of the edge labelled `c`, or -1. */
  function FindEdge(es: seq<Edge>, c: char): (r: int)
    ensures -1 <= r < |es|
    ensures r >= 0 ==> es[r].symbol == c
    ensures forall j :: 0 <= j < |es| && (r < 0 || j < r) ==> es[j].symbol != c
  {
    if es == [] then -1
    else if es[0].symbol == c then 0
    else
      var j := FindEdge(es[1..], c);
      assert forall i :: 1 <= i < |es| ==> es[i] == es[1..][i - 1];
      if j < 0 then -1 else j + 1
  }

  /** JavaScript lists an object's integer-like keys before all others, in ascending
      order; among one-character keys those are exactly the ten digits. */
  predicate IsIndexKey(c: char)
  {
    '0' <= c <= '9'
  }

  /** The number of leading edges whose labels are digits below `c`. */
  function DigitsBelow(es: seq<Edge>, c: char): (p: nat)
    ensures p <= |es|
    ensures forall j :: 0 <= j < p ==> IsIndexKey(es[j].symbol) && es[j].symbol < c
    ensures p < |es| ==> !(IsIndexKey(es[p].symbol) && es[p].symbol < c)
  {
    if es == [] || !(IsIndexKey(es[0].symbol) && es[0].symbol < c) then 0
    else
      var p := DigitsBelow(es[1..], c);
      assert forall j :: 1 <= j < |es| ==> es[j] == es[1..][j - 1];
      p + 1
  }

  /** Where a new child goes among the others: a digit key after the smaller digits,
      any other key last. */
  function Slot(es: seq<Edge>, c: char): (p: nat)
    ensures p <= |es|
  {
    if IsIndexKey(c) then DigitsBelow(es, c) else |es|
  }

  /** The edges once `e` is placed at position `p`. */
  function Place(es: seq<Edge>, p: nat, e: Edge): (r: seq<Edge>)
    requires p <= |es|
    ensures |r| == |es| + 1 && r[p] == e
    ensures forall j :: 0 <= j < p ==> r[j] == es[j]
    ensures forall j :: p < j <= |es| ==> r[j] == es[j - 1]
  {
    es[..p] + [e] + es[p..]
  }

  /** The walk of `buildTrie` for one food: create each missing child along the key,
      then push the food at the last node. */
  function Insert(t: JsNode, key: string, f: Food): JsNode
    decreases |key|
  {
    if key == [] then JsNode(t.edges, t.foods + [f])
    else
      var i := FindEdge(t.edges, key[0]);
      if i >= 0 then JsNode(t.edges[i := Edge(key[0], Insert(t.edges[i].child, key[1..], f))], t.foods)
      else
        JsNode(Place(t.edges, Slot(t.edges, key[0]), Edge(key[0], Insert(EmptyNode, key[1..], f))), t.foods)
  }

  /** The trie `buildTrie` returns. */
  function TrieOf(foods: seq<Food>): JsNode
  {
    if foods == [] then EmptyNode
    else Insert(TrieOf(foods[..|foods| - 1]), ToLower(foods[|foods| - 1].name), foods[|foods| - 1])
  }

  /** `buildTrie`'s `forEach` loop. */
  method BuildTrie(foods: seq<Food>) returns (t: JsNode)
    ensures t == TrieOf(foods)
  {
    t := EmptyNode;
    var n := 0;
    while n < |foods|
      invariant 0 <= n <= |foods|
      invariant t == TrieOf(foods[..n])
    {
      assert foods[..n + 1][..n] == foods[..n];
      t := Insert(t, ToLower(foods[n].name), foods[n]);
      n := n + 1;
    }
    assert foods[..n] == foods;
  }

  /** The node reached by following `q` from `t`, if every child on the way exists. */
  function Walk(t: JsNode, q: string): Option<JsNode>
    decreases |q|
  {
    if q == [] then Some(t)
    else
      var i := FindEdge(t.edges, q[0]);
      if i < 0 then None else Walk(t.edges[i].child, q[1..])
  }

  /** `searchTrieExact`: the foods of the node at `q`, or none when a child is missing. */
  function Found(t: JsNode, q: string): seq<Food>
  {
    match Walk(t, q)
    case None => []
    case Some(n) => n.foods
  }

  /** The foods of a subtree in pre-order: a node's own foods, then each child's subtree
      in the order `for…in` visits the children. */
  function Collect(t: JsNode): seq<Food>
    decreases t, 1
  {
    t.foods + CollectFrom(t, 0)
  }

  /** The subtrees of the children of `t` from edge `k` on. */
  function CollectFrom(t: JsNode, k: nat): seq<Food>
    requires k <= |t.edges|
    decreases t, 0, |t.edges| - k
  {
    if k == |t.edges| then []
    else
      assert t.edges[k] in t.edges;
      Collect(t.edges[k].child) + CollectFrom(t, k + 1)
  }

  /** The foods `searchTriePrefix` collects before the cut to 20. */
  function PrefixFoods(t: JsNode, q: string): seq<Food>
  {
    match Walk(t, q)
    case None => []
    case Some(n) => Collect(n)
  }

  /** `searchTrieExact`: walk down one character at a time. */
  method SearchTrieExact(t: JsNode, query: string) returns (r: seq<Food>)
    ensures r == Found(t, query)
  {
    var node := t;
    var k := 0;
    while k < |query|
      invariant 0 <= k <= |query|
      invariant Walk(t, query) == Walk(node, query[k..])
    {
      assert query[k..][1..] == query[k + 1..];
      var i := FindEdge(node.edges, query[k]);
      if i < 0 {
        return [];
      }
      node := node.edges[i].child;
      k := k + 1;
    }
    assert query[k..] == [];
    r := node.foods;
  }

  /** `collectAllFoods`: push the node's foods, then recurse into each child. */
  method CollectAllFoods(node: JsNode, results: seq<Food>) returns (out: seq<Food>)
    ensures out == results + Collect(node)
    decreases node
  {
    out := results + node.foods;
    var k := 0;
    while k < |node.edges|
      invariant 0 <= k <= |node.edges|
      invariant out + CollectFrom(node, k) == results + Collect(node)
    {
      assert node.edges[k] in node.edges;
      out := CollectAllFoods(node.edges[k].child, out);
      k := k + 1;
    }
  }

  /** `searchTriePrefix`: walk down, collect the subtree, keep the first 20. */
  method SearchTriePrefix(t: JsNode, query: string) returns (r: seq<Food>)
    ensures r == Take(PrefixFoods(t, query), ResultCap)
  {
    var node := t;
    var k := 0;
    while k < |query|
      invariant 0 <= k <= |query|
      invariant Walk(t, query) == Walk(node, query[k..])
    {
      assert query[k..][1..] == query[k + 1..];
      var i := FindEdge(node.edges, query[k]);
      if i < 0 {
        return [];
      }
      node := node.edges[i].child;
      k := k + 1;
    }
    assert query[k..] == [];
    var results := CollectAllFoods(node, []);
    r := Take(results, ResultCap);
  }

  /** What `searchInTrie` returns: exact search is not cut to 20; substring search does
      not use the trie at all but filters the catalogue in order. */
  function TrieResult(t: JsNode, catalogue: seq<Food>, query: string, mode: SearchType): seq<Food>
  {
    match mode
    case Exact => Found(t, query)
    case Prefix => Take(PrefixFoods(t, query), ResultCap)
    case Substring => Take(Select(catalogue, KeyHolds(Matches(Substring, query))), ResultCap)
  }

  /** `searchInTrie`: dispatch on the search type. */
  method SearchInTrie(t: JsNode, catalogue: seq<Food>, query: string, mode: SearchType) returns (r: seq<Food>)
    ensures r == TrieResult(t, catalogue, query, mode)
  {
    if mode == Exact {
      r := SearchTrieExact(t, query);
    } else if mode == Prefix {
      r := SearchTriePrefix(t, query);
    } else {
      r := Take(Select(catalogue, KeyHolds(Matches(Substring, query))), ResultCap);
    }
  }

  // ---------------------------------------------------------------------------
  // What the app.js trie holds

  lemma FindEdgeUpdate(es: seq<Edge>, i: nat, e: Edge, d: char)
    requires i < |es| && e.symbol == es[i].symbol
    ensures FindEdge(es[i := e], d) == FindEdge(es, d)
  {
    var es' := es[i := e];
    assert forall j :: 0 <= j < |es| ==> es'[j].symbol == es[j].symbol;
  }

  /** Placing an edge with a new label finds it under that label and finds every other
      label's edge as before. */
  lemma FindEdgePlace(es: seq<Edge>, p: nat, e: Edge, d: char)
    requires p <= |es| && FindEdge(es, e.symbol) < 0
    ensures var r := FindEdge(Place(es, p, e), d);
            && (e.symbol == d ==> r == p)
            && (e.symbol != d ==> (r < 0 <==> FindEdge(es, d) < 0))
            && (e.symbol != d && r >= 0 ==> Place(es, p, e)[r] == es[FindEdge(es, d)])
  {
    var es' := Place(es, p, e);
    var r, r' := FindEdge(es, d), FindEdge(es', d);
    if e.symbol == d {
      assert es'[p].symbol == d;
    } else if r >= 0 {
      assert es'[if r < p then r else r + 1].symbol == d;
    }
  }

  /** Inserting under `key` changes the foods at node `key` only, by one push. */
  lemma {:induction false} FoundInsert(t: JsNode, key: string, f: Food, q: string)
    ensures Found(Insert(t, key, f), q) == Found(t, q) + (if q == key then [f] else [])
    decreases |key|
  {
    var t' := Insert(t, key, f);
    if key == [] {
      if q != [] {
        assert Walk(t', q) == Walk(t, q);
      }
    } else if q != [] {
      var c, d := key[0], q[0];
      var i := FindEdge(t.edges, c);
      var j := FindEdge(t.edges, d);
      if i >= 0 {
        var n := Insert(t.edges[i].child, key[1..], f);
        FindEdgeUpdate(t.edges, i, Edge(c, n), d);
        if d == c {
          FoundInsert(t.edges[i].child, key[1..], f, q[1..]);
          assert Walk(t', q) == Walk(n, q[1..]);
        } else {
          assert j != i;
          assert Walk(t', q) == Walk(t, q);
        }
      } else {
        var n := Insert(EmptyNode, key[1..], f);
        FindEdgePlace(t.edges, Slot(t.edges, c), Edge(c, n), d);
        if d == c {
          FoundInsert(EmptyNode, key[1..], f, q[1..]);
          assert Walk(t', q) == Walk(n, q[1..]);
          assert Found(EmptyNode, q[1..]) == [];
        } else {
          assert Walk(t', q) == Walk(t, q);
        }
      }
    }
  }

  lemma {:induction false} CollectFromSameEdges(t: JsNode, t': JsNode, k: nat)
    requires t.edges == t'.edges && k <= |t.edges|
    ensures CollectFrom(t, k) == CollectFrom(t', k)
    decreases |t.edges| - k
  {
    if k < |t.edges| {
      CollectFromSameEdges(t, t', k + 1);
    }
  }

  /** Behind a placed edge, each child's subtree is collected one position later. */
  lemma {:induction false} CollectFromShift(t: JsNode, p: nat, e: Edge, k: nat)
    requires p <= k <= |t.edges|
    ensures CollectFrom(JsNode(Place(t.edges, p, e), t.foods), k + 1) == CollectFrom(t, k)
    decreases |t.edges| - k
  {
    var t' := JsNode(Place(t.edges, p, e), t.foods);
    if k < |t.edges| {
      CollectFromShift(t, p, e, k + 1);
      assert t'.edges[k + 1] == t.edges[k];
    }
  }

  /** Placing an edge adds its subtree's foods to every collection that reaches it. */
  lemma {:induction false} CollectFromPlace(t: JsNode, p: nat, e: Edge, k: nat)
    requires k <= p <= |t.edges|
    ensures multiset(CollectFrom(JsNode(Place(t.edges, p, e), t.foods), k))
            == multiset(CollectFrom(t, k)) + multiset(Collect(e.child))
    decreases p - k
  {
    var t' := JsNode(Place(t.edges, p, e), t.foods);
    if k == p {
      CollectFromShift(t, p, e, p);
      assert t'.edges[p] == e;
    } else {
      CollectFromPlace(t, p, e, k + 1);
      assert t'.edges[k] == t.edges[k];
    }
  }

  /** Children after the replaced one collect the same foods. */
  lemma {:induction false} CollectFromAfter(t: JsNode, t': JsNode, i: nat, k: nat)
    requires i < k <= |t.edges|
    requires |t'.edges| == |t.edges| && forall j :: 0 <= j < |t.edges| && j != i ==> t'.edges[j] == t.edges[j]
    ensures CollectFrom(t', k) == CollectFrom(t, k)
    decreases |t.edges| - k
  {
    if k < |t.edges| {
      CollectFromAfter(t, t', i, k + 1);
      assert t'.edges[k] == t.edges[k];
    }
  }

  lemma CollectFromAt(t: JsNode, t': JsNode, i: nat)
    requires i < |t.edges|
    requires |t'.edges| == |t.edges| && forall j :: 0 <= j < |t.edges| && j != i ==> t'.edges[j] == t.edges[j]
    ensures multiset(CollectFrom(t', i)) + multiset(Collect(t.edges[i].child))
            == multiset(CollectFrom(t, i)) + multiset(Collect(t'.edges[i].child))
  {
    CollectFromAfter(t, t', i, i + 1);
    var rest := multiset(CollectFrom(t, i + 1));
    var old', new' := multiset(Collect(t.edges[i].child)), multiset(Collect(t'.edges[i].child));
    assert t.edges[i] in t.edges && t'.edges[i] in t'.edges;
    assert multiset(CollectFrom(t, i)) == old' + rest;
    assert multiset(CollectFrom(t', i)) == new' + rest;
  }

  /** Replacing child `i` swaps its subtree's foods in any collection that reaches it. */
  lemma {:induction false} CollectFromReplace(t: JsNode, t': JsNode, i: nat, k: nat)
    requires k <= i < |t.edges|
    requires |t'.edges| == |t.edges| && forall j :: 0 <= j < |t.edges| && j != i ==> t'.edges[j] == t.edges[j]
    ensures multiset(CollectFrom(t', k)) + multiset(Collect(t.edges[i].child))
            == multiset(CollectFrom(t, k)) + multiset(Collect(t'.edges[i].child))
    decreases |t.edges| - k
  {
    if k == i {
      CollectFromAt(t, t', i);
    } else {
      CollectFromReplace(t, t', i, k + 1);
      assert t'.edges[k] == t.edges[k];
      var here := multiset(Collect(t.edges[k].child));
      var rest, rest' := multiset(CollectFrom(t, k + 1)), multiset(CollectFrom(t', k + 1));
      var old', new' := multiset(Collect(t.edges[i].child)), multiset(Collect(t'.edges[i].child));
      assert multiset(CollectFrom(t, k)) == here + rest;
      assert multiset(CollectFrom(t', k)) == here + rest';
      calc {
        here + rest' + old';
        here + (rest' + old');
        here + (rest + new');
        here + rest + new';
      }
    }
  }

  /** Inserting adds exactly one food to the whole trie. */
  lemma {:induction false} CollectInsert(t: JsNode, key: string, f: Food)
    ensures multiset(Collect(Insert(t, key, f))) == multiset(Collect(t)) + multiset{f}
    decreases |key|, 1
  {
    if key == [] {
      CollectFromSameEdges(t, Insert(t, key, f), 0);
    } else if FindEdge(t.edges, key[0]) >= 0 {
      CollectInsertExisting(t, key, f);
    } else {
      var n := Insert(EmptyNode, key[1..], f);
      CollectInsert(EmptyNode, key[1..], f);
      CollectFromPlace(t, Slot(t.edges, key[0]), Edge(key[0], n), 0);
      assert Collect(EmptyNode) == [];
    }
  }

  /** `CollectInsert` when the first symbol already has an edge. */
  lemma {:induction false} CollectInsertExisting(t: JsNode, key: string, f: Food)
    requires key != [] && FindEdge(t.edges, key[0]) >= 0
    ensures multiset(Collect(Insert(t, key, f))) == multiset(Collect(t)) + multiset{f}
    decreases |key|, 0
  {
    var t' := Insert(t, key, f);
    var i := FindEdge(t.edges, key[0]);
    var n := Insert(t.edges[i].child, key[1..], f);
    CollectInsert(t.edges[i].child, key[1..], f);
    CollectFromReplace(t, t', i, 0);
    assert t'.edges[i].child == n;
    MultisetCancel(multiset(CollectFrom(t', 0)), multiset(CollectFrom(t, 0)) + multiset{f},
                   multiset(Collect(t.edges[i].child)));
  }

  /** Inserting under `key` adds the food to the subtree at `q` exactly when `q` is a prefix
      of `key`. */
  lemma {:induction false} PrefixInsert(t: JsNode, key: string, f: Food, q: string)
    ensures multiset(PrefixFoods(Insert(t, key, f), q))
            == multiset(PrefixFoods(t, q)) + (if q <= key then multiset{f} else multiset{})
    decreases |key|, 1
  {
    var t' := Insert(t, key, f);
    if q == [] {
      CollectInsert(t, key, f);
    } else if key == [] {
      assert Walk(t', q) == Walk(t, q);
    } else if FindEdge(t.edges, key[0]) >= 0 {
      PrefixInsertExisting(t, key, f, q);
    } else {
      PrefixInsertFresh(t, key, f, q);
    }
  }

  /** `PrefixInsert` when the first symbol of `key` already has an edge. */
  lemma {:induction false} PrefixInsertExisting(t: JsNode, key: string, f: Food, q: string)
    requires q != [] && key != [] && FindEdge(t.edges, key[0]) >= 0
    ensures multiset(PrefixFoods(Insert(t, key, f), q))
            == multiset(PrefixFoods(t, q)) + (if q <= key then multiset{f} else multiset{})
    decreases |key|, 0
  {
    var t' := Insert(t, key, f);
    var c, d := key[0], q[0];
    var i := FindEdge(t.edges, c);
    var j := FindEdge(t.edges, d);
    assert q <= key <==> d == c && q[1..] <= key[1..];
    var n := Insert(t.edges[i].child, key[1..], f);
    FindEdgeUpdate(t.edges, i, Edge(c, n), d);
    if d == c {
      PrefixInsert(t.edges[i].child, key[1..], f, q[1..]);
      assert Walk(t', q) == Walk(n, q[1..]);
    } else {
      assert j != i;
      assert Walk(t', q) == Walk(t, q);
    }
  }

  /** `PrefixInsert` when the first symbol of `key` gets a new edge. */
  lemma {:induction false} PrefixInsertFresh(t: JsNode, key: string, f: Food, q: string)
    requires q != [] && key != [] && FindEdge(t.edges, key[0]) < 0
    ensures multiset(PrefixFoods(Insert(t, key, f), q))
            == multiset(PrefixFoods(t, q)) + (if q <= key then multiset{f} else multiset{})
    decreases |key|, 0
  {
    var t' := Insert(t, key, f);
    var c, d := key[0], q[0];
    assert q <= key <==> d == c && q[1..] <= key[1..];
    var n := Insert(EmptyNode, key[1..], f);
    FindEdgePlace(t.edges, Slot(t.edges, c), Edge(c, n), d);
    if d == c {
      PrefixInsert(EmptyNode, key[1..], f, q[1..]);
      assert Walk(t', q) == Walk(n, q[1..]);
      assert PrefixFoods(EmptyNode, q[1..]) == [] by {
        if q[1..] == [] {
          assert Collect(EmptyNode) == [];
        }
      }
    } else {
      assert Walk(t', q) == Walk(t, q);
    }
  }

  /** The children of a node in `for…in` order: every digit key comes before all later
      keys and below every later digit key. */
  predicate EnumOrdered(es: seq<Edge>)
  {
    forall i, j :: 0 <= i < j < |es| && IsIndexKey(es[j].symbol) ==>
      IsIndexKey(es[i].symbol) && es[i].symbol < es[j].symbol
  }

  /** Every node of the trie lists its children in `for…in` order. */
  predicate Ordered(t: JsNode)
    decreases t
  {
    EnumOrdered(t.edges) && forall e :: e in t.edges ==> Ordered(e.child)
  }

  /** A new digit label lies below every digit label from its slot on. */
  lemma SlotBelowLater(es: seq<Edge>, c: char, k: nat)
    requires EnumOrdered(es) && FindEdge(es, c) < 0 && IsIndexKey(c)
    requires DigitsBelow(es, c) <= k < |es| && IsIndexKey(es[k].symbol)
    ensures c < es[k].symbol
  {
    var p := DigitsBelow(es, c);
    assert es[p].symbol != c;
    if p < k {
      assert IsIndexKey(es[p].symbol) && es[p].symbol < es[k].symbol;
    }
  }

  /** One pair of children after placing a new label at its slot. */
  lemma PlaceOrderedPair(es: seq<Edge>, e: Edge, i: nat, j: nat)
    requires EnumOrdered(es) && FindEdge(es, e.symbol) < 0
    requires i < j <= |es|
    requires IsIndexKey(Place(es, Slot(es, e.symbol), e)[j].symbol)
    ensures var es' := Place(es, Slot(es, e.symbol), e);
            IsIndexKey(es'[i].symbol) && es'[i].symbol < es'[j].symbol
  {
    var p := Slot(es, e.symbol);
    var es' := Place(es, p, e);
    if i == p {
      assert es'[j] == es[j - 1];
      SlotBelowLater(es, e.symbol, j - 1);
    } else if j == p {
      assert es'[i] == es[i];
    } else {
      OldPairOrdered(es, es', p, e, i, j);
    }
  }

  /** Two old children keep their relative order around a placed edge. */
  lemma OldPairOrdered(es: seq<Edge>, es': seq<Edge>, p: nat, e: Edge, i: nat, j: nat)
    requires EnumOrdered(es) && p <= |es| && es' == Place(es, p, e)
    requires i < j <= |es| && i != p && j != p && IsIndexKey(es'[j].symbol)
    ensures IsIndexKey(es'[i].symbol) && es'[i].symbol < es'[j].symbol
  {
    var i0, j0 := if i < p then i else i - 1, if j < p then j else j - 1;
    assert es'[i] == es[i0] && es'[j] == es[j0] && i0 < j0;
  }

  /** Placing a new label at its slot keeps the children in `for…in` order. */
  lemma PlaceOrdered(es: seq<Edge>, e: Edge)
    requires EnumOrdered(es) && FindEdge(es, e.symbol) < 0
    ensures EnumOrdered(Place(es, Slot(es, e.symbol), e))
  {
    var es' := Place(es, Slot(es, e.symbol), e);
    forall i, j | 0 <= i < j < |es'| && IsIndexKey(es'[j].symbol)
      ensures IsIndexKey(es'[i].symbol) && es'[i].symbol < es'[j].symbol
    {
      PlaceOrderedPair(es, e, i, j);
    }
  }

  /** `buildTrie`'s walk keeps every node's children in `for…in` order. */
  lemma {:induction false} InsertOrdered(t: JsNode, key: string, f: Food)
    requires Ordered(t)
    ensures Ordered(Insert(t, key, f))
    decreases |key|, 1
  {
    if key != [] {
      if FindEdge(t.edges, key[0]) >= 0 {
        InsertOrderedExisting(t, key, f);
      } else {
        InsertOrderedFresh(t, key, f);
      }
    }
  }

  /** `InsertOrdered` when the first symbol already has an edge. */
  lemma {:induction false} InsertOrderedExisting(t: JsNode, key: string, f: Food)
    requires Ordered(t) && key != [] && FindEdge(t.edges, key[0]) >= 0
    ensures Ordered(Insert(t, key, f))
    decreases |key|, 0
  {
    var t' := Insert(t, key, f);
    var i := FindEdge(t.edges, key[0]);
    InsertOrdered(t.edges[i].child, key[1..], f);
    assert forall j :: 0 <= j < |t.edges| ==> t'.edges[j].symbol == t.edges[j].symbol;
    forall e | e in t'.edges ensures Ordered(e.child) {
      var j :| 0 <= j < |t'.edges| && t'.edges[j] == e;
      if j != i {
        assert t.edges[j] in t.edges;
      }
    }
  }

  /** `InsertOrdered` when the first symbol gets a new edge. */
  lemma {:induction false} InsertOrderedFresh(t: JsNode, key: string, f: Food)
    requires Ordered(t) && key != [] && FindEdge(t.edges, key[0]) < 0
    ensures Ordered(Insert(t, key, f))
    decreases |key|, 0
  {
    var t' := Insert(t, key, f);
    var p := Slot(t.edges, key[0]);
    InsertOrdered(EmptyNode, key[1..], f);
    PlaceOrdered(t.edges, Edge(key[0], Insert(EmptyNode, key[1..], f)));
    forall e | e in t'.edges ensures Ordered(e.child) {
      var j :| 0 <= j < |t'.edges| && t'.edges[j] == e;
      if j != p {
        assert t.edges[if j < p then j else j - 1] in t.edges;
      }
    }
  }

  /** The trie `buildTrie` returns lists every node's children in `for…in` order, so
      `collectAllFoods` visits them in the order the model's pre-order does. */
  lemma {:induction false} TrieOrdered(foods: seq<Food>)
    ensures Ordered(TrieOf(foods))
  {
    if foods != [] {
      var init := foods[..|foods| - 1];
      TrieOrdered(init);
      InsertOrdered(TrieOf(init), ToLower(foods[|foods| - 1].name), foods[|foods| - 1]);
    }
  }

  /** The two-level trie built from a food keyed "ab" and then one keyed "a1". */
  function TwoLeaves(x: Food, y: Food): JsNode
  {
    JsNode([Edge('a', JsNode([Edge('1', JsNode([], [y])), Edge('b', JsNode([], [x]))], []))], [])
  }

  /** A fresh single-character key makes one leaf holding the food. */
  lemma InsertLeaf(t: JsNode, c: char, x: Food)
    requires FindEdge(t.edges, c) < 0
    ensures Insert(t, [c], x) == JsNode(Place(t.edges, Slot(t.edges, c), Edge(c, JsNode([], [x]))), t.foods)
  {
    assert [c][0] == c && [c][1..] == [];
    assert Insert(EmptyNode, [], x) == JsNode([], [x]);
  }

  lemma BuildFirstLeaf(x: Food)
    requires ToLower(x.name) == "ab"
    ensures TrieOf([x]) == JsNode([Edge('a', JsNode([Edge('b', JsNode([], [x]))], []))], [])
  {
    var nodeB := JsNode([Edge('b', JsNode([], [x]))], []);
    InsertLeaf(EmptyNode, 'b', x);
    assert Place([], 0, Edge('b', JsNode([], [x]))) == nodeB.edges;
    assert Insert(EmptyNode, "b", x) == nodeB;
    assert "ab"[0] == 'a' && "ab"[1..] == "b";
    assert Place([], 0, Edge('a', nodeB)) == [Edge('a', nodeB)];
    assert Insert(EmptyNode, "ab", x) == JsNode([Edge('a', nodeB)], []);
    assert [x][..0] == [];
  }

  lemma BuildTwoLeaves(x: Food, y: Food)
    requires ToLower(x.name) == "ab" && ToLower(y.name) == "a1"
    ensures TrieOf([x, y]) == TwoLeaves(x, y)
  {
    var nodeB := JsNode([Edge('b', JsNode([], [x]))], []);
    BuildFirstLeaf(x);
    assert [x, y][..1] == [x];
    InsertLeaf(nodeB, '1', y);
    assert Slot(nodeB.edges, '1') == 0;
    assert Insert(nodeB, "1", y) == TwoLeaves(x, y).edges[0].child;
    assert "a1"[0] == 'a' && "a1"[1..] == "1";
    assert Insert(TrieOf([x]), "a1", y) == TwoLeaves(x, y);
  }

  lemma CollectTwoLeaves(x: Food, y: Food)
    ensures PrefixFoods(TwoLeaves(x, y), "a") == [y, x]
  {
    var nodeA := TwoLeaves(x, y).edges[0].child;
    assert Walk(TwoLeaves(x, y), "a") == Some(nodeA);
    assert Collect(JsNode([], [y])) == [y] && Collect(JsNode([], [x])) == [x];
    assert CollectFrom(nodeA, 2) == [];
    assert CollectFrom(nodeA, 1) == [x];
    assert CollectFrom(nodeA, 0) == [y, x];
  }

  /** A digit after a shared prefix is collected first: with "ab" inserted before "a1",
      the prefix search for "a" lists "a1" before "ab". */
  lemma DigitChildFirst()
    ensures var ab := EmptyFood.(name := "ab");
            var a1 := EmptyFood.(name := "a1");
            PrefixFoods(TrieOf([ab, a1]), "a") == [a1, ab]
  {
    var ab := EmptyFood.(name := "ab");
    var a1 := EmptyFood.(name := "a1");
    assert ToLower("ab") == "ab" && ToLower("a1") == "a1";
    BuildTwoLeaves(ab, a1);
    CollectTwoLeaves(ab, a1);
  }

  /** After `buildTrie`, the node at `q` holds exactly the foods whose lower-cased name is
      `q`, in catalogue order; in particular each food is found under its lower-cased name. */
  lemma {:induction false} TrieExact(foods: seq<Food>, q: string)
    ensures Found(TrieOf(foods), q) == WithKey(foods, ToLower, q)
  {
    if foods != [] {
      var init := foods[..|foods| - 1];
      TrieExact(init, q);
      FoundInsert(TrieOf(init), ToLower(foods[|foods| - 1].name), foods[|foods| - 1], q);
    } else {
      assert Walk(EmptyNode, q) == if q == [] then Some(EmptyNode) else None;
    }
  }

  /** After `buildTrie`, the subtree at `q` holds exactly the foods whose lower-cased name
      starts with `q`, as a bag (the order is the trie's pre-order). */
  lemma {:induction false} TriePrefix(foods: seq<Food>, q: string)
    ensures multiset(PrefixFoods(TrieOf(foods), q)) == multiset(Under(foods, ToLower, q))
  {
    if foods != [] {
      var init := foods[..|foods| - 1];
      TriePrefix(init, q);
      PrefixInsert(TrieOf(init), ToLower(foods[|foods| - 1].name), foods[|foods| - 1], q);
    } else {
      assert Walk(EmptyNode, q) == if q == [] then Some(EmptyNode) else None;
      assert Collect(EmptyNode) == [];
    }
  }

  lemma {:induction false} WithKeyIsSelect(foods: seq<Food>, q: string)
    ensures WithKey(foods, ToLower, q) == Select(foods, KeyHolds(Matches(Exact, q)))
  {
    if foods != [] {
      WithKeyIsSelect(foods[..|foods| - 1], q);
    }
  }

  lemma {:induction false} UnderIsSelect(foods: seq<Food>, q: string)
    ensures Under(foods, ToLower, q) == Select(foods, KeyHolds(Matches(Prefix, q)))
  {
    if foods != [] {
      UnderIsSelect(foods[..|foods| - 1], q);
    }
  }

  /** What the app.js trie searches return over the catalogue's trie: exact search gives
      every food whose lower-cased name is the query, in catalogue order and without the
      cut to 20; prefix search gives as many matching foods as there are, up to 20, and
      all of them when no more than 20 match. */
  lemma TrieSearchFacts(foods: seq<Food>, query: string, mode: SearchType)
    ensures var r := TrieResult(TrieOf(foods), foods, query, mode);
            var hits := Select(foods, KeyHolds(Matches(mode, query)));
            && (mode == Exact ==> r == hits)
            && (mode != Exact ==> |r| == (if |hits| <= ResultCap then |hits| else ResultCap))
            && (forall f :: f in r ==> f in foods && Matches(mode, query)(ToLower(f.name)))
            && (|hits| <= ResultCap ==> multiset(r) == multiset(hits))
  {
    var p := Matches(mode, query);
    var hits := Select(foods, KeyHolds(p));
    var t := TrieOf(foods);
    SelectMembers(foods, KeyHolds(p));
    if mode == Exact {
      TrieExact(foods, query);
      WithKeyIsSelect(foods, query);
    } else if mode == Prefix {
      TriePrefix(foods, query);
      UnderIsSelect(foods, query);
      var all := PrefixFoods(t, query);
      assert |all| == |hits| by {
        assert |multiset(all)| == |multiset(hits)|;
      }
      forall f | f in Take(all, ResultCap) ensures f in foods && p(ToLower(f.name)) {
        assert f in all;
        assert f in multiset(all);
      }
    }
  }

  /** When no more than 20 foods match, the hash-mode and trie-mode searches of app.js
      return the same foods, possibly in another order. */
  lemma SearchesAgree(foods: seq<Food>, query: string, mode: SearchType)
    requires |Select(foods, KeyHolds(Matches(mode, query)))| <= ResultCap
    ensures multiset(Take(HashHits(MapOf(foods), query, mode), ResultCap))
            == multiset(TrieResult(TrieOf(foods), foods, query, mode))
  {
    HashSearchFacts(foods, query, mode);
    TrieSearchFacts(foods, query, mode);
  }
}
