/**
 * Order-preserving selections of foods, shared by the two tries and the two hash
 * indexes.  A trie files a food under a key computed from its name (the slot path
 * for Trie.h, the lower-cased characters for app.js); `WithKey`, `Under` and
 * `Below` pick the foods filed exactly at, anywhere under, or under some given
 * children of a node.  Every selection recurses on the last element, so that
 * appending one food appends at most that food to each selection.
 */
module Selection {
  import opened Text
  import opened Nutrition

  /** The foods of `s` that satisfy `keep`, in their order in `s`. */
  function Select(s: seq<Food>, keep: Food -> bool): (r: seq<Food>)
    ensures |r| <= |s|
  {
    if s == [] then []
    else Select(s[..|s| - 1], keep) + (if keep(s[|s| - 1]) then [s[|s| - 1]] else [])
  }

  /** Selection keeps exactly the elements that pass, with their multiplicities. */
  lemma {:induction false} SelectCount(s: seq<Food>, keep: Food -> bool, f: Food)
    ensures multiset(Select(s, keep))[f] == if keep(f) then multiset(s)[f] else 0
  {
    if s != [] {
      SelectCount(s[..|s| - 1], keep, f);
      assert s == s[..|s| - 1] + [s[|s| - 1]];
    }
  }

  /** Every selected food passes, and every food of `s` that passes is selected. */
  lemma SelectMembers(s: seq<Food>, keep: Food -> bool)
    ensures forall f :: f in Select(s, keep) <==> f in s && keep(f)
  {
    forall f ensures f in Select(s, keep) <==> f in s && keep(f) {
      SelectCount(s, keep, f);
    }
  }

  /** Selecting from two orderings of the same foods gives two orderings of the same result. */
  lemma SelectPermutation(a: seq<Food>, b: seq<Food>, keep: Food -> bool)
    requires multiset(a) == multiset(b)
    ensures multiset(Select(a, keep)) == multiset(Select(b, keep))
  {
    forall f ensures multiset(Select(a, keep))[f] == multiset(Select(b, keep))[f] {
      SelectCount(a, keep, f);
      SelectCount(b, keep, f);
    }
  }

  /** Bags of foods cancel: adding the same bag to both sides keeps them equal. */
  lemma MultisetCancel(a: multiset<Food>, b: multiset<Food>, x: multiset<Food>)
    requires a + x == b + x
    ensures a == b
  {
    forall o ensures a[o] == b[o] {
      assert (a + x)[o] == (b + x)[o];
    }
  }

  /** Selection distributes over concatenation. */
  lemma {:induction false} SelectAppend(a: seq<Food>, b: seq<Food>, keep: Food -> bool)
    ensures Select(a + b, keep) == Select(a, keep) + Select(b, keep)
  {
    if b != [] {
      var b' := b[..|b| - 1];
      SelectAppend(a, b', keep);
      assert (a + b)[..|a + b| - 1] == a + b';
    } else {
      assert a + b == a;
    }
  }

  /** Selecting with a looser test first changes nothing when the tighter test implies it. */
  lemma {:induction false} SelectNarrow(s: seq<Food>, loose: Food -> bool, tight: Food -> bool)
    requires forall f :: tight(f) ==> loose(f)
    ensures Select(Select(s, loose), tight) == Select(s, tight)
  {
    if s != [] {
      var init := s[..|s| - 1];
      var f := s[|s| - 1];
      SelectNarrow(init, loose, tight);
      var a := Select(init, loose);
      assert tight(f) ==> loose(f);
      if loose(f) {
        assert Select(s, loose) == a + [f];
        assert (a + [f])[..|a|] == a;
        assert Select(a + [f], tight) == Select(a, tight) + (if tight(f) then [f] else []);
      } else {
        assert Select(s, loose) == a;
      }
    }
  }

  /** A test that passes exactly when one of two exclusive tests passes selects,
      up to order, the union of what they select. */
  lemma SelectSplit(s: seq<Food>, either: Food -> bool, p: Food -> bool, q: Food -> bool)
    requires forall f :: either(f) <==> p(f) || q(f)
    requires forall f :: !(p(f) && q(f))
    ensures multiset(Select(s, either)) == multiset(Select(s, p)) + multiset(Select(s, q))
  {
    forall f ensures multiset(Select(s, either))[f] == (multiset(Select(s, p)) + multiset(Select(s, q)))[f] {
      SelectCount(s, either, f);
      SelectCount(s, p, f);
      SelectCount(s, q, f);
    }
  }

  /** A test everything passes selects everything. */
  lemma {:induction false} SelectAll(s: seq<Food>, keep: Food -> bool)
    requires forall f :: keep(f)
    ensures Select(s, keep) == s
  {
    if s != [] {
      SelectAll(s[..|s| - 1], keep);
      assert s == s[..|s| - 1] + [s[|s| - 1]];
    }
  }

  // ---------------------------------------------------------------------------
  // Selections by key

  /** The foods whose key is exactly `p` (the foods a trie node holds). */
  function WithKey<K(==)>(s: seq<Food>, key: string -> seq<K>, p: seq<K>): (r: seq<Food>)
    ensures |r| <= |s|
  {
    if s == [] then []
    else WithKey(s[..|s| - 1], key, p) + (if key(s[|s| - 1].name) == p then [s[|s| - 1]] else [])
  }

  /** The foods whose key starts with `p` (the foods in a node's subtree). */
  function Under<K(==)>(s: seq<Food>, key: string -> seq<K>, p: seq<K>): (r: seq<Food>)
    ensures |r| <= |s|
  {
    if s == [] then []
    else Under(s[..|s| - 1], key, p) + (if p <= key(s[|s| - 1].name) then [s[|s| - 1]] else [])
  }

  /** The foods whose key extends `p` by at least one symbol, that symbol being in `next`
      (the foods below the children `next` of a node). */
  function Below<K(==)>(s: seq<Food>, key: string -> seq<K>, p: seq<K>, next: set<K>): seq<Food>
  {
    if s == [] then []
    else
      var k := key(s[|s| - 1].name);
      Below(s[..|s| - 1], key, p, next)
      + (if p < k && k[|p|] in next then [s[|s| - 1]] else [])
  }

  /** No food's key starts with `p`: the subtree at `p` would be empty. */
  predicate NoneUnder<K(==)>(s: seq<Food>, key: string -> seq<K>, p: seq<K>)
  {
    forall k :: 0 <= k < |s| ==> !(p <= key(s[k].name))
  }

  /** A food is filed exactly at `p` when it is one of `s` and its key is `p`. */
  lemma {:induction false} WithKeyMembers<K>(s: seq<Food>, key: string -> seq<K>, p: seq<K>, f: Food)
    ensures f in WithKey(s, key, p) <==> f in s && key(f.name) == p
  {
    if s != [] {
      WithKeyMembers(s[..|s| - 1], key, p, f);
      assert s == s[..|s| - 1] + [s[|s| - 1]];
    }
  }

  /** Two keys that agree file a food in the same place. */
  lemma {:induction false} WithKeyUnder<K>(s: seq<Food>, key: string -> seq<K>, p: seq<K>, f: Food)
    requires f in WithKey(s, key, p)
    ensures f in Under(s, key, p)
  {
    if s != [] {
      if f !in WithKey(s[..|s| - 1], key, p) {
        assert f == s[|s| - 1];
      } else {
        WithKeyUnder(s[..|s| - 1], key, p, f);
      }
    }
  }

  /** An empty subtree stays empty further down, and holds no food at any deeper key. */
  lemma {:induction false} NoneUnderDeeper<K>(s: seq<Food>, key: string -> seq<K>, p: seq<K>, q: seq<K>)
    requires NoneUnder(s, key, p) && p <= q
    ensures NoneUnder(s, key, q)
    ensures WithKey(s, key, q) == [] && Under(s, key, q) == []
  {
    if s != [] {
      NoneUnderDeeper(s[..|s| - 1], key, p, q);
      var k := key(s[|s| - 1].name);
      assert !(p <= k);
    }
  }

  /** One more food keeps a subtree empty unless its key lies under it. */
  lemma NoneUnderAppend<K>(s: seq<Food>, f: Food, key: string -> seq<K>, p: seq<K>)
    ensures NoneUnder(s + [f], key, p) <==> NoneUnder(s, key, p) && !(p <= key(f.name))
  {
    assert forall k :: 0 <= k < |s| ==> (s + [f])[k] == s[k];
    assert (s + [f])[|s|] == f;
  }

  /** No food is below the empty set of children. */
  lemma {:induction false} BelowNone<K>(s: seq<Food>, key: string -> seq<K>, p: seq<K>)
    ensures Below(s, key, p, {}) == []
  {
    if s != [] {
      BelowNone(s[..|s| - 1], key, p);
    }
  }

  /** For one key: being below child `x` is being under `p + [x]`. */
  lemma BelowChild<K>(k: seq<K>, p: seq<K>, x: K)
    ensures (p < k && k[|p|] == x) <==> p + [x] <= k
  {
    if p < k && k[|p|] == x {
      assert p + [x] == k[..|p| + 1];
    }
  }

  /** Adding child `x` to the visited children adds exactly the subtree at `p + [x]`. */
  lemma {:induction false} BelowAdd<K>(s: seq<Food>, key: string -> seq<K>, p: seq<K>, next: set<K>, x: K)
    requires x !in next
    ensures multiset(Below(s, key, p, next + {x}))
         == multiset(Below(s, key, p, next)) + multiset(Under(s, key, p + [x]))
  {
    if s != [] {
      var s' := s[..|s| - 1];
      var f := s[|s| - 1];
      BelowAdd(s', key, p, next, x);
      var k := key(f.name);
      BelowChild(k, p, x);
      var a := if p < k && k[|p|] in next + {x} then [f] else [];
      var b := if p < k && k[|p|] in next then [f] else [];
      var c := if p + [x] <= k then [f] else [];
      assert multiset(a) == multiset(b) + multiset(c);
      assert Below(s, key, p, next + {x}) == Below(s', key, p, next + {x}) + a;
      assert Below(s, key, p, next) == Below(s', key, p, next) + b;
      assert Under(s, key, p + [x]) == Under(s', key, p + [x]) + c;
    }
  }

  /** A subtree is its node's own foods plus what lies below the children that hold
      anything, as long as every longer key continues with one of those children. */
  lemma {:induction false} UnderSplit<K>(s: seq<Food>, key: string -> seq<K>, p: seq<K>, next: set<K>)
    requires forall k :: 0 <= k < |s| && p < key(s[k].name) ==> key(s[k].name)[|p|] in next
    ensures multiset(Under(s, key, p)) == multiset(WithKey(s, key, p)) + multiset(Below(s, key, p, next))
  {
    if s != [] {
      var s' := s[..|s| - 1];
      assert forall k :: 0 <= k < |s'| ==> s'[k] == s[k];
      UnderSplit(s', key, p, next);
      var k := key(s[|s| - 1].name);
      assert p < k ==> k[|p|] in next;
      UnderSplitLast(s, key, p, next);
    }
  }

  /** The step of `UnderSplit`: the last food lands in the node's own foods or below one
      of the listed children, exactly when it lies in the subtree. */
  lemma UnderSplitLast<K>(s: seq<Food>, key: string -> seq<K>, p: seq<K>, next: set<K>)
    requires s != []
    requires p < key(s[|s| - 1].name) ==> key(s[|s| - 1].name)[|p|] in next
    requires var s' := s[..|s| - 1];
      multiset(Under(s', key, p)) == multiset(WithKey(s', key, p)) + multiset(Below(s', key, p, next))
    ensures multiset(Under(s, key, p)) == multiset(WithKey(s, key, p)) + multiset(Below(s, key, p, next))
  {
    var k := key(s[|s| - 1].name);
    if k == p {
      SplitAtNode(s, key, p, next);
    } else if p < k {
      SplitBelowNode(s, key, p, next);
    } else {
      SplitOutside(s, key, p, next);
    }
  }

  /** The last food is filed at the node itself. */
  lemma SplitAtNode<K>(s: seq<Food>, key: string -> seq<K>, p: seq<K>, next: set<K>)
    requires s != [] && key(s[|s| - 1].name) == p
    requires var s' := s[..|s| - 1];
      multiset(Under(s', key, p)) == multiset(WithKey(s', key, p)) + multiset(Below(s', key, p, next))
    ensures multiset(Under(s, key, p)) == multiset(WithKey(s, key, p)) + multiset(Below(s, key, p, next))
  {
    var s', f := s[..|s| - 1], s[|s| - 1];
    assert Under(s, key, p) == Under(s', key, p) + [f];
    assert WithKey(s, key, p) == WithKey(s', key, p) + [f];
    assert Below(s, key, p, next) == Below(s', key, p, next);
  }

  /** The last food lies strictly below the node, under one of the listed children. */
  lemma SplitBelowNode<K>(s: seq<Food>, key: string -> seq<K>, p: seq<K>, next: set<K>)
    requires s != [] && p < key(s[|s| - 1].name) && key(s[|s| - 1].name)[|p|] in next
    requires var s' := s[..|s| - 1];
      multiset(Under(s', key, p)) == multiset(WithKey(s', key, p)) + multiset(Below(s', key, p, next))
    ensures multiset(Under(s, key, p)) == multiset(WithKey(s, key, p)) + multiset(Below(s, key, p, next))
  {
    var s', f := s[..|s| - 1], s[|s| - 1];
    assert Under(s, key, p) == Under(s', key, p) + [f];
    assert WithKey(s, key, p) == WithKey(s', key, p);
    assert Below(s, key, p, next) == Below(s', key, p, next) + [f];
  }

  /** The last food lies outside the subtree. */
  lemma SplitOutside<K>(s: seq<Food>, key: string -> seq<K>, p: seq<K>, next: set<K>)
    requires s != [] && !(p <= key(s[|s| - 1].name))
    requires var s' := s[..|s| - 1];
      multiset(Under(s', key, p)) == multiset(WithKey(s', key, p)) + multiset(Below(s', key, p, next))
    ensures multiset(Under(s, key, p)) == multiset(WithKey(s, key, p)) + multiset(Below(s, key, p, next))
  {
    var s' := s[..|s| - 1];
    assert Under(s, key, p) == Under(s', key, p);
    assert WithKey(s, key, p) == WithKey(s', key, p);
    assert Below(s, key, p, next) == Below(s', key, p, next);
  }

  // ---------------------------------------------------------------------------
  // Name tests shared by the searches

  /** Lower-cased name equals the lower-cased query. */
  function NameIs(query: string): Food -> bool
  {
    (f: Food) => ToLower(f.name) == ToLower(query)
  }

  /** Lower-cased name starts with the lower-cased prefix. */
  function NameStartsWith(prefix: string): Food -> bool
  {
    (f: Food) => StartsWith(ToLower(f.name), ToLower(prefix))
  }

  /** Lower-cased name contains the lower-cased term. */
  function NameContains(term: string): Food -> bool
  {
    (f: Food) => Contains(ToLower(f.name), ToLower(term))
  }

  /** The filtering loop of the `searchContains` operations: keep, in order, the foods
      whose lower-cased name contains the lower-cased term. */
  method KeepContaining(foods: seq<Food>, term: string) returns (r: seq<Food>)
    ensures r == Select(foods, NameContains(term))
  {
    var lowerTerm := ToLower(term);
    r := [];
    var k := 0;
    while k < |foods|
      invariant 0 <= k <= |foods|
      invariant r == Select(foods[..k], NameContains(term))
    {
      var lowerName := ToLower(foods[k].name);
      if Contains(lowerName, lowerTerm) {
        r := r + [foods[k]];
      }
      assert foods[..k + 1][..k] == foods[..k];
      k := k + 1;
    }
    assert foods[..k] == foods;
  }

  /** The filtering loop of the `searchPrefix` scans: keep, in order, the foods whose
      lower-cased name starts with the lower-cased prefix. */
  method KeepStartingWith(foods: seq<Food>, prefix: string) returns (r: seq<Food>)
    ensures r == Select(foods, NameStartsWith(prefix))
  {
    var lowerPrefix := ToLower(prefix);
    r := [];
    var k := 0;
    while k < |foods|
      invariant 0 <= k <= |foods|
      invariant r == Select(foods[..k], NameStartsWith(prefix))
    {
      var lowerName := ToLower(foods[k].name);
      if StartsWith(lowerName, lowerPrefix) {
        r := r + [foods[k]];
      }
      assert foods[..k + 1][..k] == foods[..k];
      k := k + 1;
    }
    assert foods[..k] == foods;
  }
}
