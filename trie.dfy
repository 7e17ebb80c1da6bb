/**
 * The prefix tree of Trie.h.  Each node has 27 child slots: slots 0..25 for the
 * letters a..z (either case) and slot 26 for every other character.  A food is
 * filed at the node reached by following the slots of its name; nodes keep the
 * foods filed there in insertion order.
 *
 * The nodes live in an arena `nodes`, children being indices into it.  Ghost
 * state records, for every node, the slot path that leads to it and its parent,
 * and the sequence of foods inserted so far; the invariant ties the arena to
 * that sequence through the selections of module Selection.
 */
module PrefixTree {
  import opened Wrappers
  import opened Text
  import opened Nutrition
  import opened Selection

  const AlphabetSize: nat := 27

  /** A letter of either case (after folding, `a`..`z`). */
  predicate IsLetter(c: char)
  {
    'a' <= LowerChar(c) <= 'z'
  }

  /** `TrieNode::charToIndex`: letters go to their position in the alphabet whatever
      their case, every other character to slot 26. */
  function CharToIndex(c: char): (i: nat)
    ensures i < AlphabetSize
    ensures IsLetter(c) ==> i as int == LowerChar(c) as int - 'a' as int
    ensures !IsLetter(c) ==> i == 26
  {
    var l := LowerChar(c);
    if 'a' <= l <= 'z' then l as int - 'a' as int else 26
  }

  /** The slots visited for a name: the trie key of a food. */
  function Path(name: string): (p: seq<nat>)
    ensures |p| == |name|
    ensures forall k :: 0 <= k < |p| ==> p[k] < AlphabetSize
  {
    seq(|name|, k requires 0 <= k < |name| => CharToIndex(name[k]))
  }

  /** Two characters land in the same slot when they are the same letter up to case,
      or when neither is a letter. */
  predicate SameSlot(x: char, y: char)
  {
    (IsLetter(x) && IsLetter(y) && LowerChar(x) == LowerChar(y)) || (!IsLetter(x) && !IsLetter(y))
  }

  lemma CharToIndexSame(x: char, y: char)
    ensures CharToIndex(x) == CharToIndex(y) <==> SameSlot(x, y)
  {
  }

  /** Two names have the same trie key exactly when they have the same length and agree,
      position by position, up to letter case and up to which non-letter is used. */
  lemma PathsAgree(a: string, b: string)
    ensures Path(a) == Path(b) <==> |a| == |b| && forall k :: 0 <= k < |a| ==> SameSlot(a[k], b[k])
  {
    if |a| == |b| && forall k :: 0 <= k < |a| ==> SameSlot(a[k], b[k]) {
      forall k | 0 <= k < |a| ensures Path(a)[k] == Path(b)[k] {
        CharToIndexSame(a[k], b[k]);
      }
    }
    if Path(a) == Path(b) {
      forall k | 0 <= k < |a| ensures SameSlot(a[k], b[k]) {
        assert Path(a)[k] == Path(b)[k];
        CharToIndexSame(a[k], b[k]);
      }
    }
  }

  /** Folding the case of a name does not move it in the trie. */
  lemma PathFoldsCase(name: string)
    ensures Path(ToLower(name)) == Path(name)
  {
    PathsAgree(ToLower(name), name);
  }

  /** Names that agree up to case share a key. */
  lemma PathOfFoldedEqual(a: string, b: string)
    requires ToLower(a) == ToLower(b)
    ensures Path(a) == Path(b)
  {
    PathFoldsCase(a);
    PathFoldsCase(b);
  }

  /** Non-letters collapse into one slot: "a-b" and "A b" share a key. */
  lemma NonLettersCollide()
    ensures Path("a-b") == Path("A b")
  {
    PathsAgree("a-b", "A b");
  }

  /** What `searchExact(n)` can return: an inserted food is filed under the key of `n`
      exactly when its name has the length of `n` and agrees with it slot by slot, so
      in particular every food whose name equals `n` up to case is found. */
  lemma ExactMatches(inserted: seq<Food>, n: string, f: Food)
    ensures f in WithKey(inserted, Path, Path(n)) <==>
              f in inserted && |f.name| == |n| && forall k :: 0 <= k < |n| ==> SameSlot(f.name[k], n[k])
    ensures f in inserted && ToLower(f.name) == ToLower(n) ==> f in WithKey(inserted, Path, Path(n))
  {
    WithKeyMembers(inserted, Path, Path(n), f);
    PathsAgree(f.name, n);
    if ToLower(f.name) == ToLower(n) {
      PathOfFoldedEqual(f.name, n);
    }
  }

  /** Sum of the lengths of the names in `s`. */
  function TotalLength(s: seq<Food>): nat
  {
    if s == [] then 0 else TotalLength(s[..|s| - 1]) + |s[|s| - 1].name|
  }

  // ---------------------------------------------------------------------------
  // Nodes and the arena invariant

  datatype TrieNode = TrieNode(children: seq<Option<nat>>, foods: seq<Food>, isEndOfWord: bool)

  /** A fresh node: no children, no foods, not the end of a word. */
  function NewNode(): (n: TrieNode)
    ensures |n.children| == AlphabetSize && n.foods == [] && !n.isEndOfWord
    ensures forall c :: 0 <= c < AlphabetSize ==> n.children[c] == None
  {
    TrieNode(seq(AlphabetSize, _ => None), [], false)
  }

  /** Every child index points forward into the arena; this is what makes walks terminate. */
  ghost predicate Forward(nodes: seq<TrieNode>)
  {
    (forall i {:trigger nodes[i]} :: 0 <= i < |nodes| ==> |nodes[i].children| == AlphabetSize)
    && (forall i, c {:trigger nodes[i].children[c]} ::
          0 <= i < |nodes| && 0 <= c < |nodes[i].children| && nodes[i].children[c].Some? ==>
          i < nodes[i].children[c].value < |nodes|)
  }

  /** Node 0 is the root with the empty path; following slot `c` from a node extends its path by `c`. */
  ghost predicate Shaped(nodes: seq<TrieNode>, paths: seq<seq<nat>>)
  {
    Forward(nodes) && |nodes| >= 1 && |paths| == |nodes| && paths[0] == []
    && (forall i, k {:trigger paths[i][k]} :: 0 <= i < |paths| && 0 <= k < |paths[i]| ==> paths[i][k] < AlphabetSize)
    && (forall i, c: nat {:trigger nodes[i].children[c]} ::
          0 <= i < |nodes| && 0 <= c < AlphabetSize && nodes[i].children[c].Some? ==>
          paths[nodes[i].children[c].value] == paths[i] + [c])
  }

  /** Every node but the root hangs from its parent by the last slot of its path,
      and no two nodes have the same path: the arena is a tree. */
  ghost predicate Linked(nodes: seq<TrieNode>, paths: seq<seq<nat>>, parent: seq<nat>)
    requires Shaped(nodes, paths)
  {
    |parent| == |nodes|
    && (forall j {:trigger parent[j]} :: 0 < j < |nodes| ==>
          parent[j] < j && paths[j] != [] && paths[j] == paths[parent[j]] + [paths[j][|paths[j]| - 1]]
          && nodes[parent[j]].children[paths[j][|paths[j]| - 1]] == Some(j))
    && (forall i, j {:trigger paths[i], paths[j]} :: 0 <= i < j < |nodes| ==> paths[i] != paths[j])
  }

  /** Each node holds exactly the inserted foods whose key is its path, in insertion order,
      is marked as the end of a word exactly when it holds some, and a missing child
      means no inserted food lies below it. */
  ghost predicate Filed(nodes: seq<TrieNode>, paths: seq<seq<nat>>, inserted: seq<Food>)
    requires Shaped(nodes, paths)
  {
    (forall i {:trigger nodes[i]} :: 0 <= i < |nodes| ==>
       nodes[i].foods == WithKey(inserted, Path, paths[i]) && nodes[i].isEndOfWord == (nodes[i].foods != []))
    && (forall i, c: nat {:trigger nodes[i].children[c]} ::
          0 <= i < |nodes| && 0 <= c < AlphabetSize && nodes[i].children[c].None? ==>
          NoneUnder(inserted, Path, paths[i] + [c]))
  }

  /** The arena after hanging a fresh node from slot `index` of node `cur`. */
  function AddChild(nodes: seq<TrieNode>, cur: nat, index: nat): (r: seq<TrieNode>)
    requires cur < |nodes| && index < |nodes[cur].children|
    ensures |r| == |nodes| + 1
  {
    nodes[cur := nodes[cur].(children := nodes[cur].children[index := Some(|nodes|)])] + [NewNode()]
  }

  /** In a tree, if a path below `i` continues with slot `c`, node `i` has a child in slot `c`. */
  lemma {:induction false} Reach(nodes: seq<TrieNode>, paths: seq<seq<nat>>, parent: seq<nat>, i: nat, c: nat, j: nat)
    requires Shaped(nodes, paths) && Linked(nodes, paths, parent)
    requires i < |nodes| && j < |nodes| && paths[i] + [c] <= paths[j]
    ensures c < AlphabetSize && nodes[i].children[c].Some?
    ensures paths[j] == paths[i] + [c] ==> nodes[i].children[c] == Some(j)
    decreases j
  {
    assert paths[j][|paths[i]|] == c;
    if j == 0 {
      assert false;
    }
    var p := parent[j];
    var last := paths[j][|paths[j]| - 1];
    assert paths[p] == paths[j][..|paths[j]| - 1];
    if paths[j] == paths[i] + [c] {
      assert paths[p] == paths[i];
      assert last == c;
    } else {
      assert paths[p] == paths[j][..|paths[j]| - 1];
      assert paths[i] + [c] <= paths[p];
      Reach(nodes, paths, parent, i, c, p);
    }
  }

  /** Hanging a fresh node below a missing child keeps the tree shaped, linked and filed. */
  lemma AddChildKeeps(nodes: seq<TrieNode>, paths: seq<seq<nat>>, parent: seq<nat>, inserted: seq<Food>, cur: nat, index: nat)
    requires Shaped(nodes, paths) && Linked(nodes, paths, parent) && Filed(nodes, paths, inserted)
    requires cur < |nodes| && index < AlphabetSize && nodes[cur].children[index].None?
    ensures Shaped(AddChild(nodes, cur, index), paths + [paths[cur] + [index]])
    ensures Linked(AddChild(nodes, cur, index), paths + [paths[cur] + [index]], parent + [cur])
    ensures Filed(AddChild(nodes, cur, index), paths + [paths[cur] + [index]], inserted)
  {
    AddChildShaped(nodes, paths, cur, index);
    AddChildLinked(nodes, paths, parent, cur, index);
    AddChildFiled(nodes, paths, inserted, cur, index);
  }

  lemma AddChildShaped(nodes: seq<TrieNode>, paths: seq<seq<nat>>, cur: nat, index: nat)
    requires Shaped(nodes, paths)
    requires cur < |nodes| && index < AlphabetSize && nodes[cur].children[index].None?
    ensures Shaped(AddChild(nodes, cur, index), paths + [paths[cur] + [index]])
  {
    var nodes' := AddChild(nodes, cur, index);
    var paths' := paths + [paths[cur] + [index]];
    var n := |nodes|;
    forall i, c: nat | 0 <= i < |nodes'| && 0 <= c < AlphabetSize && nodes'[i].children[c].Some?
      ensures i < nodes'[i].children[c].value < |nodes'|
      ensures paths'[nodes'[i].children[c].value] == paths'[i] + [c]
    {
      if !(i == cur && c == index) {
        assert nodes'[i].children[c] == nodes[i].children[c];
      }
    }
    forall i, k | 0 <= i < |paths'| && 0 <= k < |paths'[i]| ensures paths'[i][k] < AlphabetSize {
      if i == n && k == |paths[cur]| {
      } else if i == n {
        assert paths'[i][k] == paths[cur][k];
      } else {
        assert paths'[i] == paths[i];
      }
    }
  }

  lemma AddChildLinked(nodes: seq<TrieNode>, paths: seq<seq<nat>>, parent: seq<nat>, cur: nat, index: nat)
    requires Shaped(nodes, paths) && Linked(nodes, paths, parent)
    requires cur < |nodes| && index < AlphabetSize && nodes[cur].children[index].None?
    requires Shaped(AddChild(nodes, cur, index), paths + [paths[cur] + [index]])
    ensures Linked(AddChild(nodes, cur, index), paths + [paths[cur] + [index]], parent + [cur])
  {
    AddChildParents(nodes, paths, parent, cur, index);
    AddChildDistinct(nodes, paths, parent, cur, index);
  }

  /** The new node hangs from `cur`; every old node keeps its parent link. */
  lemma AddChildParents(nodes: seq<TrieNode>, paths: seq<seq<nat>>, parent: seq<nat>, cur: nat, index: nat)
    requires Shaped(nodes, paths) && Linked(nodes, paths, parent)
    requires cur < |nodes| && index < AlphabetSize && nodes[cur].children[index].None?
    ensures var nodes', paths', parent' := AddChild(nodes, cur, index), paths + [paths[cur] + [index]], parent + [cur];
      forall j {:trigger parent'[j]} :: 0 < j < |nodes'| ==>
        parent'[j] < j && paths'[j] != [] && paths'[j] == paths'[parent'[j]] + [paths'[j][|paths'[j]| - 1]]
        && nodes'[parent'[j]].children[paths'[j][|paths'[j]| - 1]] == Some(j)
  {
    var nodes' := AddChild(nodes, cur, index);
    var paths' := paths + [paths[cur] + [index]];
    var parent' := parent + [cur];
    var n := |nodes|;
    forall j | 0 < j < |nodes'|
      ensures parent'[j] < j && paths'[j] != []
      ensures paths'[j] == paths'[parent'[j]] + [paths'[j][|paths'[j]| - 1]]
      ensures nodes'[parent'[j]].children[paths'[j][|paths'[j]| - 1]] == Some(j)
    {
      if j < n {
        var p := parent[j];
        var last := paths[j][|paths[j]| - 1];
        if p == cur && last == index {
          assert false;
        }
      }
    }
  }

  /** The new node's path is not the path of any old node. */
  lemma AddChildDistinct(nodes: seq<TrieNode>, paths: seq<seq<nat>>, parent: seq<nat>, cur: nat, index: nat)
    requires Shaped(nodes, paths) && Linked(nodes, paths, parent)
    requires cur < |nodes| && index < AlphabetSize && nodes[cur].children[index].None?
    ensures var paths' := paths + [paths[cur] + [index]];
      forall i, j {:trigger paths'[i], paths'[j]} :: 0 <= i < j < |paths'| ==> paths'[i] != paths'[j]
  {
    var paths' := paths + [paths[cur] + [index]];
    var n := |nodes|;
    forall i, j | 0 <= i < j < |paths'| ensures paths'[i] != paths'[j] {
      if j == n && paths[i] == paths[cur] + [index] {
        Reach(nodes, paths, parent, cur, index, i);
        assert false;
      }
    }
  }

  lemma AddChildFiled(nodes: seq<TrieNode>, paths: seq<seq<nat>>, inserted: seq<Food>, cur: nat, index: nat)
    requires Shaped(nodes, paths) && Filed(nodes, paths, inserted)
    requires cur < |nodes| && index < AlphabetSize && nodes[cur].children[index].None?
    requires Shaped(AddChild(nodes, cur, index), paths + [paths[cur] + [index]])
    ensures Filed(AddChild(nodes, cur, index), paths + [paths[cur] + [index]], inserted)
  {
    var nodes' := AddChild(nodes, cur, index);
    var paths' := paths + [paths[cur] + [index]];
    var n := |nodes|;
    forall i, c: nat | 0 <= i < |nodes'| && 0 <= c < AlphabetSize && nodes'[i].children[c].None?
      ensures NoneUnder(inserted, Path, paths'[i] + [c])
    {
      if i == n {
        NoneUnderDeeper(inserted, Path, paths[cur] + [index], paths'[i] + [c]);
      } else {
        assert nodes'[i].children[c] == nodes[i].children[c];
      }
    }
    forall i | 0 <= i < |nodes'|
      ensures nodes'[i].foods == WithKey(inserted, Path, paths'[i])
      ensures nodes'[i].isEndOfWord == (nodes'[i].foods != [])
    {
      if i == n {
        NoneUnderDeeper(inserted, Path, paths[cur] + [index], paths'[i]);
      }
    }
  }

  /** The arena after recording `food` at node `cur`. */
  function FileAt(nodes: seq<TrieNode>, cur: nat, food: Food): (r: seq<TrieNode>)
    requires cur < |nodes|
    ensures |r| == |nodes|
  {
    nodes[cur := nodes[cur].(isEndOfWord := true, foods := nodes[cur].foods + [food])]
  }

  /** Recording one more food at the node whose path is its key keeps the tree shaped,
      linked and filed. */
  lemma FileFood(nodes: seq<TrieNode>, paths: seq<seq<nat>>, parent: seq<nat>, inserted: seq<Food>, cur: nat, food: Food)
    requires Shaped(nodes, paths) && Linked(nodes, paths, parent) && Filed(nodes, paths, inserted)
    requires cur < |nodes| && paths[cur] == Path(food.name)
    ensures Shaped(FileAt(nodes, cur, food), paths) && Linked(FileAt(nodes, cur, food), paths, parent)
    ensures Filed(FileAt(nodes, cur, food), paths, inserted + [food])
  {
    var nodes' := FileAt(nodes, cur, food);
    assert forall i :: 0 <= i < |nodes| ==> nodes'[i].children == nodes[i].children;
    FileFoodFiled(nodes, paths, parent, inserted, cur, food);
  }

  lemma FileFoodFiled(nodes: seq<TrieNode>, paths: seq<seq<nat>>, parent: seq<nat>, inserted: seq<Food>, cur: nat, food: Food)
    requires Shaped(nodes, paths) && Linked(nodes, paths, parent) && Filed(nodes, paths, inserted)
    requires cur < |nodes| && paths[cur] == Path(food.name)
    requires Shaped(FileAt(nodes, cur, food), paths)
    ensures Filed(FileAt(nodes, cur, food), paths, inserted + [food])
  {
    FileFoodFoods(nodes, paths, parent, inserted, cur, food);
    FileFoodGaps(nodes, paths, parent, inserted, cur, food);
  }

  /** After recording `food` at `cur`, every node still holds exactly the foods keyed by
      its path. */
  lemma FileFoodFoods(nodes: seq<TrieNode>, paths: seq<seq<nat>>, parent: seq<nat>, inserted: seq<Food>, cur: nat, food: Food)
    requires Shaped(nodes, paths) && Linked(nodes, paths, parent) && Filed(nodes, paths, inserted)
    requires cur < |nodes| && paths[cur] == Path(food.name)
    ensures forall i {:trigger FileAt(nodes, cur, food)[i]} :: 0 <= i < |nodes| ==>
      FileAt(nodes, cur, food)[i].foods == WithKey(inserted + [food], Path, paths[i])
      && FileAt(nodes, cur, food)[i].isEndOfWord == (FileAt(nodes, cur, food)[i].foods != [])
  {
    var nodes' := FileAt(nodes, cur, food);
    var inserted' := inserted + [food];
    assert inserted'[..|inserted'| - 1] == inserted;
    forall i | 0 <= i < |nodes'|
      ensures nodes'[i].foods == WithKey(inserted', Path, paths[i])
      ensures nodes'[i].isEndOfWord == (nodes'[i].foods != [])
    {
      if i != cur {
        if i < cur {
          assert paths[i] != paths[cur];
        } else {
          assert paths[cur] != paths[i];
        }
      }
    }
  }

  /** After recording `food` at `cur`, every empty slot still has nothing below it. */
  lemma FileFoodGaps(nodes: seq<TrieNode>, paths: seq<seq<nat>>, parent: seq<nat>, inserted: seq<Food>, cur: nat, food: Food)
    requires Shaped(nodes, paths) && Linked(nodes, paths, parent) && Filed(nodes, paths, inserted)
    requires cur < |nodes| && paths[cur] == Path(food.name)
    ensures forall i, c: nat {:trigger FileAt(nodes, cur, food)[i].children[c]} ::
      0 <= i < |nodes| && 0 <= c < AlphabetSize && FileAt(nodes, cur, food)[i].children[c].None? ==>
      NoneUnder(inserted + [food], Path, paths[i] + [c])
  {
    var nodes' := FileAt(nodes, cur, food);
    forall i, c: nat | 0 <= i < |nodes'| && 0 <= c < AlphabetSize && nodes'[i].children[c].None?
      ensures NoneUnder(inserted + [food], Path, paths[i] + [c])
    {
      assert nodes'[i].children[c] == nodes[i].children[c];
      NoneUnderAppend(inserted, food, Path, paths[i] + [c]);
      if paths[i] + [c] <= Path(food.name) {
        Reach(nodes, paths, parent, i, c, cur);
      }
    }
  }

  /** When the walk towards `key` finds slot `c` of node `cur` empty, nothing inserted
      has a key starting with `key`. */
  lemma Missing(nodes: seq<TrieNode>, paths: seq<seq<nat>>, inserted: seq<Food>, cur: nat, c: nat, key: seq<nat>)
    requires Shaped(nodes, paths) && Filed(nodes, paths, inserted)
    requires cur < |nodes| && c < AlphabetSize && nodes[cur].children[c].None?
    requires paths[cur] + [c] <= key
    ensures NoneUnder(inserted, Path, key) && WithKey(inserted, Path, key) == [] && Under(inserted, Path, key) == []
  {
    NoneUnderDeeper(inserted, Path, paths[cur] + [c], key);
  }

  // ---------------------------------------------------------------------------
  // The foods below a node, in the order collectAllFoods visits them

  /** The foods of the subtree at `i`: the node's own foods, then its children's subtrees
      in slot order 0..26 (pre-order). */
  ghost function Subtree(nodes: seq<TrieNode>, i: nat): seq<Food>
    requires Forward(nodes) && i < |nodes|
    decreases |nodes| - i, AlphabetSize + 1
  {
    nodes[i].foods + ChildFoods(nodes, i, AlphabetSize)
  }

  /** The subtrees of the children of `i` in slots `0..c-1`, in slot order. */
  ghost function ChildFoods(nodes: seq<TrieNode>, i: nat, c: nat): seq<Food>
    requires Forward(nodes) && i < |nodes| && c <= AlphabetSize
    decreases |nodes| - i, c
  {
    if c == 0 then []
    else
      ChildFoods(nodes, i, c - 1)
      + match nodes[i].children[c - 1]
        case None => []
        case Some(j) => Subtree(nodes, j)
  }

  /** The slots `0..c-1`. */
  ghost function Slots(c: nat): (r: set<nat>)
    ensures forall x: nat :: x in r <==> x < c
    ensures |r| == c
  {
    if c == 0 then {} else Slots(c - 1) + {c - 1}
  }

  /** The subtree at a node holds exactly the inserted foods whose key starts with the
      node's path (as a multiset: the tree visits them in its own order). */
  lemma {:induction false} SubtreeHolds(nodes: seq<TrieNode>, paths: seq<seq<nat>>, inserted: seq<Food>, i: nat)
    requires Shaped(nodes, paths) && Filed(nodes, paths, inserted) && i < |nodes|
    ensures multiset(Subtree(nodes, i)) == multiset(Under(inserted, Path, paths[i]))
    decreases |nodes| - i, AlphabetSize + 1
  {
    ChildFoodsHold(nodes, paths, inserted, i, AlphabetSize);
    UnderSplit(inserted, Path, paths[i], Slots(AlphabetSize));
  }

  lemma {:induction false} ChildFoodsHold(nodes: seq<TrieNode>, paths: seq<seq<nat>>, inserted: seq<Food>, i: nat, c: nat)
    requires Shaped(nodes, paths) && Filed(nodes, paths, inserted) && i < |nodes| && c <= AlphabetSize
    ensures multiset(ChildFoods(nodes, i, c)) == multiset(Below(inserted, Path, paths[i], Slots(c)))
    decreases |nodes| - i, c
  {
    if c == 0 {
      BelowNone(inserted, Path, paths[i]);
    } else {
      var x: nat := c - 1;
      ChildFoodsHold(nodes, paths, inserted, i, x);
      assert Slots(c) == Slots(x) + {x};
      BelowAdd(inserted, Path, paths[i], Slots(x), x);
      var here := match nodes[i].children[x] case None => [] case Some(j) => Subtree(nodes, j);
      assert ChildFoods(nodes, i, c) == ChildFoods(nodes, i, x) + here;
      assert multiset(here) == multiset(Under(inserted, Path, paths[i] + [x])) by {
        match nodes[i].children[x]
        case None =>
          NoneUnderDeeper(inserted, Path, paths[i] + [x], paths[i] + [x]);
        case Some(j) =>
          SubtreeHolds(nodes, paths, inserted, j);
      }
    }
  }

  /** Every food in a subtree has a key starting with the node's path. */
  lemma {:induction false} SubtreeKeys(nodes: seq<TrieNode>, paths: seq<seq<nat>>, inserted: seq<Food>, i: nat)
    requires Shaped(nodes, paths) && Filed(nodes, paths, inserted) && i < |nodes|
    ensures forall f :: f in Subtree(nodes, i) ==> f in inserted && paths[i] <= Path(f.name)
  {
    SubtreeHolds(nodes, paths, inserted, i);
    forall f | f in Subtree(nodes, i) ensures f in inserted && paths[i] <= Path(f.name) {
      assert f in multiset(Under(inserted, Path, paths[i]));
      UnderMembers(inserted, paths[i], f);
    }
  }

  lemma {:induction false} UnderMembers(s: seq<Food>, p: seq<nat>, f: Food)
    requires f in Under(s, Path, p)
    ensures f in s && p <= Path(f.name)
  {
    if s != [] {
      if f in Under(s[..|s| - 1], Path, p) {
        UnderMembers(s[..|s| - 1], p, f);
      }
    }
  }

  // ---------------------------------------------------------------------------
  // Slot order

  /** Lexicographic order on slot paths, a path before its extensions. */
  predicate LexLe(x: seq<nat>, y: seq<nat>)
    decreases |x|
  {
    x == [] || (y != [] && (x[0] < y[0] || (x[0] == y[0] && LexLe(x[1..], y[1..]))))
  }

  lemma {:induction false} LexPrefix(x: seq<nat>, y: seq<nat>)
    requires x <= y
    ensures LexLe(x, y)
    decreases |x|
  {
    if x != [] {
      LexPrefix(x[1..], y[1..]);
    }
  }

  lemma {:induction false} LexBranch(p: seq<nat>, x: seq<nat>, y: seq<nat>)
    requires p < x && p < y && x[|p|] < y[|p|]
    ensures LexLe(x, y)
    decreases |p|
  {
    if p != [] {
      LexBranch(p[1..], x[1..], y[1..]);
    }
  }

  /** Foods listed in slot order of their keys. */
  ghost predicate InSlotOrder(s: seq<Food>)
  {
    forall a, b :: 0 <= a < b < |s| ==> LexLe(Path(s[a].name), Path(s[b].name))
  }

  /** The subtree at a node lists its foods in slot order. */
  lemma {:induction false} SubtreeOrdered(nodes: seq<TrieNode>, paths: seq<seq<nat>>, inserted: seq<Food>, i: nat)
    requires Shaped(nodes, paths) && Filed(nodes, paths, inserted) && i < |nodes|
    ensures InSlotOrder(Subtree(nodes, i))
    decreases |nodes| - i, AlphabetSize + 1
  {
    var own := nodes[i].foods;
    var rest := ChildFoods(nodes, i, AlphabetSize);
    ChildFoodsOrdered(nodes, paths, inserted, i, AlphabetSize);
    forall f | f in own ensures Path(f.name) == paths[i] {
      WithKeyMembers(inserted, Path, paths[i], f);
    }
    var s := own + rest;
    forall a, b | 0 <= a < b < |s| ensures LexLe(Path(s[a].name), Path(s[b].name)) {
      if b < |own| {
        assert s[a] in own && s[b] in own;
        assert Path(s[a].name) == Path(s[b].name);
        LexPrefix(Path(s[a].name), Path(s[b].name));
      } else if a < |own| {
        assert s[a] in own && s[b] == rest[b - |own|];
        LexPrefix(Path(s[a].name), Path(s[b].name));
      } else {
        assert s[a] == rest[a - |own|] && s[b] == rest[b - |own|];
      }
    }
  }

  lemma {:induction false} ChildFoodsOrdered(nodes: seq<TrieNode>, paths: seq<seq<nat>>, inserted: seq<Food>, i: nat, c: nat)
    requires Shaped(nodes, paths) && Filed(nodes, paths, inserted) && i < |nodes| && c <= AlphabetSize
    ensures InSlotOrder(ChildFoods(nodes, i, c))
    ensures forall f :: f in ChildFoods(nodes, i, c) ==>
              paths[i] < Path(f.name) && Path(f.name)[|paths[i]|] < c
    decreases |nodes| - i, c
  {
    if c > 0 {
      ChildFoodsOrdered(nodes, paths, inserted, i, c - 1);
      var front := ChildFoods(nodes, i, c - 1);
      match nodes[i].children[c - 1]
      case None =>
        assert ChildFoods(nodes, i, c) == front;
      case Some(j) =>
        var back := Subtree(nodes, j);
        SubtreeOrdered(nodes, paths, inserted, j);
        SubtreeKeys(nodes, paths, inserted, j);
        assert paths[j] == paths[i] + [c - 1];
        forall f | f in back ensures paths[i] < Path(f.name) && Path(f.name)[|paths[i]|] == c - 1 {
          assert paths[j] <= Path(f.name);
        }
        var s := front + back;
        assert ChildFoods(nodes, i, c) == s;
        forall a, b | 0 <= a < b < |s| ensures LexLe(Path(s[a].name), Path(s[b].name)) {
          if b < |front| {
            assert s[a] == front[a] && s[b] == front[b];
          } else if a < |front| {
            assert s[a] in front && s[b] in back;
            LexBranch(paths[i], Path(s[a].name), Path(s[b].name));
          } else {
            assert s[a] == back[a - |front|] && s[b] == back[b - |front|];
          }
        }
    }
  }

  /** Selecting from a list in slot order leaves it in slot order. */
  lemma {:induction false} SelectOrdered(s: seq<Food>, keep: Food -> bool)
    requires InSlotOrder(s)
    ensures InSlotOrder(Select(s, keep))
  {
    if s != [] {
      var init := s[..|s| - 1];
      assert InSlotOrder(init) by {
        forall a, b | 0 <= a < b < |init| ensures LexLe(Path(init[a].name), Path(init[b].name)) {
          assert init[a] == s[a] && init[b] == s[b];
        }
      }
      SelectOrdered(init, keep);
      var r := Select(init, keep);
      if keep(s[|s| - 1]) {
        var r' := r + [s[|s| - 1]];
        forall a, b | 0 <= a < b < |r'| ensures LexLe(Path(r'[a].name), Path(r'[b].name)) {
          if b < |r| {
            assert r'[a] == r[a] && r'[b] == r[b];
          } else {
            assert r'[a] in init by { SelectMembers(init, keep); }
            var a' :| 0 <= a' < |init| && init[a'] == r'[a];
            assert s[a'] == r'[a] && s[|s| - 1] == r'[b];
          }
        }
      }
    }
  }

  /** The path of the root is a prefix of every key, so the whole tree holds every inserted food. */
  lemma {:induction false} UnderEverything(s: seq<Food>)
    ensures Under(s, Path, []) == s
  {
    if s != [] {
      UnderEverything(s[..|s| - 1]);
      assert s == s[..|s| - 1] + [s[|s| - 1]];
    }
  }

  /** Filtering the whole tree keeps, in slot order, exactly the inserted foods that pass. */
  lemma SelectFromTree(nodes: seq<TrieNode>, paths: seq<seq<nat>>, inserted: seq<Food>, keep: Food -> bool)
    requires Shaped(nodes, paths) && Filed(nodes, paths, inserted)
    ensures multiset(Select(Subtree(nodes, 0), keep)) == multiset(Select(inserted, keep))
    ensures InSlotOrder(Select(Subtree(nodes, 0), keep))
  {
    SubtreeHolds(nodes, paths, inserted, 0);
    UnderEverything(inserted);
    SelectPermutation(Subtree(nodes, 0), inserted, keep);
    SubtreeOrdered(nodes, paths, inserted, 0);
    SelectOrdered(Subtree(nodes, 0), keep);
  }

  // ---------------------------------------------------------------------------
  // Node counting

  /** The nodes whose path starts with the path of node `i`: the nodes of its subtree. */
  ghost function Descendants(paths: seq<seq<nat>>, i: nat): set<nat>
    requires i < |paths|
  {
    set j: nat | j < |paths| && paths[i] <= paths[j]
  }

  /** The nodes below the children of `i` in slots `0..c-1`. */
  ghost function DescendantsBelow(paths: seq<seq<nat>>, i: nat, c: nat): set<nat>
    requires i < |paths|
  {
    set j: nat | j < |paths| && paths[i] < paths[j] && paths[j][|paths[i]|] < c
  }

  lemma {:induction false} CountBelow(nodes: seq<TrieNode>, paths: seq<seq<nat>>, parent: seq<nat>, i: nat, c: nat)
    requires Shaped(nodes, paths) && Linked(nodes, paths, parent) && i < |nodes| && c < AlphabetSize
    ensures nodes[i].children[c].None? ==> DescendantsBelow(paths, i, c + 1) == DescendantsBelow(paths, i, c)
    ensures nodes[i].children[c].Some? ==>
              var k := nodes[i].children[c].value;
              DescendantsBelow(paths, i, c + 1) == DescendantsBelow(paths, i, c) + Descendants(paths, k)
              && DescendantsBelow(paths, i, c) !! Descendants(paths, k)
  {
    var p := paths[i];
    forall j | j in DescendantsBelow(paths, i, c + 1) && paths[j][|p|] == c
      ensures nodes[i].children[c].Some? && j in Descendants(paths, nodes[i].children[c].value)
    {
      assert p + [c] == paths[j][..|p| + 1];
      Reach(nodes, paths, parent, i, c, j);
    }
    if nodes[i].children[c].Some? {
      var k := nodes[i].children[c].value;
      forall j | j in Descendants(paths, k) ensures j in DescendantsBelow(paths, i, c + 1) && paths[j][|p|] == c {
        assert paths[k] == p + [c];
      }
    }
  }

  /** The count of `CountBelow`: slot `c` adds the size of its child's subtree, if any. */
  lemma SizeBelow(nodes: seq<TrieNode>, paths: seq<seq<nat>>, parent: seq<nat>, i: nat, c: nat)
    requires Shaped(nodes, paths) && Linked(nodes, paths, parent) && i < |nodes| && c < AlphabetSize
    ensures nodes[i].children[c].None? ==> |DescendantsBelow(paths, i, c + 1)| == |DescendantsBelow(paths, i, c)|
    ensures nodes[i].children[c].Some? ==>
              nodes[i].children[c].value < |nodes|
              && |DescendantsBelow(paths, i, c + 1)|
                 == |DescendantsBelow(paths, i, c)| + |Descendants(paths, nodes[i].children[c].value)|
  {
    CountBelow(nodes, paths, parent, i, c);
  }

  /** A subtree's nodes are its root plus the nodes below its children; the root's
      subtree is the whole arena. */
  lemma CountSelf(nodes: seq<TrieNode>, paths: seq<seq<nat>>, parent: seq<nat>, i: nat)
    requires Shaped(nodes, paths) && Linked(nodes, paths, parent) && i < |nodes|
    ensures Descendants(paths, i) == DescendantsBelow(paths, i, AlphabetSize) + {i}
    ensures i !in DescendantsBelow(paths, i, AlphabetSize)
    ensures |Descendants(paths, i)| == |DescendantsBelow(paths, i, AlphabetSize)| + 1
    ensures |Descendants(paths, 0)| == |nodes|
  {
    var p := paths[i];
    forall j | j in Descendants(paths, i) && j != i ensures j in DescendantsBelow(paths, i, AlphabetSize) {
      assert paths[j] != p;
    }
    assert Descendants(paths, 0) == Slots(|nodes|);
  }

  /** `collectAllFoods`: append the subtree of node `i` to `results`, in pre-order. */
  method CollectAllFoods(nodes: seq<TrieNode>, i: nat, results: seq<Food>) returns (out: seq<Food>)
    requires Forward(nodes) && i < |nodes|
    ensures out == results + Subtree(nodes, i)
    decreases |nodes| - i
  {
    out := results;
    var foods := nodes[i].foods;
    var k := 0;
    while k < |foods|
      invariant 0 <= k <= |foods|
      invariant out == results + foods[..k]
    {
      out := out + [foods[k]];
      assert foods[..k + 1] == foods[..k] + [foods[k]];
      k := k + 1;
    }
    assert foods[..k] == foods;
    var c := 0;
    while c < AlphabetSize
      invariant 0 <= c <= AlphabetSize
      invariant out == results + foods + ChildFoods(nodes, i, c)
    {
      if nodes[i].children[c].Some? {
        var j := nodes[i].children[c].value;
        assert ChildFoods(nodes, i, c + 1) == ChildFoods(nodes, i, c) + Subtree(nodes, j);
        out := CollectAllFoods(nodes, j, out);
      } else {
        assert ChildFoods(nodes, i, c + 1) == ChildFoods(nodes, i, c);
      }
      c := c + 1;
    }
    assert Subtree(nodes, i) == foods + ChildFoods(nodes, i, AlphabetSize);
  }

  /** `countNodes`: the number of nodes in the subtree at `i`; from the root, every node
      of the arena. */
  method CountNodes(nodes: seq<TrieNode>, ghost paths: seq<seq<nat>>, ghost parent: seq<nat>, i: nat) returns (count: nat)
    requires Shaped(nodes, paths) && Linked(nodes, paths, parent) && i < |nodes|
    ensures count == |Descendants(paths, i)| && count >= 1
    ensures i == 0 ==> count == |nodes|
    decreases |nodes| - i
  {
    count := 1;
    var c := 0;
    assert DescendantsBelow(paths, i, 0) == {};
    while c < AlphabetSize
      invariant 0 <= c <= AlphabetSize
      invariant count == 1 + |DescendantsBelow(paths, i, c)|
    {
      SizeBelow(nodes, paths, parent, i, c);
      if nodes[i].children[c].Some? {
        var n := CountNodes(nodes, paths, parent, nodes[i].children[c].value);
        count := count + n;
      }
      c := c + 1;
    }
    CountSelf(nodes, paths, parent, i);
  }

  // ---------------------------------------------------------------------------
  // The trie

  class Trie {
    var nodes: seq<TrieNode>
    ghost var paths: seq<seq<nat>>
    ghost var parent: seq<nat>
    /** The foods inserted so far, in order. */
    ghost var Inserted: seq<Food>

    ghost predicate Valid()
      reads this
    {
      Shaped(nodes, paths) && Linked(nodes, paths, parent) && Filed(nodes, paths, Inserted)
      && |nodes| <= 1 + TotalLength(Inserted)
    }

    /** `Trie()`: a lone root. */
    constructor()
      ensures Valid() && Inserted == [] && |nodes| == 1
    {
      nodes := [NewNode()];
      paths := [[]];
      parent := [0];
      Inserted := [];
    }

    /** `insert`: walk the slots of the lower-cased name, creating missing children,
        then file the food at the node reached. */
    method Insert(food: Food)
      requires Valid()
      modifies this
      ensures Valid()
      ensures Inserted == old(Inserted) + [food]
      ensures old(|nodes|) <= |nodes| <= old(|nodes|) + |food.name|
    {
      var key := ToLower(food.name);
      ghost var target := Path(food.name);
      PathFoldsCase(food.name);
      var cur: nat := 0;
      var k := 0;
      while k < |key|
        invariant 0 <= k <= |key| && cur < |nodes|
        invariant Shaped(nodes, paths) && Linked(nodes, paths, parent) && Filed(nodes, paths, Inserted)
        invariant Inserted == old(Inserted)
        invariant paths[cur] == target[..k]
        invariant old(|nodes|) <= |nodes| <= old(|nodes|) + k
      {
        var index := CharToIndex(key[k]);
        assert index == target[k];
        cur := ChildOrNew(cur, index);
        assert target[..k + 1] == target[..k] + [index];
        k := k + 1;
      }
      FileFood(nodes, paths, parent, Inserted, cur, food);
      nodes := FileAt(nodes, cur, food);
      Inserted := Inserted + [food];
      assert Inserted[..|Inserted| - 1] == old(Inserted);
    }

    /** One step of `insert`'s walk: the child in slot `index` of node `cur`, created
        first if missing. */
    method ChildOrNew(cur: nat, index: nat) returns (next: nat)
      requires Shaped(nodes, paths) && Linked(nodes, paths, parent) && Filed(nodes, paths, Inserted)
      requires cur < |nodes| && index < AlphabetSize
      modifies this
      ensures Shaped(nodes, paths) && Linked(nodes, paths, parent) && Filed(nodes, paths, Inserted)
      ensures Inserted == old(Inserted)
      ensures next < |nodes| && paths[next] == old(paths[cur]) + [index]
      ensures old(|nodes|) <= |nodes| <= old(|nodes|) + 1
    {
      if nodes[cur].children[index].None? {
        AddChildKeeps(nodes, paths, parent, Inserted, cur, index);
        nodes := AddChild(nodes, cur, index);
        paths := paths + [paths[cur] + [index]];
        parent := parent + [cur];
      }
      next := nodes[cur].children[index].value;
    }

    /** `searchExact`: the foods filed under exactly the key of `name`; empty when the walk
        falls off the tree or ends at a node that is not the end of a word. */
    method SearchExact(name: string) returns (r: seq<Food>)
      requires Valid()
      ensures r == WithKey(Inserted, Path, Path(name))
    {
      var key := ToLower(name);
      ghost var target := Path(name);
      PathFoldsCase(name);
      var cur: nat := 0;
      var k := 0;
      while k < |key|
        invariant 0 <= k <= |key| && cur < |nodes|
        invariant paths[cur] == target[..k]
      {
        var index := CharToIndex(key[k]);
        assert index == target[k];
        if nodes[cur].children[index].None? {
          assert target[..k + 1] == target[..k] + [index];
          Missing(nodes, paths, Inserted, cur, index, target);
          return [];
        }
        cur := nodes[cur].children[index].value;
        assert target[..k + 1] == target[..k] + [index];
        k := k + 1;
      }
      assert target[..k] == target;
      if nodes[cur].isEndOfWord {
        r := nodes[cur].foods;
      } else {
        r := [];
      }
    }

    /** `searchPrefix`: every inserted food whose key starts with the key of `prefix`;
        the foods filed exactly at the prefix node come first, in insertion order, and
        the whole list is in slot order. */
    method SearchPrefix(prefix: string) returns (r: seq<Food>)
      requires Valid()
      ensures multiset(r) == multiset(Under(Inserted, Path, Path(prefix)))
      ensures WithKey(Inserted, Path, Path(prefix)) <= r
      ensures InSlotOrder(r)
    {
      var key := ToLower(prefix);
      ghost var target := Path(prefix);
      PathFoldsCase(prefix);
      var cur: nat := 0;
      var k := 0;
      while k < |key|
        invariant 0 <= k <= |key| && cur < |nodes|
        invariant paths[cur] == target[..k]
      {
        var index := CharToIndex(key[k]);
        assert index == target[k];
        if nodes[cur].children[index].None? {
          assert target[..k + 1] == target[..k] + [index];
          Missing(nodes, paths, Inserted, cur, index, target);
          return [];
        }
        cur := nodes[cur].children[index].value;
        assert target[..k + 1] == target[..k] + [index];
        k := k + 1;
      }
      assert target[..k] == target;
      r := CollectAllFoods(nodes, cur, []);
      SubtreeHolds(nodes, paths, Inserted, cur);
      SubtreeOrdered(nodes, paths, Inserted, cur);
    }

    /** `searchContains`: collect the whole tree, keep the foods whose lower-cased name
        contains the lower-cased term.  The result is in slot order, and holds exactly the
        inserted foods that match, as often as they were inserted. */
    method SearchContains(term: string) returns (r: seq<Food>)
      requires Valid()
      ensures r == Select(Subtree(nodes, 0), NameContains(term))
      ensures multiset(r) == multiset(Select(Inserted, NameContains(term)))
      ensures InSlotOrder(r)
    {
      var all := CollectAllFoods(nodes, 0, []);
      assert all == Subtree(nodes, 0);
      r := KeepContaining(all, term);
      SelectFromTree(nodes, paths, Inserted, NameContains(term));
    }

    /** The node count `printStats` reports: every node of the arena, at least the root
        and at most one more per character inserted. */
    method TotalNodes() returns (n: nat)
      requires Valid()
      ensures n == |nodes| && 1 <= n <= 1 + TotalLength(Inserted)
    {
      n := CountNodes(nodes, paths, parent, 0);
    }
  }
}
