/** The prefix cache: matching, inserting, locking and evicting on the compressed trie. */
module RadixCache {
  import opened Options
  import opened RadixTree
  import opened Totals
  import opened Sequences

  ghost function LocksOf(nodes: set<TreeNode>): (l: map<TreeNode, int>)
    reads nodes`lockRef
    ensures l.Keys == nodes
  {
    map n | n in nodes :: n.lockRef
  }

  ghost function StampsOf(nodes: set<TreeNode>): (r: map<TreeNode, int>)
    reads nodes`lastAccess
    ensures r.Keys == nodes
  {
    map n | n in nodes :: n.lastAccess
  }

  ghost function SizesUpTo(order: seq<TreeNode>, i: nat): map<TreeNode, nat>
    requires i <= |order|
    reads order
  {
    map n | n in order[..i] :: |n.value|
  }

  lemma NoSizes(order: seq<TreeNode>)
    ensures Totals.Total(SizesUpTo(order, 0)) == 0
  {
    assert SizesUpTo(order, 0) == map[];
  }

  lemma SizesNext(order: seq<TreeNode>, i: nat)
    requires NoRepeats(order) && i < |order|
    ensures order[i] !in SizesUpTo(order, i)
    ensures SizesUpTo(order, i + 1) == SizesUpTo(order, i)[order[i] := |order[i].value|]
  {
    assert order[..i + 1] == order[..i] + [order[i]];
  }

  lemma AllSizes(order: seq<TreeNode>, nodes: set<TreeNode>)
    requires forall n :: n in order <==> n in nodes
    ensures SizesUpTo(order, |order|) == map n | n in nodes :: |n.value|
  {
    assert order[..|order|] == order;
  }

  /** Trie, non-negative lock counts, and the two counters as token totals. */
  ghost predicate Accounted(s: Shape, locks: map<TreeNode, int>, info: Info, root: TreeNode, evictable: int, protectedSize: int) {
    && Tree(s, info, root)
    && locks.Keys == s.Keys
    && (forall n :: n in locks ==> locks[n] >= 0)
    && evictable == Total(Weights(s, locks, root, false))
    && protectedSize == Total(Weights(s, locks, root, true))
  }

  /** `s'` is `s` with the value of `child` cut to make room for `above`. */
  ghost predicate CutValue(s: Shape, s': Shape, child: TreeNode, len: nat, above: TreeNode) {
    && child in s && above !in s
    && 0 < len < |s[child].value| && s'.Keys == s.Keys + {above}
    && |s'[above].value| == len && |s'[child].value| == |s[child].value| - len
    && forall n :: n in s && n != child ==> s'[n].value == s[n].value
  }

  ghost function PutTwo(w: map<TreeNode, nat>, k: TreeNode, v: nat, l: TreeNode, u: nat): (r: map<TreeNode, nat>)
    ensures r.Keys == w.Keys + {k, l}
    ensures forall n :: n in r ==> r[n] == if n == l then u else if n == k then v else w[n]
  {
    w[k := v][l := u]
  }

  lemma CutWeights(s: Shape, s': Shape, locks: map<TreeNode, int>, root: TreeNode, child: TreeNode, len: nat, above: TreeNode, locked: bool)
    requires s.Keys == locks.Keys && child != root && root in s && CutValue(s, s', child, len, above)
    ensures Weights(s', locks[above := locks[child]], root, locked)
            == PutTwo(Weights(s, locks, root, locked), child, if (locks[child] > 0) == locked then |s[child].value| - len else 0,
                      above, if (locks[child] > 0) == locked then len else 0)
  {
    hide Weights, Weight, PutTwo;
    var w := Weights(s', locks[above := locks[child]], root, locked);
    var cut := PutTwo(Weights(s, locks, root, locked), child, if (locks[child] > 0) == locked then |s[child].value| - len else 0,
                      above, if (locks[child] > 0) == locked then len else 0);
    assert w.Keys == cut.Keys;
    forall n | n in w
      ensures w[n] == cut[n]
    {
      CutWeight(s, s', locks, root, child, len, above, locked, n);
    }
  }

  lemma CutWeight(s: Shape, s': Shape, locks: map<TreeNode, int>, root: TreeNode, child: TreeNode, len: nat, above: TreeNode, locked: bool, n: TreeNode)
    requires s.Keys == locks.Keys && child != root && root in s && CutValue(s, s', child, len, above) && n in s'
    ensures var f := (locks[child] > 0) == locked;
            Weight(s', locks[above := locks[child]], root, locked, n)
            == if n == above then (if f then len else 0)
               else if n == child then (if f then |s[child].value| - len else 0)
               else Weight(s, locks, root, locked, n)
  {
  }

  lemma SplitWeights(s: Shape, locks: map<TreeNode, int>, info: Info, root: TreeNode, child: TreeNode, len: nat, above: TreeNode, locked: bool)
    requires Splittable(s, info, root, child, len, above) && root in s && locks.Keys == s.Keys
    ensures above !in locks && child in locks
    ensures SplitShape(s, child, len, above).Keys == s.Keys + {above}
    ensures Total(Weights(SplitShape(s, child, len, above), locks[above := locks[child]], root, locked)) == Total(Weights(s, locks, root, locked))
  {
    hide SplitShape, SplitInfo, Total, Take, Drop, Spelled.Extend;
    CarvedShape(s, info, root, child, len, above);
    var s' := SplitShape(s, child, len, above);
    CutWeights(s, s', locks, root, child, len, above, locked);
    var w: map<TreeNode, nat> := Weights(s, locks, root, locked);
    var f := (locks[child] > 0) == locked;
    var rest := if f then |s[child].value| - len else 0;
    TotalUpdate(w, child, rest);
    TotalInsert(w[child := rest], above, if f then len else 0);
  }

  /** Splitting copies the lock count and keeps both totals. */
  lemma SplitAccounted(s: Shape, locks: map<TreeNode, int>, info: Info, root: TreeNode, evictable: int, protectedSize: int,
                       child: TreeNode, len: nat, above: TreeNode)
    requires Accounted(s, locks, info, root, evictable, protectedSize) && Splittable(s, info, root, child, len, above)
    ensures child in locks
    ensures Accounted(SplitShape(s, child, len, above), locks[above := locks[child]], SplitInfo(s, info, child, len, above), root, evictable, protectedSize)
  {
    hide Tree, SplitShape, SplitInfo, Weights;
    TreeKeys(s, info, root);
    SplitTree(s, info, root, child, len, above);
    SplitWeights(s, locks, info, root, child, len, above, true);
    SplitWeights(s, locks, info, root, child, len, above, false);
  }

  lemma TreeKeys(s: Shape, info: Info, root: TreeNode)
    requires Tree(s, info, root)
    ensures s.Keys == info.Keys && root in s && info[root] == Spelled([], [], [])
  {
  }

  lemma {:induction false} LeafWeights(s: Shape, locks: map<TreeNode, int>, root: TreeNode, leaf: TreeNode, s': Shape, value: seq<Position>, locked: bool)
    requires s.Keys == locks.Keys && leaf !in s && root in s
    requires s'.Keys == s.Keys + {leaf} && s'[leaf].value == value
    requires forall n :: n in s ==> s'[n].value == s[n].value
    ensures Weights(s', locks[leaf := 0], root, locked) == Weights(s, locks, root, locked)[leaf := if locked then 0 else |value|]
  {
  }

  lemma {:induction false} LeafTotals(s: Shape, locks: map<TreeNode, int>, root: TreeNode, p: TreeNode, leaf: TreeNode, s': Shape, value: seq<Position>)
    requires s.Keys == locks.Keys && p in s && leaf !in s && root in s
    requires s'.Keys == s.Keys + {leaf} && s'[leaf].value == value
    requires forall n :: n in s ==> s'[n].value == s[n].value
    ensures Total(Weights(s', locks[leaf := 0], root, true)) == Total(Weights(s, locks, root, true))
    ensures Total(Weights(s', locks[leaf := 0], root, false)) == Total(Weights(s, locks, root, false)) + |value|
  {
    hide Total;
    LeafWeights(s, locks, root, leaf, s', value, true);
    LeafWeights(s, locks, root, leaf, s', value, false);
    TotalInsert(Weights(s, locks, root, false), leaf, |value|);
    TotalInsert(Weights(s, locks, root, true), leaf, 0);
  }

  lemma {:induction false} LeafAccounted(s: Shape, locks: map<TreeNode, int>, info: Info, root: TreeNode, evictable: int, protectedSize: int,
                      p: TreeNode, leaf: TreeNode, key: seq<Token>, value: seq<Position>, kv: seq<KV>)
    requires Accounted(s, locks, info, root, evictable, protectedSize)
    requires p in s && leaf !in s && key != [] && |value| == |key| && key[0] !in s[p].children
    ensures Accounted(LeafShape(s, p, leaf, key, value, kv), locks[leaf := 0], info[leaf := info[p].Extend(key, value, kv)],
                      root, evictable + |value|, protectedSize)
  {
    hide Tree, LeafShape, Spelled.Extend, Total, Weights, Linked, ChildLinked;
    TreeKeys(s, info, root);
    LeafTree(s, info, root, p, leaf, key, value, kv);
    LeafFields(s, p, leaf, key, value, kv);
    LeafTotals(s, locks, root, p, leaf, LeafShape(s, p, leaf, key, value, kv), value);
  }

  /** Length of the common prefix. */
  method KeyMatch(a: seq<Token>, b: seq<Token>) returns (i: nat)
    ensures i <= |a| && i <= |b| && a[..i] == b[..i]
    ensures i < |a| && i < |b| ==> a[i] != b[i]
  {
    i := 0;
    while i < |a| && i < |b| && a[i] == b[i]
      invariant i <= |a| && i <= |b| && a[..i] == b[..i]
    {
      i := i + 1;
    }
  }

  class Cache {
    var root: TreeNode
    var evictable: int
    var protectedSize: int
    ghost var info: Info

    ghost predicate Valid()
      reads this, info.Keys
    {
      Accounted(ShapeOf(info.Keys), LocksOf(info.Keys), info, root, evictable, protectedSize)
    }

    constructor (now: int)
      ensures Valid() && fresh(info.Keys)
      ensures info == map[root := Spelled([], [], [])]
    {
      var r := new TreeNode(null, [], [], [], 1, now);
      root, evictable, protectedSize := r, 0, 0;
      info := map[r := Spelled([], [], [])];
      new;
      assert Weights(ShapeOf(info.Keys), LocksOf(info.Keys), root, false) == map[r := 0];
      assert Weights(ShapeOf(info.Keys), LocksOf(info.Keys), root, true) == map[r := 0];
      TotalRemove(map[r := 0], r);
      assert map[r := 0] - {r} == map[];
    }

    /** Splits `child` so that its first `len` tokens sit in a new node above it. */
    method SplitNode(child: TreeNode, len: nat, now: int) returns (above: TreeNode)
      requires Valid() && child in info && child != root && 0 < len < |child.key|
      requires Linked(ShapeOf(info.Keys), info, child) && child.parent != child
      modifies this`info, child`parent, child`key, child`value, child`kv, child.parent`children
      ensures Valid() && fresh(above) && above.lastAccess == now
      ensures old(child.parent) != null
      ensures info == SplitInfo(old(ShapeOf(info.Keys)), old(info), child, len, above)
      ensures ShapeOf(info.Keys) == SplitShape(old(ShapeOf(info.Keys)), child, len, above)
      ensures LocksOf(info.Keys) == old(LocksOf(info.Keys))[above := child.lockRef]
    {
      hide Accounted, Spelled.Extend, Take, Drop, Linked, Tree, SplitShape, SplitInfo, FieldsOf;
      ghost var s, locks := ShapeOf(info.Keys), LocksOf(info.Keys);
      AccountedKeys(s, locks, info, root, evictable, protectedSize);
      assert s[child] == FieldsOf(child);
      FieldsMeaning(child);
      SplittableNow(s, info, root, child, len);
      assert s[child.parent] == FieldsOf(child.parent);
      FieldsMeaning(child.parent);
      above := Carve(child, len, now);
      SplitAccounted(s, locks, info, root, evictable, protectedSize, child, len, above);
      SplitKeys(s, info, root, child, len, above);
      CarvedShape(s, info, root, child, len, above);
      info := SplitInfo(s, info, child, len, above);
      forall n | n in info.Keys
        ensures FieldsOf(n) == SplitShape(s, child, len, above)[n]
      {
        if n in s && n != child && n != s[child].parent {
          assert FieldsOf(n) == old(FieldsOf(n)) == s[n];
        }
      }
      assert ShapeOf(info.Keys) == SplitShape(s, child, len, above);
      assert LocksOf(info.Keys) == locks[above := locks[child]];
    }
  
    method SetStamp(n: TreeNode, now: int)
      requires Valid() && n in info
      modifies n`lastAccess
      ensures Valid() && ShapeOf(info.Keys) == old(ShapeOf(info.Keys)) && LocksOf(info.Keys) == old(LocksOf(info.Keys))
      ensures StampsOf(info.Keys) == old(StampsOf(info.Keys))[n := now]
    {
      hide Accounted;
      n.lastAccess := now;
    }

    /** Steps to the child for the next token and measures how much of its key matches. */
    method NextChild(node: TreeNode, rest: seq<Token>, now: int) returns (child: TreeNode, len: nat)
      requires Valid() && node in info && rest != [] && rest[0] in node.children
      modifies info.Keys`lastAccess
      ensures Valid() && ShapeOf(info.Keys) == old(ShapeOf(info.Keys)) && LocksOf(info.Keys) == old(LocksOf(info.Keys))
      ensures child in info && child != root && child != node && child.parent == node
      ensures Linked(ShapeOf(info.Keys), info, child)
      ensures 0 < len <= |child.key| && len <= |rest| && child.key[..len] == rest[..len]
      ensures len < |child.key| && len < |rest| ==> child.key[len] != rest[len]
      ensures info[child] == info[node].Extend(child.key, child.value, child.kv)
      ensures info[child].value == info[node].value + child.value
      ensures len == |child.key| ==> info[child].path + rest[len..] == info[node].path + rest
      ensures len == |child.key| ==> info[child].path == info[node].path + child.key[..len]
      ensures child == node.children[rest[0]] && StampsOf(info.Keys) == old(StampsOf(info.Keys))[child := now]
    {
      hide Valid, Accounted, Tree, StampsOf, LocksOf;
      ValidTree();
      ChildOf(ShapeOf(info.Keys), info, root, node, rest[0]);
      child := node.children[rest[0]];
      SetStamp(child, now);
      len := KeyMatch(child.key, rest);
      assert len > 0;
      Descend(info[node], child.key, child.value, child.kv, rest, len);
      assert child.key[..|child.key|] == child.key;
    }

    /** Splits `child` of `node` where its key stops matching `rest`. */
    method SplitFor(node: TreeNode, child: TreeNode, rest: seq<Token>, len: nat, now: int) returns (above: TreeNode)
      requires Valid() && node in info && child in info && child != root && child != node && child.parent == node
      requires Linked(ShapeOf(info.Keys), info, child)
      requires 0 < len < |child.key| && len <= |rest| && child.key[..len] == rest[..len]
      requires len < |rest| ==> child.key[len] != rest[len]
      modifies this`info, child`parent, child`key, child`value, child`kv, node`children
      ensures Valid() && fresh(above) && above.lastAccess == now && above in info && info.Keys == old(info.Keys) + {above}
      ensures SameContents(old(info), info) && SameLocks(old(LocksOf(info.Keys)), LocksOf(info.Keys))
      ensures info[above].path + rest[len..] == old(info)[node].path + rest
      ensures info[above].path == old(info)[node].path + old(child.key)[..len]
      ensures info[above].value == old(info)[node].value + above.value
      ensures len < |rest| ==> rest[len] !in above.children
    {
      hide Accounted, Tree, Take, Drop;
      ghost var s := ShapeOf(info.Keys);
      above := SplitNode(child, len, now);
      SplittableNow(s, old(info), root, child, len);
      SplitContents(s, old(info), root, child, len, above);
      CarvedShape(s, old(info), root, child, len, above);
      SplitKeys(s, old(info), root, child, len, above);
      Descend(old(info)[node], s[child].key, s[child].value[..len], Take(s[child].kv, len), rest, len);
      assert FieldsOf(above) == ShapeOf(info.Keys)[above];
    }

    /** The access times once a walk got as far as `reached`: the nodes it entered have the new one, the others keep theirs. */
    ghost function Walked(reached: seq<Token>, now: int): map<TreeNode, int>
      reads this, info.Keys
    {
      Restamped(StampsOf(info.Keys), Entries(ShapeOf(info.Keys), info), reached, now)
    }

    /** A walk begins at the root. */
    method EnterRoot(now: int)
      requires Valid()
      modifies root`lastAccess
      ensures Valid() && ShapeOf(info.Keys) == old(ShapeOf(info.Keys)) && LocksOf(info.Keys) == old(LocksOf(info.Keys))
      ensures root in info && StampsOf(info.Keys) == old(Walked(info[root].path, now))
    {
      hide Valid, Accounted, Tree, Restamped, Entries, StampsOf, LocksOf;
      ValidTree();
      RestampRoot(ShapeOf(info.Keys), info, root, StampsOf(info.Keys), now);
      SetStamp(root, now);
    }

    /** Entering one more child changes the access time of that child. */
    lemma WalkOn(node: TreeNode, t: Token, stamps: map<TreeNode, int>, now: int)
      requires Valid() && node in info && t in node.children && stamps.Keys == info.Keys
      ensures var c, entries, at := node.children[t], Entries(ShapeOf(info.Keys), info), info[node].path;
              forall len: nat :: 0 < len <= |c.key| ==>
                Restamped(stamps, entries, at + c.key[..len], now) == Restamped(stamps, entries, at, now)[c := now]
    {
      hide Accounted, Tree, Restamped, Entries;
      ValidTree();
      ghost var s := ShapeOf(info.Keys);
      ChildOf(s, info, root, node, t);
      ghost var c := node.children[t];
      forall len: nat | 0 < len <= |c.key|
        ensures Restamped(stamps, Entries(s, info), info[node].path + c.key[..len], now) == Restamped(stamps, Entries(s, info), info[node].path, now)[c := now]
      {
        RestampNext(s, info, root, node, t, len, stamps, now);
      }
    }

    ghost predicate NewStamped(before: Info, now: int)
      reads this, info.Keys
    {
      forall n :: n in info && n !in before ==> n.lastAccess == now
    }

    /** Finds the longest stored prefix of `key`; may split the node it ends in. */
    method MatchPrefix(key: seq<Token>, now: int) returns (value: seq<Position>, node: TreeNode)
      requires Valid()
      modifies this`info, info.Keys
      ensures Valid() && fresh(info.Keys - old(info.Keys))
      ensures node in info && LongestStored(old(info), key, info[node].path)
      ensures value == info[node].value
      ensures SameContents(old(info), info) && SameLocks(old(LocksOf(info.Keys)), LocksOf(info.Keys))
      ensures var reached := info[node].path;
              && StampsOf(old(info.Keys)) == (if key == [] then old(StampsOf(info.Keys)) else old(Walked(reached, now)))
              && NewStamped(old(info), now)
    {
      hide Valid, Accounted, Spelled.Extend, Take, Drop, Tree, SplitShape, SplitInfo, FieldsOf, LongestStored, Stored, Linked, Restamped, Entries, StampsOf, LocksOf, ShapeOf, SameContents, SameLocks;
      value, node := [], root;
      var rest := key;
      ValidTree();
      SameRefl(info, LocksOf(info.Keys));
      if key == [] {
        MatchEnds(info, key, node, rest);
        return;
      }
      ghost var s, stamps, reached := ShapeOf(info.Keys), StampsOf(info.Keys), info[root].path;
      EnterRoot(now);
      while rest != [] && rest[0] in node.children
        invariant Valid() && info == old(info)
        invariant ShapeOf(info.Keys) == s && LocksOf(info.Keys) == old(LocksOf(info.Keys))
        invariant node in info && info[node].path + rest == key
        invariant value == info[node].value
        invariant reached == info[node].path && StampsOf(info.Keys) == Restamped(stamps, Entries(s, info), reached, now)
        decreases |rest|
      {
        WalkOn(node, rest[0], stamps, now);
        var child, len := NextChild(node, rest, now);
        reached := reached + child.key[..len];
        if len >= |child.key| {
          value := value + child.value;
          node := child;
          rest := rest[len..];
        } else {
          node := SplitFor(node, child, rest, len, now);
          value := value + node.value;
          rest := rest[len..];
          break;
        }
      }
      MatchEnds(old(info), key, node, rest);
    }

    /** Hangs a new unlocked leaf under `node`. */
    method AddLeaf(node: TreeNode, key: seq<Token>, value: seq<Position>, kv: seq<KV>, now: int) returns (leaf: TreeNode)
      requires Valid() && node in info && key != [] && |value| == |key| && key[0] !in node.children
      modifies this`info, this`evictable, node`children
      ensures Valid() && fresh(leaf) && leaf.lastAccess == now
      ensures info == old(info)[leaf := old(info)[node].Extend(key, value, kv)]
      ensures info[leaf].path == old(info)[node].path + key
      ensures leaf.parent == node && leaf.lockRef == 0
      ensures SameLocks(old(LocksOf(info.Keys)), LocksOf(info.Keys))
      ensures evictable == old(evictable) + |key|
    {
      hide Valid, Accounted, Spelled.Extend, LeafShape, FieldsOf, LocksOf, SameLocks;
      ghost var s, locks, entry := ShapeOf(info.Keys), LocksOf(info.Keys), info[node].Extend(key, value, kv);
      Books();
      FieldsInShape(node);
      FieldsMeaning(node);
      leaf := Hang(node, key, value, kv, now);
      assert LocksOf(info.Keys) == locks;
      HangReady(s, locks, node, leaf, key, value, kv);
      LocksMore(info.Keys, leaf);
      SameLocksMore(locks, leaf);
      forall n | n in info.Keys + {leaf}
        ensures FieldsOf(n) == LeafShape(s, node, leaf, key, value, kv)[n]
      {
        if n in s && n != node {
          assert FieldsOf(n) == old(FieldsOf(n)) == s[n];
        }
      }
      assert ShapeOf(info.Keys + {leaf}) == LeafShape(s, node, leaf, key, value, kv);
      Adopt(leaf, |value|, entry, ShapeOf(info.Keys + {leaf}), locks[leaf := 0]);
    }

    /** Counts the tokens of a new leaf. */
    method Adopt(leaf: TreeNode, tokens: nat, ghost entry: Spelled, ghost s: Shape, ghost locks: map<TreeNode, int>)
      requires ShapeOf(info.Keys + {leaf}) == s && LocksOf(info.Keys + {leaf}) == locks
      requires Accounted(s, locks, info[leaf := entry], root, evictable + tokens, protectedSize)
      modifies this`info, this`evictable
      ensures Valid() && info == old(info)[leaf := entry] && evictable == old(evictable) + tokens
      ensures LocksOf(info.Keys) == locks
    {
      hide Accounted, ShapeOf, LocksOf;
      evictable := evictable + tokens;
      assert info[leaf := entry].Keys == info.Keys + {leaf};
      info := info[leaf := entry];
    }

    lemma Books()
      requires Valid()
      ensures Accounted(ShapeOf(info.Keys), LocksOf(info.Keys), info, root, evictable, protectedSize)
    {
    }

    /** What hanging a leaf needs to know. */
    lemma HangReady(s: Shape, locks: map<TreeNode, int>, node: TreeNode, leaf: TreeNode, key: seq<Token>, value: seq<Position>, kv: seq<KV>)
      requires Accounted(s, locks, info, root, evictable, protectedSize)
      requires node in s && leaf !in info && key != [] && |value| == |key| && key[0] !in s[node].children
      ensures info[node].Extend(key, value, kv).path == info[node].path + key
      ensures Accounted(LeafShape(s, node, leaf, key, value, kv), locks[leaf := 0], info[leaf := info[node].Extend(key, value, kv)],
                        root, evictable + |value|, protectedSize)
      ensures var s' := LeafShape(s, node, leaf, key, value, kv);
              && s'.Keys == s.Keys + {leaf}
              && s'[leaf] == Fields(map[], node, key, value, kv)
              && s'[node] == s[node].(children := s[node].children[key[0] := leaf])
              && forall n :: n in s && n != node ==> s'[n] == s[n]
    {
      hide Accounted, LeafShape, Tree, Spelled.Extend;
      AccountedKeys(s, locks, info, root, evictable, protectedSize);
      ExtendPath(info[node], key, value, kv);
      LeafAccounted(s, locks, info, root, evictable, protectedSize, node, leaf, key, value, kv);
      LeafFields(s, node, leaf, key, value, kv);
    }

    /** One step of an insertion: into the next child, splitting it where its key stops matching. */
    method Step(node: TreeNode, rest: seq<Token>, now: int) returns (next: TreeNode, len: nat)
      requires Valid() && node in info && rest != [] && rest[0] in node.children
      modifies this`info, info.Keys
      ensures Valid() && fresh(info.Keys - old(info.Keys))
      ensures next in info && 0 < len <= |rest|
      ensures info[next].path + rest[len..] == old(info)[node].path + rest
      ensures SameContents(old(info), info) && SameLocks(old(LocksOf(info.Keys)), LocksOf(info.Keys))
      ensures var child := old(node.children)[rest[0]];
              && len <= |old(child.key)| && info[next].path == old(info)[node].path + old(child.key)[..len]
              && StampsOf(old(info.Keys)) == old(StampsOf(info.Keys))[child := now] && NewStamped(old(info), now)
      ensures (info == old(info) && ShapeOf(info.Keys) == old(ShapeOf(info.Keys))) || (len < |rest| ==> rest[len] !in next.children)
    {
      hide Valid, Accounted, Spelled.Extend, Tree, SameContents, SameLocks, LocksOf, FieldsOf, ShapeOf, StampsOf;
      SameRefl(info, LocksOf(info.Keys));
      next, len := NextChild(node, rest, now);
      if len < |next.key| {
        next := SplitFor(node, next, rest, len, now);
      }
    }

    /** Walks down as far as `key` is stored, splitting the node it ends in. */
    method Walk(key: seq<Token>, now: int) returns (matched: nat, node: TreeNode)
      requires Valid()
      modifies this`info, info.Keys
      ensures Valid() && fresh(info.Keys - old(info.Keys))
      ensures matched <= |key| && node in info && info[node].path == key[..matched]
      ensures LongestStored(old(info), key, key[..matched])
      ensures matched < |key| ==> key[matched] !in node.children
      ensures SameContents(old(info), info) && SameLocks(old(LocksOf(info.Keys)), LocksOf(info.Keys))
      ensures StampsOf(old(info.Keys)) == old(Walked(key[..matched], now)) && NewStamped(old(info), now)
    {
      hide Valid, Accounted, Spelled.Extend, Tree, LongestStored, SameContents, SameLocks, LocksOf, ShapeOf, StampsOf, Restamped, Entries;
      ValidTree();
      node, matched := root, 0;
      SameRefl(info, LocksOf(info.Keys));
      ghost var s, stamps := ShapeOf(info.Keys), StampsOf(info.Keys);
      EnterRoot(now);
      while matched < |key| && key[matched] in node.children
        invariant Valid() && fresh(info.Keys - old(info.Keys))
        invariant SameContents(old(info), info) && SameLocks(old(LocksOf(info.Keys)), LocksOf(info.Keys))
        invariant matched <= |key| && node in info && info[node].path + key[matched..] == key
        invariant StampsOf(old(info.Keys)) == Restamped(stamps, Entries(s, old(info)), info[node].path, now) && NewStamped(old(info), now)
        invariant (info == old(info) && ShapeOf(info.Keys) == s) || (matched < |key| ==> key[matched] !in node.children)
        decreases |key| - matched
      {
        ghost var info1, locks1 := info, LocksOf(info.Keys);
        WalkOn(node, key[matched], stamps, now);
        var len;
        node, len := Step(node, key[matched..], now);
        SameTrans(old(info), info1, info, old(LocksOf(info.Keys)), locks1, LocksOf(info.Keys));
        assert key[matched..][len..] == key[matched + len..];
        matched := matched + len;
      }
      PathOfWalk(info[node].path, key, matched);
      MatchEnds(old(info), key, node, key[matched..]);
    }

    /**
     * Stores `key`: afterwards exactly its prefixes are stored in addition, and a node spells it.
     * For the empty key there is nothing to store, and no node is returned.
     */
    method Insert(key: seq<Token>, given: Option<seq<Position>>, kv: seq<KV>, now: int) returns (matched: nat, node: TreeNode?)
      requires Valid() && (given.Some? ==> |given.value| == |key|)
      modifies this`info, this`evictable, info.Keys
      ensures Valid() && fresh(info.Keys - old(info.Keys))
      ensures matched <= |key| && LongestStored(old(info), key, key[..matched])
      ensures if key == [] then node == null else node != null && node in info && info[node].path == key
      ensures Grows(old(info), info, key) && SameLocks(old(LocksOf(info.Keys)), LocksOf(info.Keys))
      ensures evictable + protectedSize == old(evictable + protectedSize) + |key| - matched
      ensures StampsOf(old(info.Keys)) == old(Walked(key[..matched], now)) && NewStamped(old(info), now)
      ensures matched < |key| ==>
                && node !in old(info) && node.lockRef == 0 && node.parent != null && node.parent in info
                && info[node.parent].path == key[..matched]
                && info[node].value == info[node.parent].value + (if given.None? then key else given.value)[matched..]
                && info[node].kv == info[node.parent].kv + if matched <= |kv| then kv[matched..] else []
      ensures Whole(old(info)) && |kv| == |key| ==> Whole(info)
    {
      hide Valid, Accounted, Spelled.Extend, Drop, Whole, Tree, LongestStored, SameContents, SameLocks, LocksOf, Grows, ShapeOf, StampsOf, Walked;
      var at;
      matched, at := Walk(key, now);
      assert key[..matched] + key[matched..] == key;
      ghost var info1, locks1 := info, LocksOf(info.Keys);
      WholeKept(old(info), info);
      if matched < |key| {
        LeafHolds(info, at, key, GivenOr(given, key), kv, matched);
        at := AddLeaf(at, key[matched..], GivenOr(given, key)[matched..], Drop(kv, matched), now);
        if Whole(info1) && |kv| == |key| {
          WholeMore(info1, at, info[at]);
        }
        LocksTrans(old(LocksOf(info.Keys)), locks1, LocksOf(info.Keys));
      }
      StoredGrows(old(info), info1, info, key, at);
      node := if key == [] then null else at;
    }

    /** The cached keys and values from the root down to `node`. */
    method FetchKvCache(node: TreeNode) returns (kv: seq<KV>)
      requires Valid() && node in info && node != root
      ensures kv == info[node].kv
    {
      hide Valid;
      RootOnly(node);
      Upward(node);
      kv := node.kv;
      var n := node.parent;
      while n != root
        invariant n in info && info[node].kv == info[n].kv + kv
        decreases |info[n].path|
      {
        Upward(n);
        kv := n.kv + kv;
        n := n.parent;
      }
    }

    /** Of two nodes on one way, the upper one fetches exactly the first tokens' share of what the lower one fetches. */
    lemma PrefixHeld(m: TreeNode, n: TreeNode)
      requires Valid() && Whole(info) && m in info && n in info && info[m].path <= info[n].path
      ensures var len := |info[m].path|;
              && len <= |info[n].kv| == |info[n].value| == |info[n].path|
              && info[m].kv == info[n].kv[..len] && info[m].value == info[n].value[..len]
    {
      hide Valid;
      ValidTree();
      HoldsPrefix(ShapeOf(info.Keys), info, root, m, n);
      HoldsPrefix(ShapeOf(info.Keys), info, root, n, n);
    }

    /** The link from a node to its parent. */
    lemma Upward(n: TreeNode)
      requires Valid() && n in info && n != root
      ensures n.parent != null && n.parent in info && n.parent != n && |n.key| == |n.value| > 0
      ensures |info[n.parent].path| < |info[n].path| && info[n.parent].path <= info[n].path
      ensures info[n] == info[n.parent].Extend(n.key, n.value, n.kv)
    {
      ValidTree();
      assert ShapeOf(info.Keys)[n] == FieldsOf(n);
      NotOwnParent(ShapeOf(info.Keys), info, root, n);
    }

    /** A node on the way to `cur` is `cur` itself or on the way to its parent. */
    lemma OnTheWayUp(m: TreeNode, cur: TreeNode)
      requires Valid() && m in info && cur in info && cur != root && info[m].path <= info[cur].path
      ensures cur.parent != null && cur.parent in info
      ensures m == cur || info[m].path <= info[cur.parent].path
    {
      Upward(cur);
      ValidTree();
      assert ShapeOf(info.Keys)[cur] == FieldsOf(cur);
      OnTheWay(ShapeOf(info.Keys), info, root, m, cur);
    }

    /** One node's lock count changes, and its tokens move between the counters when needed. */
    method SetLock(n: TreeNode, lock: int)
      requires Valid() && n in info && n != root && lock >= 0
      modifies this`evictable, this`protectedSize, n`lockRef
      ensures Valid() && n.lockRef == lock
      ensures evictable - old(evictable) == (if old(n.lockRef) == 0 && lock > 0 then -|n.value| else if old(n.lockRef) > 0 && lock == 0 then |n.value| else 0)
      ensures evictable + protectedSize == old(evictable + protectedSize)
    {
      hide Accounted, ShapeOf, FieldsOf, Weights, Tree;
      ghost var s, locks := ShapeOf(info.Keys), LocksOf(info.Keys);
      AccountedKeys(s, locks, info, root, evictable, protectedSize);
      FieldsInShape(n);
      LockAccounted(s, locks, info, root, evictable, protectedSize, n, lock);
      ghost var moved := if locks[n] == 0 && lock > 0 then |s[n].value| else if locks[n] > 0 && lock == 0 then -|s[n].value| else 0;
      if n.lockRef == 0 && lock > 0 {
        evictable := evictable - |n.value|;
        protectedSize := protectedSize + |n.value|;
      } else if n.lockRef > 0 && lock == 0 {
        evictable := evictable + |n.value|;
        protectedSize := protectedSize - |n.value|;
      }
      n.lockRef := lock;
      assert ShapeOf(info.Keys) == s;
      assert LocksOf(info.Keys) == locks[n := lock];
      assert evictable == old(evictable) - moved && protectedSize == old(protectedSize) + moved;
    }

    lemma FieldsInShape(n: TreeNode)
      requires n in info
      ensures ShapeOf(info.Keys)[n] == FieldsOf(n) == Fields(n.children, n.parent, n.key, n.value, n.kv)
      ensures LocksOf(info.Keys)[n] == n.lockRef
    {
    }

    lemma LockNatural(n: TreeNode)
      requires Valid() && n in info
      ensures n.lockRef >= 0
    {
      assert LocksOf(info.Keys)[n] >= 0;
    }

    /** The nodes on the way to `node` strictly below `n`. */
    ghost function Passed(node: TreeNode, n: TreeNode): set<TreeNode>
      requires node in info && n in info
      reads this`info
    {
      set m | m in info && info[m].path <= info[node].path && |info[m].path| > |info[n].path|
    }

    /** Going one node up adds exactly that node to those passed. */
    lemma OneUp(node: TreeNode, n: TreeNode)
      requires Valid() && node in info && n in info && n != root && info[n].path <= info[node].path
      ensures n.parent != null && n.parent in info
      ensures Passed(node, n.parent) == Passed(node, n) + {n} && n !in Passed(node, n)
    {
      hide Valid;
      Upward(n);
      forall m | m in info && info[m].path <= info[node].path
        ensures |info[m].path| > |info[n.parent].path| <==> m == n || |info[m].path| > |info[n].path|
      {
        if |info[m].path| <= |info[n].path| {
          OnTheWayUp(m, n);
        }
      }
    }

    /** All nodes on the way to `node` other than the root. */
    lemma PassedAll(node: TreeNode)
      requires Valid() && node in info
      ensures Passed(node, node) == {}
      ensures forall m :: m in info ==> (m in Passed(node, root) <==> m != root && info[m].path <= info[node].path)
    {
      hide Valid;
      RootOnly(node);
    }

    /** Locks every node from `node` up to the root. */
    method IncreaseLockRef(node: TreeNode) returns (delta: int)
      requires Valid() && node in info
      modifies this`evictable, this`protectedSize, info.Keys`lockRef
      ensures Valid() && delta == evictable - old(evictable)
      ensures evictable + protectedSize == old(evictable + protectedSize)
      ensures forall n :: n in info ==> n.lockRef == old(n.lockRef) + (if n != root && info[n].path <= info[node].path then 1 else 0)
    {
      hide Valid, Passed;
      delta := 0;
      PassedAll(node);
      var n := node;
      while n != root
        invariant Valid() && n in info && info[n].path <= info[node].path
        invariant delta == evictable - old(evictable)
        invariant evictable + protectedSize == old(evictable + protectedSize)
        invariant forall m :: m in info ==> m.lockRef == old(m.lockRef) + (if m in Passed(node, n) then 1 else 0)
        decreases |info[n].path|
      {
        Upward(n);
        LockNatural(n);
        OneUp(node, n);
        if n.lockRef == 0 {
          delta := delta - |n.value|;
        }
        SetLock(n, n.lockRef + 1);
        n := n.parent;
      }
      PassedAll(node);
    }

    /** Unlocks every node from `node` up to the root; a count never goes below zero. */
    method DecreaseLockRef(node: TreeNode) returns (delta: int)
      requires Valid() && node in info
      modifies this`evictable, this`protectedSize, info.Keys`lockRef
      ensures Valid() && delta == evictable - old(evictable)
      ensures evictable + protectedSize == old(evictable + protectedSize)
      ensures forall n :: n in info ==>
                            n.lockRef == (if n != root && info[n].path <= info[node].path && old(n.lockRef) > 0 then old(n.lockRef) - 1 else old(n.lockRef))
    {
      hide Valid, Passed;
      delta := 0;
      PassedAll(node);
      var n := node;
      while n != root
        invariant Valid() && n in info && info[n].path <= info[node].path
        invariant delta == evictable - old(evictable)
        invariant evictable + protectedSize == old(evictable + protectedSize)
        invariant forall m :: m in info ==>
                                m.lockRef == (if m in Passed(node, n) && old(m.lockRef) > 0 then old(m.lockRef) - 1 else old(m.lockRef))
        decreases |info[n].path|
      {
        Upward(n);
        LockNatural(n);
        OneUp(node, n);
        if n.lockRef == 1 {
          delta := delta + |n.value|;
        }
        if n.lockRef > 0 {
          SetLock(n, n.lockRef - 1);
        }
        n := n.parent;
      }
      PassedAll(node);
    }

    lemma RootOnly(node: TreeNode)
      requires Valid() && node in info
      ensures info[root] == Spelled([], [], [])
      ensures forall m :: m in info && m != root ==> |info[m].path| > 0
    {
      ValidTree();
      forall m | m in info && m != root
        ensures |info[m].path| > 0
      {
        Upward(m);
      }
    }

    /** Parent and child links agree. */
    lemma ChildLinks(n: TreeNode)
      requires Valid() && n in info
      ensures forall t :: t in n.children ==>
                            var c := n.children[t]; c in info && c != root && c.parent == n && c.key != [] && c.key[0] == t
      ensures forall c :: c in info && c != root && c.parent == n ==> c.key != [] && c.key[0] in n.children && n.children[c.key[0]] == c
    {
      var s := ShapeOf(info.Keys);
      ValidTree();
      assert s[n] == FieldsOf(n);
      forall t | t in n.children
        ensures var c := n.children[t]; c in info && c != root && c.parent == n && c.key != [] && c.key[0] == t
      {
        ChildOf(s, info, root, n, t);
        assert s[n.children[t]] == FieldsOf(n.children[t]);
      }
      forall c | c in info && c != root && c.parent == n
        ensures c.key != [] && c.key[0] in n.children && n.children[c.key[0]] == c
      {
        assert Linked(s, info, c) && s[c] == FieldsOf(c);
      }
    }

    /** The children of a node, in any order. */
    method ChildList(n: TreeNode) returns (kids: seq<TreeNode>)
      requires Valid() && n in info
      ensures NoRepeats(kids)
      ensures forall c :: c in kids <==> c in info && c != root && c.parent == n
      ensures n.children == map[] <==> kids == []
    {
      hide Valid;
      ChildLinks(n);
      kids := [];
      var keys := n.children.Keys;
      while keys != {}
        invariant keys <= n.children.Keys
        invariant NoRepeats(kids)
        invariant forall c :: c in kids <==> c in info && c != root && c.parent == n && c.key[0] !in keys
        decreases keys
      {
        ghost var any := Totals.Element(keys);
        var t :| t in keys;
        keys := keys - {t};
        kids := kids + [n.children[t]];
      }
      if n.children != map[] {
        ghost var t := Totals.Element(n.children.Keys);
        assert n.children[t] in kids;
      }
      if kids != [] {
        assert kids[0] in kids;
      }
    }

    /** Visits every node once, with an explicit stack. */
    method Traverse() returns (order: seq<TreeNode>)
      requires Valid()
      ensures NoRepeats(order)
      ensures forall n :: n in order <==> n in info
    {
      hide Valid, Tree, Sweep, ShapeOf;
      ghost var s := ShapeOf(info.Keys);
      ValidTree();
      order := [];
      var stack := [root];
      ghost var done: set<TreeNode> := {};
      SweepStart(s, info, root);
      while stack != []
        invariant Sweep(s, root, done, stack)
        invariant NoRepeats(order) && forall n :: n in order <==> n in done
        decreases s.Keys - done
      {
        var n := stack[|stack| - 1];
        ghost var before := stack;
        assert n in stack;
        SweepFacts(s, root, done, stack);
        stack := stack[..|stack| - 1];
        var kids := ChildList(n);
        order := order + [n];
        ghost var pending := stack + [n];
        assert pending == before;
        KidsInShape(n, kids);
        SweepStep(s, root, done, pending, kids);
        done := done + {n};
        stack := stack + kids;
      }
      SweepDone(s, info, root, done);
    }

    lemma KidsInShape(n: TreeNode, kids: seq<TreeNode>)
      requires Valid() && n in info
      requires forall c :: c in kids <==> c in info && c != root && c.parent == n
      ensures var s := ShapeOf(info.Keys);
              && (forall c :: c in kids <==> c in s && c != root && s[c].parent == n)
              && (s[n].parent != n || n == root)
    {
      hide Valid;
      var s := ShapeOf(info.Keys);
      forall c | c in info
        ensures s[c].parent == c.parent
      {
        assert s[c] == FieldsOf(c);
      }
      if n != root {
        Upward(n);
      }
    }

    /** All childless nodes, the root included when it is one. */
    method CollectLeaves() returns (leaves: set<TreeNode>)
      requires Valid()
      ensures forall n :: n in leaves <==> n in info && n.children == map[]
    {
      hide Valid;
      var order := Traverse();
      leaves := {};
      for i := 0 to |order|
        invariant forall n :: n in leaves <==> n in order[..i] && n.children == map[]
      {
        if order[i].children == map[] {
          leaves := leaves + {order[i]};
        }
      }
    }

    /** Number of tokens in the tree: always the sum of the two counters. */
    method TotalSize() returns (total: nat)
      requires Valid()
      ensures total == evictable + protectedSize
    {
      hide Valid, SizesUpTo, NoRepeats, Totals.Total;
      var order := Traverse();
      total := 0;
      NoSizes(order);
      for i := 0 to |order|
        invariant total == Totals.Total(SizesUpTo(order, i))
      {
        SizesNext(order, i);
        TotalInsert(SizesUpTo(order, i), order[i], |order[i].value|);
        total := total + |order[i].value|;
      }
      AllSizes(order, info.Keys);
      CountersCoverAll(SizesUpTo(order, |order|));
    }

    /** The two counters together count every node. */
    lemma CountersCoverAll(sizes: map<TreeNode, nat>)
      requires Valid() && sizes == map n | n in info :: |n.value|
      ensures Totals.Total(sizes) == evictable + protectedSize
    {
      hide Tree, Weights;
      var s, locks := ShapeOf(info.Keys), LocksOf(info.Keys);
      AccountedKeys(s, locks, info, root, evictable, protectedSize);
      forall n | n in info
        ensures |s[n].value| == |n.value|
      {
        assert s[n] == FieldsOf(n);
      }
      RootEmpty(s, info, root);
      TwoHalves(s, locks, root);
      assert Sizes(s) == sizes;
    }

    /** Removes an unlocked leaf. */
    method DeleteLeaf(x: TreeNode)
      requires Valid() && x in info && x != root && x.children == map[] && x.lockRef == 0
      requires x.parent != null
      modifies this`info, this`evictable, x.parent`children
      ensures Valid()
      ensures info == old(info) - {x}
      ensures evictable == old(evictable) - |x.value|
      ensures x.parent in info && x.parent.children == old(x.parent.children) - {x.key[0]}
    {
      hide Accounted, PrunedShape, FieldsOf, LocksOf;
      ghost var s, locks, info0 := ShapeOf(info.Keys), LocksOf(info.Keys), info;
      LeafReady(x);
      LeafLinks(x);
      Unhang(x, x.key[0]);
      evictable := evictable - |x.key|;
      info := info - {x};
      forall n | n in info.Keys
        ensures FieldsOf(n) == PrunedShape(s, x)[n]
      {
        if n != x.parent {
          assert FieldsOf(n) == old(FieldsOf(n)) == s[n];
        }
      }
      assert ShapeOf(info.Keys) == PrunedShape(s, x);
      LocksFewer(info0.Keys, x);
    }

    /** What removing the unlocked leaf `x` needs to know. */
    lemma {:induction false} LeafReady(x: TreeNode)
      requires Valid() && x in info && x != root && x.children == map[] && x.lockRef == 0
      ensures x.parent != null && x.parent in info && x.parent != x && |x.key| == |x.value| > 0
      ensures x.key[0] in x.parent.children
      ensures forall k :: k in x.parent.children ==> (x.parent.children[k] == x <==> k == x.key[0])
      ensures var s, locks := ShapeOf(info.Keys), LocksOf(info.Keys);
              && s[x].parent == x.parent && s[x].key == x.key
              && Accounted(PrunedShape(s, x), locks - {x}, info - {x}, root, evictable - |x.key|, protectedSize)
    {
      hide Accounted, Tree, PrunedShape, Linked, FieldsOf, Weights;
      var s, locks := ShapeOf(info.Keys), LocksOf(info.Keys);
      AccountedKeys(s, locks, info, root, evictable, protectedSize);
      Upward(x);
      ChildLinks(x.parent);
      FieldsInShape(x);
      FieldsInShape(x.parent);
      PruneAccounted(s, locks, info, root, evictable, protectedSize, x);
    }

    lemma {:induction false} LeafLinks(x: TreeNode)
      requires Valid() && x in info && x != root && x.parent != null && x.parent in info && x.parent != x && x.key != []
      ensures ShapeOf(info.Keys)[x].parent == x.parent && ShapeOf(info.Keys)[x].key == x.key
      ensures var s := ShapeOf(info.Keys);
              && PrunedShape(s, x).Keys == s.Keys - {x}
              && PrunedShape(s, x)[x.parent] == FieldsOf(x.parent).(children := x.parent.children - {x.key[0]})
              && forall n :: n in s && n != x.parent && n != x ==> PrunedShape(s, x)[n] == s[n]
    {
      hide Valid, PrunedShape, FieldsOf;
      FieldsInShape(x);
      FieldsInShape(x.parent);
      PrunedFields(ShapeOf(info.Keys), x);
    }

    /** A childless root is the whole tree. */
    lemma RootAlone(n: TreeNode)
      requires Valid() && n in info && root.children == map[]
      ensures n == root
    {
      ValidTree();
      RootOnly(n);
      if n != root {
        assert info[root].path < info[n].path;
        FieldsInShape(root);
        ChildTowards(ShapeOf(info.Keys), info, root, root, n);
        assert false;
      }
    }

    lemma OnlyRoot()
      requires Valid() && root.children == map[]
      ensures forall n :: n in info ==> n == root
    {
      hide Valid;
      forall n | n in info
        ensures n == root
      {
        RootAlone(n);
      }
    }

    /** `leaves` holds childless nodes, and all of them but `except` that are unlocked. */
    ghost predicate Candidates(leaves: set<TreeNode>, except: set<TreeNode>)
      reads this`info, info.Keys
    {
      && leaves <= info.Keys
      && (forall n :: n in leaves ==> n.children == map[])
      && (forall n :: n in info && n.children == map[] && n !in leaves && n !in except ==> n.lockRef > 0)
    }

    /** Removes one unlocked leaf; its parent becomes a candidate when it was the last child. */
    method EvictLeaf(x: TreeNode, given: set<TreeNode>) returns (leaves: set<TreeNode>)
      requires Valid() && x in info && x != root && x.children == map[] && x.lockRef == 0 && x !in given
      requires Candidates(given, {x})
      modifies this`info, this`evictable, info.Keys`children
      ensures Valid() && info == old(info) - {x} && evictable == old(evictable) - |x.value|
      ensures Candidates(leaves, {}) && given <= leaves
      ensures forall n :: n in info && old(n.children) == map[] ==> n.children == map[] && (n in leaves ==> n in given)
    {
      hide Valid;
      Upward(x);
      ChildLinks(x.parent);
      DeleteLeaf(x);
      leaves := given;
      if x.parent.children == map[] {
        leaves := leaves + {x.parent};
      }
    }

    /** Every node of `info0` that is gone is at most as recent as the first leaves still waiting. */
    ghost predicate OldestFirst(info0: Info, info1: Info, first: set<TreeNode>, leaves: set<TreeNode>)
      reads info0.Keys`lastAccess, leaves`lastAccess
    {
      forall gone, y :: gone in info0 && gone !in info1 && y in first && y in leaves ==> gone.lastAccess <= y.lastAccess
    }

    lemma OldestMore(info0: Info, info1: Info, first: set<TreeNode>, leaves: set<TreeNode>, x: TreeNode, leaves': set<TreeNode>)
      requires OldestFirst(info0, info1, first, leaves)
      requires x in leaves && forall y :: y in leaves ==> x.lastAccess <= y.lastAccess
      requires forall y :: y in leaves' && y in first ==> y in leaves
      ensures OldestFirst(info0, info1 - {x}, first, leaves')
    {
    }

    /** No node that is gone was used more recently than a surviving unlocked node that was a leaf all along. */
    ghost predicate LeastRecentGone(info0: Info, info1: Info, first: set<TreeNode>)
      reads this`root, info0.Keys, info1.Keys
    {
      forall gone, y :: gone in info0 && gone !in info1 && y in info1 && y in first && y.lockRef == 0 && y != root ==>
                          gone.lastAccess <= y.lastAccess
    }

    lemma Ordered(info0: Info, first: set<TreeNode>, leaves: set<TreeNode>)
      requires OldestFirst(info0, info, first, leaves)
      requires forall y :: y in info && y in first && y != root && y !in leaves ==> y.lockRef > 0
      ensures LeastRecentGone(info0, info, first)
    {
    }

    lemma OldestFewer(info0: Info, info1: Info, first: set<TreeNode>, leaves: set<TreeNode>, leaves': set<TreeNode>)
      requires OldestFirst(info0, info1, first, leaves) && leaves' <= leaves
      ensures OldestFirst(info0, info1, first, leaves')
    {
    }

    /** Nodes outside the tree that were in `info0` are unlocked, and none of them is the root. */
    ghost predicate GoneUnlocked(info0: Info, info1: Info)
      reads this`root, info0.Keys`lockRef
    {
      forall n :: n in info0 && n !in info1 ==> n != root && n.lockRef == 0
    }

    lemma NothingGone(info0: Info)
      ensures GoneUnlocked(info0, info0) && Survives(info0, info0)
      ensures forall first, leaves :: OldestFirst(info0, info0, first, leaves)
    {
    }

    lemma GoneMore(info0: Info, info1: Info, x: TreeNode)
      requires GoneUnlocked(info0, info1) && x != root && x.lockRef == 0
      ensures GoneUnlocked(info0, info1 - {x})
    {
    }

    /** What holds between two rounds of an eviction that started from `info0` and its leaves `first`. */
    ghost predicate Evicting(info0: Info, first: set<TreeNode>, leaves: set<TreeNode>)
      reads this`info, this`root, info0.Keys, info.Keys, leaves
    {
      && Survives(info0, info)
      && GoneUnlocked(info0, info)
      && Candidates(leaves, {})
      && (forall y :: y in first && y in info ==> y.children == map[])
      && OldestFirst(info0, info, first, leaves)
    }

    /** Takes the least recently used candidate; an unlocked one is removed, and the root stops the eviction. */
    method EvictRound(given: set<TreeNode>, ghost info0: Info, ghost first: set<TreeNode>)
      returns (leaves: set<TreeNode>, tokens: nat, stop: bool, ghost gone: TreeNode?)
      requires Valid() && given != {} && Evicting(info0, first, given)
      modifies this`info, this`evictable, info.Keys`children
      ensures Valid() && evictable == old(evictable) - tokens
      ensures stop ==> info == old(info) && forall n :: n in info ==> n == root
      ensures !stop ==> Evicting(info0, first, leaves)
      ensures !stop ==> info.Keys < old(info.Keys) || (info == old(info) && leaves < given)
      ensures if gone == null then info == old(info) && tokens == 0 else gone in old(info) && info == old(info) - {gone} && tokens == |gone.value|
    {
      hide Valid, GoneUnlocked, Survives, OldestFirst;
      ghost var least: TreeNode := Least(given);
      var x: TreeNode :| x in given && forall y :: y in given ==> x.lastAccess <= y.lastAccess;
      leaves, tokens, stop, gone := given - {x}, 0, false, null;
      if x == root {
        OnlyRoot();
        stop := true;
      } else if x.lockRef > 0 {
        OldestFewer(info0, info, first, given, leaves);
      } else {
        LockNatural(x);
        tokens, gone := |x.value|, x;
        SurvivesLess(info0, info, x);
        GoneMore(info0, info, x);
        ghost var before := info;
        leaves := EvictLeaf(x, leaves);
        OldestMore(info0, before, first, given, x, leaves);
      }
    }

    /**
     * Unlocked leaves go, least recently used first, until enough tokens went or none is left. No
     * more go than are needed: without the last one it was not enough yet.
     */
    method Evict(numTokens: int) returns (evicted: int, ghost last: TreeNode?)
      requires Valid()
      modifies this`info, this`evictable, info.Keys`children
      ensures Valid()
      ensures Survives(old(info), info)
      ensures GoneUnlocked(old(info), info)
      ensures evicted == old(evictable) - evictable
      ensures evicted >= numTokens || forall n :: n in info && n.children == map[] && n != root ==> n.lockRef > 0
      ensures LeastRecentGone(old(info), info, old(Childless(info.Keys)))
      ensures if last == null then info == old(info) else last in old(info) && last !in info && evicted - |last.value| < numTokens
    {
      hide Valid, GoneUnlocked, Survives, OldestFirst, LeastRecentGone;
      NothingGone(info);
      var leaves: set<TreeNode> := CollectLeaves();
      ghost var first := leaves;
      assert first == Childless(info.Keys);
      evicted, last := 0, null;
      while evicted < numTokens && leaves != {}
        invariant Valid() && Evicting(old(info), first, leaves)
        invariant evicted == old(evictable) - evictable && info.Keys <= old(info.Keys)
        invariant if last == null then info == old(info) else last in old(info) && last !in info && evicted - |last.value| < numTokens
        decreases info.Keys, leaves
      {
        ghost var waiting := leaves;
        var tokens, stop;
        ghost var gone;
        leaves, tokens, stop, gone := EvictRound(leaves, old(info), first);
        evicted := evicted + tokens;
        last := if gone == null then last else gone;
        if stop {
          OldestFewer(old(info), info, first, waiting, {});
          leaves := {};
          break;
        }
      }
      Ordered(old(info), first, leaves);
    }

    /** A walk that cannot go on has found the longest stored prefix. */
    lemma MatchEnds(info0: Info, key: seq<Token>, node: TreeNode, rest: seq<Token>)
      requires Valid() && SameContents(info0, info)
      requires node in info && info[node].path + rest == key
      requires rest != [] ==> rest[0] !in node.children
      ensures LongestStored(info0, key, info[node].path)
    {
      hide Accounted, LongestStored, Stored, SameContents;
      ValidTree();
      NoChildLongest(ShapeOf(info.Keys), info, root, node, key);
      SameLongest(info0, info, key, info[node].path);
    }

    lemma ValidTree()
      requires Valid()
      ensures Tree(ShapeOf(info.Keys), info, root)
      ensures root in info && info[root] == Spelled([], [], [])
    {
    }
  }

  function GivenOr(given: Option<seq<Position>>, key: seq<Token>): (value: seq<Position>)
    requires given.Some? ==> |given.value| == |key|
    ensures |value| == |key|
  {
    if given.None? then key else given.value
  }

  /** The prefixes of `key` are stored in addition; what every old node spells stays the same. */
  ghost predicate Grows(info: Info, info': Info, key: seq<Token>) {
    && (forall n :: n in info ==> n in info' && info'[n] == info[n])
    && (forall t :: Stored(info', t) <==> Stored(info, t) || t <= key)
  }

  lemma StoredGrows(info0: Info, info1: Info, info2: Info, key: seq<Token>, node: TreeNode)
    requires SameContents(info0, info1)
    requires node in info2 && info2[node].path == key
    requires (node in info1 && info2 == info1) || (node !in info1 && info2 == info1[node := info2[node]])
    ensures Grows(info0, info2, key)
  {
    forall t
      ensures Stored(info2, t) <==> Stored(info0, t) || t <= key
    {
      if Stored(info1, t) {
        var n :| n in info1 && t <= info1[n].path;
        assert info2[n] == info1[n];
      }
      if Stored(info2, t) {
        var n :| n in info2 && t <= info2[n].path;
        assert n != node ==> n in info1 && info1[n] == info2[n];
      }
    }
  }

  /** What a leaf for the rest of `key` holds below `at`. */
  lemma LeafHolds(info: Info, at: TreeNode, key: seq<Token>, value: seq<Position>, kv: seq<KV>, matched: nat)
    requires at in info && |value| == |key| && matched <= |key| && info[at].path == key[..matched]
    ensures var leaf := info[at].Extend(key[matched..], value[matched..], Drop(kv, matched));
            && leaf.value == info[at].value + value[matched..]
            && leaf.kv == info[at].kv + (if matched <= |kv| then kv[matched..] else [])
            && (Whole(info) && |kv| == |key| ==> |leaf.kv| == |leaf.path|)
  {
  }

  lemma WholeKept(info0: Info, info1: Info)
    requires SameContents(info0, info1)
    ensures Whole(info0) ==> Whole(info1)
  {
  }

  lemma WholeMore(info: Info, leaf: TreeNode, entry: Spelled)
    requires Whole(info) && |entry.kv| == |entry.path|
    ensures Whole(info[leaf := entry])
  {
  }

  lemma SameRefl(info: Info, locks: map<TreeNode, int>)
    ensures SameContents(info, info) && SameLocks(locks, locks)
  {
  }

  lemma SameTrans(info0: Info, info1: Info, info2: Info, locks0: map<TreeNode, int>, locks1: map<TreeNode, int>, locks2: map<TreeNode, int>)
    requires SameContents(info0, info1) && SameContents(info1, info2)
    requires SameLocks(locks0, locks1) && SameLocks(locks1, locks2)
    ensures SameContents(info0, info2) && SameLocks(locks0, locks2)
  {
  }

  lemma LocksTrans(locks0: map<TreeNode, int>, locks1: map<TreeNode, int>, locks2: map<TreeNode, int>)
    requires SameLocks(locks0, locks1) && SameLocks(locks1, locks2)
    ensures SameLocks(locks0, locks2)
  {
  }

  ghost predicate SameLocks(locks: map<TreeNode, int>, locks': map<TreeNode, int>) {
    forall n :: n in locks ==> n in locks' && locks'[n] == locks[n]
  }

  lemma FieldsMeaning(n: TreeNode)
    ensures FieldsOf(n) == Fields(n.children, n.parent, n.key, n.value, n.kv)
  {
  }

  lemma CarvedShape(s: Shape, info: Info, root: TreeNode, child: TreeNode, len: nat, above: TreeNode)
    requires Splittable(s, info, root, child, len, above)
    ensures var s', c, p := SplitShape(s, child, len, above), s[child], s[child].parent;
            && s'.Keys == s.Keys + {above}
            && s'[above] == Fields(map[c.key[len] := child], p, c.key[..len], c.value[..len], Take(c.kv, len))
            && s'[child] == Fields(c.children, above, c.key[len..], c.value[len..], Drop(c.kv, len))
            && s'[p] == s[p].(children := s[p].children[c.key[0] := above])
            && forall n :: n in s && n != child && n != p ==> s'[n] == s[n]
  {
  }

  lemma PathOfWalk(path: seq<Token>, key: seq<Token>, matched: nat)
    requires matched <= |key| && path + key[matched..] == key
    ensures path == key[..matched]
  {
    assert |path| == matched;
    assert path == (path + key[matched..])[..matched];
  }

  /** Changing one lock count moves that node's tokens between the counters, or nothing. */
  lemma LockAccounted(s: Shape, locks: map<TreeNode, int>, info: Info, root: TreeNode, evictable: int, protectedSize: int, n: TreeNode, lock: int)
    requires Accounted(s, locks, info, root, evictable, protectedSize) && n in s && n != root && lock >= 0
    ensures var moved := if locks[n] == 0 && lock > 0 then |s[n].value| else if locks[n] > 0 && lock == 0 then -|s[n].value| else 0;
            Accounted(s, locks[n := lock], info, root, evictable - moved, protectedSize + moved)
  {
    hide Tree, Weights;
    TreeKeys(s, info, root);
    LockWeights(s, locks, root, n, lock, true);
    LockWeights(s, locks, root, n, lock, false);
  }

  lemma RootEmpty(s: Shape, info: Info, root: TreeNode)
    requires Tree(s, info, root)
    ensures root in s && s[root].value == []
  {
  }

  lemma SameLocksMore(locks: map<TreeNode, int>, leaf: TreeNode)
    requires leaf !in locks
    ensures SameLocks(locks, locks[leaf := 0])
  {
  }

  lemma LocksMore(nodes: set<TreeNode>, leaf: TreeNode)
    requires leaf !in nodes
    ensures LocksOf(nodes + {leaf}) == LocksOf(nodes)[leaf := leaf.lockRef]
  {
  }

  lemma LocksFewer(nodes: set<TreeNode>, x: TreeNode)
    ensures LocksOf(nodes - {x}) == LocksOf(nodes) - {x}
  {
  }

  ghost function Childless(nodes: set<TreeNode>): set<TreeNode>
    reads nodes`children
  {
    set n | n in nodes && n.children == map[]
  }

  /** Some nodes are gone; what the others spell is unchanged. */
  ghost predicate Survives(info: Info, info': Info) {
    info'.Keys <= info.Keys && forall n :: n in info' ==> info'[n] == info[n]
  }

  lemma SurvivesLess(info0: Info, info1: Info, x: TreeNode)
    requires Survives(info0, info1)
    ensures Survives(info0, info1 - {x})
  {
  }

  lemma {:induction false} Least(nodes: set<TreeNode>) returns (x: TreeNode)
    requires nodes != {}
    ensures x in nodes && forall y :: y in nodes ==> x.lastAccess <= y.lastAccess
    decreases nodes
  {
    var n := Totals.Element(nodes);
    if nodes == {n} {
      x := n;
    } else {
      var m := Least(nodes - {n});
      x := if n.lastAccess <= m.lastAccess then n else m;
    }
  }

  ghost function Sizes(s: Shape): map<TreeNode, nat> {
    map n | n in s :: |s[n].value|
  }

  /** Locked and unlocked nodes together are all nodes but the root. */
  lemma TwoHalves(s: Shape, locks: map<TreeNode, int>, root: TreeNode)
    requires s.Keys == locks.Keys && root in s && s[root].value == []
    ensures Total(Weights(s, locks, root, false)) + Total(Weights(s, locks, root, true)) == Total(Sizes(s))
  {
    TotalSum(Weights(s, locks, root, false), Weights(s, locks, root, true), Sizes(s));
  }

  lemma LinkedFacts(s: Shape, info: Info, x: TreeNode)
    requires x in s && x in info && Linked(s, info, x)
    ensures s[x].parent != null && s[x].parent in s && s[x].key != [] && |s[x].key| == |s[x].value|
  {
  }

  lemma PrunedWeights(s: Shape, locks: map<TreeNode, int>, root: TreeNode, x: TreeNode, s': Shape)
    requires s.Keys == locks.Keys && x in s && x != root && locks[x] == 0
    requires s'.Keys == s.Keys - {x}
    requires forall n :: n in s' ==> s'[n].value == s[n].value
    ensures Weights(s', locks - {x}, root, true) == Weights(s, locks, root, true) - {x}
    ensures Weights(s, locks, root, true)[x] == 0 && Weights(s, locks, root, false)[x] == |s[x].value|
    ensures Weights(s', locks - {x}, root, false) == Weights(s, locks, root, false) - {x}
  {
  }

  lemma PruneAccounted(s: Shape, locks: map<TreeNode, int>, info: Info, root: TreeNode, evictable: int, protectedSize: int, x: TreeNode)
    requires Accounted(s, locks, info, root, evictable, protectedSize)
    requires x in s && x != root && s[x].children == map[] && locks[x] == 0
    ensures Linked(s, info, x)
    ensures Accounted(PrunedShape(s, x), locks - {x}, info - {x}, root, evictable - |s[x].key|, protectedSize)
  {
    hide Tree, PrunedShape, Linked, Total, Weights;
    TreeKeys(s, info, root);
    NotOwnParent(s, info, root, x);
    LinkedFacts(s, info, x);
    PrunedFields(s, x);
    PruneTree(s, info, root, x);
    PrunedWeights(s, locks, root, x, PrunedShape(s, x));
    TotalRemove(Weights(s, locks, root, false), x);
    TotalRemove(Weights(s, locks, root, true), x);
  }

  lemma LockWeights(s: Shape, locks: map<TreeNode, int>, root: TreeNode, n: TreeNode, lock: int, locked: bool)
    requires s.Keys == locks.Keys && n in s && n != root
    ensures Total(Weights(s, locks[n := lock], root, locked)) ==
            Total(Weights(s, locks, root, locked))
            + (if (lock > 0) == locked then |s[n].value| else 0) - (if (locks[n] > 0) == locked then |s[n].value| else 0)
  {
    hide Weights;
    var w: map<TreeNode, nat> := Weights(s, locks, root, locked);
    var v: nat := if (lock > 0) == locked then |s[n].value| else 0;
    assert Weights(s, locks[n := lock], root, locked) == w[n := v];
    TotalUpdate(w, n, v);
  }

  lemma ExtendPath(base: Spelled, key: seq<Token>, value: seq<Position>, kv: seq<KV>)
    ensures base.Extend(key, value, kv).path == base.path + key
  {
  }

  /** Finds the entry of `x` among its parent's children and drops it. */
  method Unhang(x: TreeNode, ghost t: Token)
    requires x.parent != null
    requires t in x.parent.children && forall k :: k in x.parent.children ==> (x.parent.children[k] == x <==> k == t)
    modifies x.parent`children
    ensures x.parent.children == old(x.parent.children) - {t}
    ensures FieldsOf(x.parent) == old(FieldsOf(x.parent)).(children := old(x.parent.children) - {t})
  {
    var k :| k in x.parent.children && x.parent.children[k] == x;
    x.parent.children := x.parent.children - {k};
  }

  /** The pointer updates of hanging a leaf. */
  method Hang(p: TreeNode, key: seq<Token>, value: seq<Position>, kv: seq<KV>, now: int) returns (leaf: TreeNode)
    requires key != []
    modifies p`children
    ensures fresh(leaf) && leaf.lockRef == 0 && leaf.parent == p && leaf.lastAccess == now
    ensures FieldsOf(leaf) == Fields(map[], p, key, value, kv)
    ensures FieldsOf(p) == old(FieldsOf(p)).(children := old(p.children)[key[0] := leaf])
  {
    leaf := new TreeNode(p, key, value, kv, 0, now);
    p.children := p.children[key[0] := leaf];
  }

  /** The pointer updates of a split. */
  method Carve(child: TreeNode, len: nat, now: int) returns (above: TreeNode)
    requires child.parent != null && child.parent != child && 0 < len < |child.key| && |child.value| == |child.key|
    modifies child`parent, child`key, child`value, child`kv, child.parent`children
    ensures fresh(above) && above.lastAccess == now
    ensures FieldsOf(above) == Fields(map[old(child.key)[len] := child], old(child.parent), old(child.key)[..len], old(child.value)[..len], Take(old(child.kv), len))
    ensures FieldsOf(child) == Fields(old(child.children), above, old(child.key)[len..], old(child.value)[len..], Drop(old(child.kv), len))
    ensures var p := old(child.parent);
            FieldsOf(p) == old(FieldsOf(p)).(children := old(p.children)[old(child.key)[0] := above])
    ensures above.lockRef == child.lockRef == old(child.lockRef) && old(child.parent).lockRef == old(child.parent.lockRef)
  {
    var p := child.parent;
    above := new TreeNode(p, child.key[..len], child.value[..len], Take(child.kv, len), child.lockRef, now);
    above.children := map[child.key[len] := child];
    p.children := p.children[child.key[0] := above];
    child.parent := above;
    child.key := child.key[len..];
    child.value := child.value[len..];
    child.kv := Drop(child.kv, len);
  }

  lemma AccountedKeys(s: Shape, locks: map<TreeNode, int>, info: Info, root: TreeNode, evictable: int, protectedSize: int)
    requires Accounted(s, locks, info, root, evictable, protectedSize)
    ensures s.Keys == locks.Keys == info.Keys && root in s
    ensures Tree(s, info, root)
  {
  }

  lemma SplittableNow(s: Shape, info: Info, root: TreeNode, child: TreeNode, len: nat)
    requires s.Keys == info.Keys && child in s && child != root && Linked(s, info, child) && s[child].parent != child
    requires 0 < len < |s[child].key|
    ensures forall above :: above !in s ==> Splittable(s, info, root, child, len, above)
    ensures s[child].parent != null && s[child].parent in s && |s[child].value| == |s[child].key|
  {
  }
}
