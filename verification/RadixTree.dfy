/** The compressed trie behind the prefix cache: nodes, and what they spell from the root. */
module RadixTree {
  import opened Sequences

  type Token = int
  type Position = int

  /** The cached keys and values of one token, for all layers. */
  datatype KV = KV(key: int, value: int)

  /** What a node spells together with its ancestors. */
  datatype Spelled = Spelled(path: seq<Token>, value: seq<Position>, kv: seq<KV>) {
    function Extend(key: seq<Token>, v: seq<Position>, c: seq<KV>): Spelled {
      Spelled(path + key, value + v, kv + c)
    }
  }

  /** Slicing that stops at the end of the list. */
  function Take<T>(s: seq<T>, n: nat): seq<T> {
    if n <= |s| then s[..n] else s
  }

  function Drop<T>(s: seq<T>, n: nat): seq<T> {
    if n <= |s| then s[n..] else []
  }

  class TreeNode {
    var children: map<Token, TreeNode>
    var parent: TreeNode?
    var key: seq<Token>
    var value: seq<Position>
    var kv: seq<KV>
    var lockRef: int
    var lastAccess: int

    constructor (parent: TreeNode?, key: seq<Token>, value: seq<Position>, kv: seq<KV>, lockRef: int, now: int)
      ensures children == map[] && this.parent == parent && this.key == key
      ensures this.value == value && this.kv == kv && this.lockRef == lockRef && lastAccess == now
    {
      children := map[];
      this.parent, this.key, this.value, this.kv, this.lockRef, lastAccess := parent, key, value, kv, lockRef, now;
    }
  }

  /** The structural fields of a node. */
  datatype Fields = Fields(children: map<Token, TreeNode>, parent: TreeNode?, key: seq<Token>, value: seq<Position>, kv: seq<KV>)

  /** The structural fields of all nodes of a tree. */
  type Shape = map<TreeNode, Fields>

  ghost function FieldsOf(n: TreeNode): Fields
    reads n`children, n`parent, n`key, n`value, n`kv
  {
    Fields(n.children, n.parent, n.key, n.value, n.kv)
  }

  ghost function ShapeOf(nodes: set<TreeNode>): (s: Shape)
    reads nodes`children, nodes`parent, nodes`key, nodes`value, nodes`kv
    ensures s.Keys == nodes
  {
    map n | n in nodes :: FieldsOf(n)
  }

  /** `info` gives, for every node of the tree, what it spells from the root. */
  type Info = map<TreeNode, Spelled>

  ghost predicate Linked(s: Shape, info: Info, n: TreeNode)
    requires n in s && n in info
  {
    var p := s[n].parent;
    && p != null && p in s && p in info
    && s[n].key != []
    && |s[n].value| == |s[n].key|
    && s[n].key[0] in s[p].children && s[p].children[s[n].key[0]] == n
    && info[n] == info[p].Extend(s[n].key, s[n].value, s[n].kv)
  }

  ghost predicate ChildLinked(s: Shape, root: TreeNode, n: TreeNode, t: Token)
    requires n in s && t in s[n].children
  {
    var c := s[n].children[t];
    c in s && c != root && s[c].parent == n && s[c].key != [] && s[c].key[0] == t
  }

  /** The nodes form one trie below `root`, with consistent links both ways. */
  ghost predicate Tree(s: Shape, info: Info, root: TreeNode) {
    && s.Keys == info.Keys
    && root in s && info[root] == Spelled([], [], [])
    && s[root].key == [] && s[root].value == []
    && (forall n :: n in s && n != root ==> Linked(s, info, n))
    && (forall n, t :: n in s && t in s[n].children ==> ChildLinked(s, root, n, t))
  }

  lemma PathGrows(s: Shape, info: Info, root: TreeNode, n: TreeNode)
    requires Tree(s, info, root) && n in info
    ensures n != root ==> |info[n].path| > |info[s[n].parent].path| && info[s[n].parent].path <= info[n].path
    ensures info[n].path == [] <==> n == root
  {
    if n != root {
      assert Linked(s, info, n);
    }
  }

  /** A node is on the way to another exactly when it spells a prefix: two nodes never spell the same. */
  lemma {:induction false} OnTheWay(s: Shape, info: Info, root: TreeNode, m: TreeNode, n: TreeNode)
    requires Tree(s, info, root) && m in info && n in info
    requires info[m].path <= info[n].path
    ensures m == n || (n != root && info[m].path <= info[s[n].parent].path)
    decreases |info[m].path| + |info[n].path|
  {
    if n == root {
      PathGrows(s, info, root, m);
    } else if m != root {
      assert Linked(s, info, n) && Linked(s, info, m);
      var p, q := s[n].parent, s[m].parent;
      if |info[m].path| > |info[p].path| {
        assert info[p].path <= info[n].path && info[q].path <= info[m].path;
        if |info[q].path| == |info[p].path| {
          assert info[q].path == info[p].path;
          OnTheWay(s, info, root, q, p);
          assert q == p;
          assert s[m].key[0] == info[n].path[|info[p].path|] == s[n].key[0];
        } else if |info[q].path| > |info[p].path| {
          OnTheWay(s, info, root, q, n);
        } else {
          assert info[p].path <= info[m].path;
          OnTheWay(s, info, root, p, m);
        }
      }
    }
  }

  lemma SamePathSameNode(s: Shape, info: Info, root: TreeNode, m: TreeNode, n: TreeNode)
    requires Tree(s, info, root) && m in info && n in info
    requires info[m].path == info[n].path
    ensures m == n
  {
    OnTheWay(s, info, root, m, n);
    PathGrows(s, info, root, n);
  }

  /** Below a node, the way to a longer path starts with the child for the next token. */
  lemma {:induction false} ChildTowards(s: Shape, info: Info, root: TreeNode, m: TreeNode, n: TreeNode)
    requires Tree(s, info, root) && m in info && n in info
    requires info[m].path < info[n].path
    ensures var t := info[n].path[|info[m].path|];
            t in s[m].children && s[m].children[t] in info && info[s[m].children[t]].path <= info[n].path
    decreases |info[n].path|
  {
    OnTheWay(s, info, root, m, n);
    assert Linked(s, info, n);
    var p := s[n].parent;
    if info[m].path == info[p].path {
      SamePathSameNode(s, info, root, m, p);
    } else {
      ChildTowards(s, info, root, m, p);
    }
  }

  /** The stored strings: all prefixes of what the nodes spell. */
  ghost predicate Stored(info: Info, s: seq<Token>) {
    exists n :: n in info && s <= info[n].path
  }

  /** `s` is the longest prefix of `key` that is stored. */
  ghost predicate LongestStored(info: Info, key: seq<Token>, s: seq<Token>) {
    && s <= key
    && Stored(info, s)
    && forall t :: t <= key && Stored(info, t) ==> |t| <= |s|
  }

  /** Where no child takes the next token, the match ends: nothing longer is stored. */
  lemma NoChildLongest(s: Shape, info: Info, root: TreeNode, m: TreeNode, key: seq<Token>)
    requires Tree(s, info, root) && m in info && info[m].path <= key
    requires |info[m].path| < |key| ==> key[|info[m].path|] !in s[m].children
    ensures LongestStored(info, key, info[m].path)
  {
    forall t | t <= key && Stored(info, t)
      ensures |t| <= |info[m].path|
    {
      if |t| > |info[m].path| {
        var n :| n in info && t <= info[n].path;
        assert info[m].path <= t;
        assert info[n].path[|info[m].path|] == key[|info[m].path|];
        ChildTowards(s, info, root, m, n);
        assert false;
      }
    }
  }

  /** The shape after the first `len` tokens of `child` move to a new node `above` it. */
  ghost function SplitShape(s: Shape, child: TreeNode, len: nat, above: TreeNode): Shape
    requires child in s && s[child].parent != null && s[child].parent in s
    requires 0 < len < |s[child].key| && |s[child].value| == |s[child].key|
  {
    var c, p := s[child], s[child].parent;
    s[p := s[p].(children := s[p].children[c.key[0] := above])]
     [child := Fields(c.children, above, c.key[len..], c.value[len..], Drop(c.kv, len))]
     [above := Fields(map[c.key[len] := child], p, c.key[..len], c.value[..len], Take(c.kv, len))]
  }

  ghost function SplitInfo(s: Shape, info: Info, child: TreeNode, len: nat, above: TreeNode): Info
    requires child in s && s[child].parent != null && s[child].parent in info
    requires 0 < len < |s[child].key| && |s[child].value| == |s[child].key|
  {
    var c := s[child];
    info[above := info[c.parent].Extend(c.key[..len], c.value[..len], Take(c.kv, len))]
  }

  lemma ExtendInTwo(base: Spelled, key: seq<Token>, value: seq<Position>, kv: seq<KV>, len: nat)
    requires len <= |key| == |value|
    ensures base.Extend(key[..len], value[..len], Take(kv, len)).Extend(key[len..], value[len..], Drop(kv, len)) == base.Extend(key, value, kv)
  {
    assert base.path + key == base.path + key[..len] + key[len..];
    assert base.value + value == base.value + value[..len] + value[len..];
    assert base.kv + kv == base.kv + Take(kv, len) + Drop(kv, len);
  }

  /** Enough of the trie around a node that is about to be split. */
  ghost predicate Splittable(s: Shape, info: Info, root: TreeNode, child: TreeNode, len: nat, above: TreeNode) {
    && s.Keys == info.Keys
    && child in s && child != root && Linked(s, info, child) && s[child].parent != child
    && 0 < len < |s[child].key| && above !in s
  }

  lemma SplitLinked(s: Shape, info: Info, root: TreeNode, child: TreeNode, len: nat, above: TreeNode, n: TreeNode)
    requires Splittable(s, info, root, child, len, above)
    requires n in s && Linked(s, info, n) && s[n].parent != n
    ensures Linked(SplitShape(s, child, len, above), SplitInfo(s, info, child, len, above), n)
  {
    hide Spelled.Extend, Take, Drop;
    var c := s[child];
    if n == child {
      ExtendInTwo(info[c.parent], c.key, c.value, c.kv, len);
    } else if s[n].parent == c.parent {
      assert s[n].key[0] != c.key[0];
    }
  }

  lemma SplitChildLinked(s: Shape, info: Info, root: TreeNode, child: TreeNode, len: nat, above: TreeNode, n: TreeNode, t: Token)
    requires Splittable(s, info, root, child, len, above) && root in s
    requires n in SplitShape(s, child, len, above) && t in SplitShape(s, child, len, above)[n].children
    requires n in s && t in s[n].children ==> ChildLinked(s, root, n, t)
    ensures ChildLinked(SplitShape(s, child, len, above), root, n, t)
  {
    hide Spelled.Extend, Take, Drop;
  }

  lemma SplitKeys(s: Shape, info: Info, root: TreeNode, child: TreeNode, len: nat, above: TreeNode)
    requires Splittable(s, info, root, child, len, above)
    ensures SplitShape(s, child, len, above).Keys == s.Keys + {above}
    ensures SplitInfo(s, info, child, len, above).Keys == s.Keys + {above}
    ensures Linked(SplitShape(s, child, len, above), SplitInfo(s, info, child, len, above), above)
  {
    hide Take, Drop;
  }

  lemma SplitRoot(s: Shape, info: Info, root: TreeNode, child: TreeNode, len: nat, above: TreeNode)
    requires Splittable(s, info, root, child, len, above) && root in s
    ensures SplitShape(s, child, len, above)[root].key == s[root].key
    ensures SplitShape(s, child, len, above)[root].value == s[root].value
    ensures SplitInfo(s, info, child, len, above)[root] == info[root]
  {
  }

  /** Splitting keeps the trie, and what every old node spells. */
  lemma SplitTree(s: Shape, info: Info, root: TreeNode, child: TreeNode, len: nat, above: TreeNode)
    requires Tree(s, info, root) && Splittable(s, info, root, child, len, above)
    ensures Tree(SplitShape(s, child, len, above), SplitInfo(s, info, child, len, above), root)
  {
    hide SplitShape, SplitInfo, ChildLinked, Spelled.Extend;
    var s', info' := SplitShape(s, child, len, above), SplitInfo(s, info, child, len, above);
    SplitKeys(s, info, root, child, len, above);
    SplitRoot(s, info, root, child, len, above);
    forall n | n in s' && n != root
      ensures Linked(s', info', n)
    {
      if n != above {
        NotOwnParent(s, info, root, n);
        SplitLinked(s, info, root, child, len, above, n);
      }
    }
    forall n, t | n in s' && t in s'[n].children
      ensures ChildLinked(s', root, n, t)
    {
      SplitChildLinked(s, info, root, child, len, above, n, t);
    }
  }

  lemma NotOwnParent(s: Shape, info: Info, root: TreeNode, n: TreeNode)
    requires Tree(s, info, root) && n in s && n != root
    ensures Linked(s, info, n) && s[n].parent != n
  {
    PathGrows(s, info, root, n);
  }

  /** Every token on the way to a node has its key and value. */
  ghost predicate Whole(info: Info) {
    forall n :: n in info ==> |info[n].kv| == |info[n].path|
  }

  /** Nothing is stored or forgotten, what every old node spells stays the same, and no token loses its key and value. */
  ghost predicate SameContents(info: Info, info': Info) {
    && (forall n :: n in info ==> n in info' && info'[n] == info[n])
    && (forall t :: Stored(info', t) <==> Stored(info, t))
    && (Whole(info) ==> Whole(info'))
  }

  /** A node holds what its parent holds, and more. */
  lemma HoldsMore(s: Shape, info: Info, root: TreeNode, n: TreeNode)
    requires Tree(s, info, root) && n in info && n != root
    ensures s[n].parent != null && s[n].parent in info
    ensures var p := s[n].parent;
            && |info[p].path| < |info[n].path| && info[p].value <= info[n].value && info[p].kv <= info[n].kv
            && |info[n].value| - |info[p].value| == |info[n].path| - |info[p].path|
  {
    assert Linked(s, info, n);
  }

  lemma {:induction false} ValuesFit(s: Shape, info: Info, root: TreeNode, n: TreeNode)
    requires Tree(s, info, root) && n in info
    ensures |info[n].value| == |info[n].path|
    decreases |info[n].path|
  {
    if n != root {
      HoldsMore(s, info, root, n);
      hide Tree;
      ValuesFit(s, info, root, s[n].parent);
    }
  }

  /** A node on the way to another holds a prefix of its positions and of its keys and values. */
  lemma {:induction false} HoldsPrefix(s: Shape, info: Info, root: TreeNode, m: TreeNode, n: TreeNode)
    requires Tree(s, info, root) && m in info && n in info && info[m].path <= info[n].path
    ensures info[m].value <= info[n].value && |info[m].value| == |info[m].path|
    ensures info[m].kv <= info[n].kv && (Whole(info) ==> |info[m].kv| == |info[m].path|)
    decreases |info[n].path|
  {
    hide Tree;
    TreeNodes(s, info, root);
    OnTheWay(s, info, root, m, n);
    ValuesFit(s, info, root, m);
    if m != n {
      HoldsMore(s, info, root, n);
      HoldsPrefix(s, info, root, m, s[n].parent);
    }
  }

  lemma SplitContents(s: Shape, info: Info, root: TreeNode, child: TreeNode, len: nat, above: TreeNode)
    requires Splittable(s, info, root, child, len, above)
    ensures SameContents(info, SplitInfo(s, info, child, len, above))
  {
    var info' := SplitInfo(s, info, child, len, above);
    if Whole(info) {
      assert |info[child].kv| == |info[s[child].parent].kv| + |s[child].kv|;
      assert |info'[above].kv| == |info'[above].path|;
    }
    forall t
      ensures Stored(info', t) <==> Stored(info, t)
    {
      if Stored(info', t) {
        var n: TreeNode :| n in info' && t <= info'[n].path;
        if n == above {
          assert info[child].path == info[s[child].parent].path + s[child].key;
          assert t <= info[child].path;
        }
      }
      if Stored(info, t) {
        var n: TreeNode :| n in info && t <= info[n].path;
        assert info'[n] == info[n];
      }
    }
  }

  lemma SameLongest(info: Info, info': Info, key: seq<Token>, t: seq<Token>)
    requires SameContents(info, info') && LongestStored(info', key, t)
    ensures LongestStored(info, key, t)
  {
  }

  /** The child for the next token, and how it is linked. */
  lemma ChildOf(s: Shape, info: Info, root: TreeNode, n: TreeNode, t: Token)
    requires Tree(s, info, root) && n in s && t in s[n].children
    ensures var c := s[n].children[t];
            && c in s && c != root && c != n && s[c].parent == n && s[c].key != [] && s[c].key[0] == t
            && Linked(s, info, c)
  {
    assert ChildLinked(s, root, n, t);
    NotOwnParent(s, info, root, s[n].children[t]);
  }

  /** Where a walk enters a node: what its parent spells and the first token of its own key. */
  ghost function Entry(s: Shape, info: Info, n: TreeNode): seq<Token>
    requires n in s && n in info
  {
    var p, k := info[n].path, s[n].key;
    if 0 < |k| <= |p| then p[..|p| - |k| + 1] else []
  }

  ghost function Entries(s: Shape, info: Info): (r: map<TreeNode, seq<Token>>)
    ensures r.Keys == info.Keys * s.Keys
  {
    map n | n in info && n in s :: Entry(s, info, n)
  }

  /** Access times after a walk that got as far as `reached`: every node it entered has the new one. */
  ghost function Restamped(stamps: map<TreeNode, int>, entries: map<TreeNode, seq<Token>>, reached: seq<Token>, now: int): map<TreeNode, int> {
    map n | n in stamps :: if n in entries && entries[n] <= reached then now else stamps[n]
  }

  lemma {:induction false} EntryOf(s: Shape, info: Info, root: TreeNode, n: TreeNode)
    requires Tree(s, info, root) && n in info
    ensures n == root ==> Entry(s, info, n) == []
    ensures n != root ==> Linked(s, info, n) && Entry(s, info, n) == info[s[n].parent].path + [s[n].key[0]]
  {
    if n != root {
      assert Linked(s, info, n);
    }
  }

  /** Going on into a child, however far, enters that child and no other node. */
  lemma NextEntry(s: Shape, info: Info, root: TreeNode, m: TreeNode, t: Token, len: nat, n: TreeNode)
    requires Tree(s, info, root) && m in info && t in s[m].children && n in info
    requires s[m].children[t] in s && 0 < len <= |s[s[m].children[t]].key|
    ensures var c := s[m].children[t];
            Entry(s, info, n) <= info[m].path + s[c].key[..len] <==> Entry(s, info, n) <= info[m].path || n == c
  {
    var c := s[m].children[t];
    ChildOf(s, info, root, m, t);
    EntryOf(s, info, root, c);
    EntryOf(s, info, root, n);
    var next := info[m].path + s[c].key[..len];
    assert next <= info[c].path;
    assert info[m].path + [s[c].key[0]] <= next;
    if n != root && Entry(s, info, n) <= next && !(Entry(s, info, n) <= info[m].path) {
      EntersOnly(s, info, root, m, c, n);
    }
  }

  lemma LongerPrefix(a: seq<Token>, t: Token, b: seq<Token>, c: seq<Token>)
    requires a + [t] <= c && b <= c
    ensures |a| < |b| ==> a + [t] <= b
  {
  }

  lemma EntersOnly(s: Shape, info: Info, root: TreeNode, m: TreeNode, c: TreeNode, n: TreeNode)
    requires Tree(s, info, root) && m in info && c in info && n in info && c != root && n != root && s[c].parent == m
    requires s[n].parent != null && s[n].parent in info && |s[n].key| > 0
    requires info[s[n].parent].path + [s[n].key[0]] <= info[c].path && !(info[s[n].parent].path + [s[n].key[0]] <= info[m].path)
    ensures n == c
  {
    assert Linked(s, info, c) && Linked(s, info, n);
    var p := s[n].parent;
    assert info[p].path <= info[c].path && info[m].path <= info[c].path;
    OnTheWay(s, info, root, p, c);
    assert p != c;
    LongerPrefix(info[p].path, s[n].key[0], info[m].path, info[c].path);
    SamePathSameNode(s, info, root, p, m);
    assert s[n].key[0] == info[c].path[|info[m].path|] == s[c].key[0];
  }

  /** The access times after entering one more child. */
  lemma RestampNext(s: Shape, info: Info, root: TreeNode, m: TreeNode, t: Token, len: nat, stamps: map<TreeNode, int>, now: int)
    requires Tree(s, info, root) && m in info && t in s[m].children && stamps.Keys == info.Keys
    requires s[m].children[t] in s && 0 < len <= |s[s[m].children[t]].key|
    ensures var c := s[m].children[t];
            Restamped(stamps, Entries(s, info), info[m].path + s[c].key[..len], now) == Restamped(stamps, Entries(s, info), info[m].path, now)[c := now]
  {
    hide Tree, Entry;
    assert s.Keys == info.Keys by {
      TreeNodes(s, info, root);
    }
    forall n | n in info
      ensures Entry(s, info, n) <= info[m].path + s[s[m].children[t]].key[..len] <==> Entry(s, info, n) <= info[m].path || n == s[m].children[t]
    {
      NextEntry(s, info, root, m, t, len, n);
    }
  }

  lemma TreeNodes(s: Shape, info: Info, root: TreeNode)
    requires Tree(s, info, root)
    ensures s.Keys == info.Keys && root in info && info[root].path == []
  {
  }

  /** A walk that has not left the root entered the root only. */
  lemma RestampRoot(s: Shape, info: Info, root: TreeNode, stamps: map<TreeNode, int>, now: int)
    requires Tree(s, info, root) && stamps.Keys == info.Keys
    ensures root in info && info[root].path == [] && Restamped(stamps, Entries(s, info), [], now) == stamps[root := now]
  {
    hide Tree, Entry;
    TreeNodes(s, info, root);
    forall n | n in info
      ensures Entry(s, info, n) <= [] <==> n == root
    {
      EntryOf(s, info, root, n);
    }
  }

  /** Moving into a child, or into its first `len` tokens, consumes that much of the key. */
  lemma Descend(base: Spelled, key: seq<Token>, value: seq<Position>, kv: seq<KV>, rest: seq<Token>, len: nat)
    requires len <= |key| && len <= |rest| && key[..len] == rest[..len]
    ensures base.Extend(key[..len], value, kv).path + rest[len..] == base.path + rest
  {
    assert rest == key[..len] + rest[len..];
    assert (base.path + key[..len]) + rest[len..] == base.path + (key[..len] + rest[len..]);
  }

  /** The shape with a new leaf under `p`. */
  ghost function LeafShape(s: Shape, p: TreeNode, leaf: TreeNode, key: seq<Token>, value: seq<Position>, kv: seq<KV>): Shape
    requires p in s && key != []
  {
    s[p := s[p].(children := s[p].children[key[0] := leaf])][leaf := Fields(map[], p, key, value, kv)]
  }

  lemma LeafTree(s: Shape, info: Info, root: TreeNode, p: TreeNode, leaf: TreeNode, key: seq<Token>, value: seq<Position>, kv: seq<KV>)
    requires Tree(s, info, root) && p in s && leaf !in s
    requires key != [] && |value| == |key| && key[0] !in s[p].children
    ensures Tree(LeafShape(s, p, leaf, key, value, kv), info[leaf := info[p].Extend(key, value, kv)], root)
  {
    hide Spelled.Extend, LeafShape, Linked, ChildLinked;
    var s', info' := LeafShape(s, p, leaf, key, value, kv), info[leaf := info[p].Extend(key, value, kv)];
    LeafFields(s, p, leaf, key, value, kv);
    forall n | n in s' && n != root
      ensures Linked(s', info', n)
    {
      LeafLinked(s, info, root, p, leaf, key, value, kv, n);
    }
    forall n, t | n in s' && t in s'[n].children
      ensures ChildLinked(s', root, n, t)
    {
      LeafChildLinked(s, root, p, leaf, key, value, kv, n, t);
    }
  }

  lemma LeafFields(s: Shape, p: TreeNode, leaf: TreeNode, key: seq<Token>, value: seq<Position>, kv: seq<KV>)
    requires p in s && leaf !in s && key != []
    ensures var s' := LeafShape(s, p, leaf, key, value, kv);
            && s'.Keys == s.Keys + {leaf}
            && s'[leaf] == Fields(map[], p, key, value, kv)
            && s'[p] == s[p].(children := s[p].children[key[0] := leaf])
            && forall n :: n in s && n != p ==> s'[n] == s[n]
  {
  }

  lemma LeafLinked(s: Shape, info: Info, root: TreeNode, p: TreeNode, leaf: TreeNode, key: seq<Token>, value: seq<Position>, kv: seq<KV>, n: TreeNode)
    requires p in s && leaf !in s && s.Keys == info.Keys
    requires key != [] && |value| == |key| && key[0] !in s[p].children
    requires n == leaf || (n in s && Linked(s, info, n))
    ensures LeafShape(s, p, leaf, key, value, kv).Keys == s.Keys + {leaf}
    ensures Linked(LeafShape(s, p, leaf, key, value, kv), info[leaf := info[p].Extend(key, value, kv)], n)
  {
    hide Spelled.Extend;
  }

  lemma LeafChildLinked(s: Shape, root: TreeNode, p: TreeNode, leaf: TreeNode, key: seq<Token>, value: seq<Position>, kv: seq<KV>, n: TreeNode, t: Token)
    requires p in s && leaf !in s && root in s && key != []
    requires n in LeafShape(s, p, leaf, key, value, kv) && t in LeafShape(s, p, leaf, key, value, kv)[n].children
    requires n in s && t in s[n].children ==> ChildLinked(s, root, n, t)
    ensures ChildLinked(LeafShape(s, p, leaf, key, value, kv), root, n, t)
  {
  }

  /** The shape without the leaf `x`. */
  ghost function PrunedShape(s: Shape, x: TreeNode): Shape
    requires x in s && s[x].parent != null && s[x].parent in s && s[x].key != []
  {
    var p := s[x].parent;
    s[p := s[p].(children := s[p].children - {s[x].key[0]})] - {x}
  }

  lemma PruneTree(s: Shape, info: Info, root: TreeNode, x: TreeNode)
    requires Tree(s, info, root) && x in s && x != root && s[x].children == map[] && Linked(s, info, x)
    ensures Tree(PrunedShape(s, x), info - {x}, root)
  {
    hide Spelled.Extend, PrunedShape, ChildLinked;
    var s', info' := PrunedShape(s, x), info - {x};
    NotOwnParent(s, info, root, x);
    PrunedFields(s, x);
    forall n | n in s' && n != root
      ensures Linked(s', info', n)
    {
      PrunedLinked(s, info, x, n);
    }
    forall n, t | n in s' && t in s'[n].children
      ensures ChildLinked(s', root, n, t)
    {
      PrunedChildLinked(s, info, root, x, n, t);
    }
  }

  lemma PrunedFields(s: Shape, x: TreeNode)
    requires x in s && s[x].parent != null && s[x].parent in s && s[x].key != [] && s[x].parent != x
    ensures var s', p := PrunedShape(s, x), s[x].parent;
            && s'.Keys == s.Keys - {x}
            && s'[p] == s[p].(children := s[p].children - {s[x].key[0]})
            && forall n :: n in s && n != p && n != x ==> s'[n] == s[n]
  {
  }

  lemma PrunedLinked(s: Shape, info: Info, x: TreeNode, n: TreeNode)
    requires s.Keys == info.Keys && x in s && Linked(s, info, x) && s[x].children == map[] && s[x].parent != x
    requires n in s && n != x && Linked(s, info, n)
    ensures PrunedShape(s, x).Keys == s.Keys - {x}
    ensures Linked(PrunedShape(s, x), info - {x}, n)
  {
    hide Spelled.Extend;
    assert s[n].parent != x;
  }

  lemma PrunedChildLinked(s: Shape, info: Info, root: TreeNode, x: TreeNode, n: TreeNode, t: Token)
    requires s.Keys == info.Keys && x in s && x != root && Linked(s, info, x) && s[x].parent != x
    requires n in PrunedShape(s, x) && t in PrunedShape(s, x)[n].children
    requires n in s && t in s[n].children ==> ChildLinked(s, root, n, t)
    ensures ChildLinked(PrunedShape(s, x), root, n, t)
  {
    hide Spelled.Extend;
    assert n in s && t in s[n].children;
  }

  /** Tokens a node contributes to the locked, or to the unlocked, total; the root contributes to neither. */
  ghost function Weight(s: Shape, locks: map<TreeNode, int>, root: TreeNode, locked: bool, n: TreeNode): nat
    requires n in s && n in locks
  {
    if n != root && (locks[n] > 0) == locked then |s[n].value| else 0
  }

  ghost function Weights(s: Shape, locks: map<TreeNode, int>, root: TreeNode, locked: bool): (w: map<TreeNode, nat>)
    requires s.Keys <= locks.Keys
    ensures w.Keys == s.Keys && forall n :: n in s ==> w[n] == Weight(s, locks, root, locked, n)
  {
    map n | n in s :: Weight(s, locks, root, locked, n)
  }

  /** A set with the root and closed under children holds all nodes. */
  lemma {:induction false} ClosedHoldsAll(s: Shape, info: Info, root: TreeNode, seen: set<TreeNode>, n: TreeNode)
    requires Tree(s, info, root) && root in seen && n in s
    requires forall m :: m in s && m != root && s[m].parent in seen ==> m in seen
    ensures n in seen
    decreases |info[n].path|
  {
    if n != root {
      PathGrows(s, info, root, n);
      assert Linked(s, info, n);
      ClosedHoldsAll(s, info, root, seen, s[n].parent);
    }
  }

  /** Some nodes are done, the rest of the tree hangs below the pending ones. */
  ghost predicate Sweep(s: Shape, root: TreeNode, done: set<TreeNode>, pending: seq<TreeNode>) {
    && done <= s.Keys
    && (forall n :: n in pending ==> n in s && n !in done)
    && NoRepeats(pending)
    && (root in done || root in pending)
    && (forall n :: n in s && n != root ==> (s[n].parent in done <==> n in done || n in pending))
  }

  lemma DistinctConcat(a: seq<TreeNode>, b: seq<TreeNode>)
    requires NoRepeats(a) && NoRepeats(b) && forall x :: x in a ==> x !in b
    ensures NoRepeats(a + b)
  {
    forall i, j | 0 <= i < j < |a + b|
      ensures (a + b)[i] != (a + b)[j]
    {
      assert j < |a| || (a + b)[j] in b;
      assert i >= |a| || (a + b)[i] in a;
    }
  }

  lemma DropLast(pending: seq<TreeNode>)
    requires NoRepeats(pending) && pending != []
    ensures var n, rest := pending[|pending| - 1], pending[..|pending| - 1];
            NoRepeats(rest) && n !in rest && forall m :: m in pending <==> m in rest || m == n
  {
    assert pending == pending[..|pending| - 1] + [pending[|pending| - 1]];
  }

  /** Taking the last pending node and adding its children keeps the sweep. */
  lemma SweepStep(s: Shape, root: TreeNode, done: set<TreeNode>, pending: seq<TreeNode>, kids: seq<TreeNode>)
    requires Sweep(s, root, done, pending) && pending != [] && NoRepeats(kids)
    requires forall c :: c in kids <==> c in s && c != root && s[c].parent == pending[|pending| - 1]
    requires s[pending[|pending| - 1]].parent != pending[|pending| - 1] || pending[|pending| - 1] == root
    ensures Sweep(s, root, done + {pending[|pending| - 1]}, pending[..|pending| - 1] + kids)
  {
    var n := pending[|pending| - 1];
    var rest := pending[..|pending| - 1];
    DropLast(pending);
    DistinctConcat(rest, kids);
    assert forall m :: m in rest + kids <==> m in rest || m in kids;
  }

  lemma SweepStart(s: Shape, info: Info, root: TreeNode)
    requires Tree(s, info, root)
    ensures Sweep(s, root, {}, [root])
  {
    forall n | n in s && n != root
      ensures s[n].parent !in {}
    {
    }
  }

  lemma SweepFacts(s: Shape, root: TreeNode, done: set<TreeNode>, pending: seq<TreeNode>)
    requires Sweep(s, root, done, pending)
    ensures done <= s.Keys && NoRepeats(pending)
    ensures forall n :: n in pending ==> n in s && n !in done
  {
  }

  lemma SweepDone(s: Shape, info: Info, root: TreeNode, done: set<TreeNode>)
    requires Tree(s, info, root) && Sweep(s, root, done, [])
    ensures done == s.Keys
  {
    forall n | n in s
      ensures n in done
    {
      ClosedHoldsAll(s, info, root, done, n);
    }
  }
}
