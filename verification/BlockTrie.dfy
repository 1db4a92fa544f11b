/** The shape of the block trie: nodes of whole token blocks, at most one child per first token. */
module BlockTrie {

  type Token = int

  class BlockNode {
    const block: int
    const tokens: seq<Token>
    var children: map<Token, BlockNode>
    var parent: BlockNode?
    var lockRef: int
    var lastAccess: int

    constructor (block: int, tokens: seq<Token>, parent: BlockNode?, now: int)
      ensures this.block == block && this.tokens == tokens && this.parent == parent
      ensures children == map[] && lockRef == 0 && lastAccess == now
    {
      this.block, this.tokens, this.parent := block, tokens, parent;
      children, lockRef, lastAccess := map[], 0, now;
    }
  }

  datatype Links = Links(children: map<Token, BlockNode>, parent: BlockNode?)

  type Shape = map<BlockNode, Links>

  /** The nodes that can be reached, each with the blocks on its path. */
  type Paths = map<BlockNode, seq<seq<Token>>>

  ghost function ShapeOf(nodes: set<BlockNode>): (s: Shape)
    reads nodes
    ensures s.Keys == nodes
  {
    map n | n in nodes :: Links(n.children, n.parent)
  }

  /** A node hangs below its parent under its first token, and its path adds its block. */
  ghost predicate Hung(s: Shape, paths: Paths, n: BlockNode)
    requires n in s && s.Keys == paths.Keys
  {
    && n.tokens != [] && s[n].parent != null && s[n].parent in s
    && n.tokens[0] in s[s[n].parent].children && s[s[n].parent].children[n.tokens[0]] == n
    && paths[n] == paths[s[n].parent] + [n.tokens]
  }

  /** A node's children are reachable, filed under their first token, and know their parent. */
  ghost predicate Fathers(s: Shape, n: BlockNode)
    requires n in s
  {
    forall t :: t in s[n].children ==>
      var c := s[n].children[t];
      c in s && s[c].parent == n && c.tokens != [] && c.tokens[0] == t
  }

  ghost predicate Tree(s: Shape, paths: Paths, root: BlockNode, size: nat) {
    && s.Keys == paths.Keys && root in s && s[root].parent == null && paths[root] == []
    && (forall n :: n in s && n != root ==> Hung(s, paths, n) && |n.tokens| == size)
    && (forall n :: n in s ==> Fathers(s, n))
  }

  /** No two reachable nodes have the same path. */
  lemma {:induction false} OnePath(s: Shape, paths: Paths, root: BlockNode, size: nat, m: BlockNode, n: BlockNode)
    requires Tree(s, paths, root, size) && m in s && n in s && paths[m] == paths[n]
    ensures m == n
    decreases |paths[m]|
  {
    RootPath(s, paths, root, size, m);
    RootPath(s, paths, root, size, n);
    if m != root && n != root {
      assert Hung(s, paths, m) && Hung(s, paths, n);
      var p, q := s[m].parent, s[n].parent;
      assert paths[m][..|paths[m]| - 1] == paths[p] && paths[n][..|paths[n]| - 1] == paths[q];
      assert paths[m][|paths[m]| - 1] == m.tokens && paths[n][|paths[n]| - 1] == n.tokens;
      OnePath(s, paths, root, size, p, q);
    }
  }

  lemma RootPath(s: Shape, paths: Paths, root: BlockNode, size: nat, n: BlockNode)
    requires Tree(s, paths, root, size) && n in s
    ensures paths[n] == [] <==> n == root
  {
    assert n != root ==> Hung(s, paths, n);
  }

  lemma PrefixOfPrefix<T>(a: seq<T>, b: seq<T>, c: seq<T>)
    requires b <= c
    ensures a <= b ==> a <= c
  {
  }

  /** A child is reachable and adds its block to the path. */
  lemma ChildPath(s: Shape, paths: Paths, root: BlockNode, size: nat, n: BlockNode, t: Token)
    requires Tree(s, paths, root, size) && n in s && t in s[n].children
    ensures var c := s[n].children[t];
            c in s && c != root && c.tokens != [] && c.tokens[0] == t && s[c].parent == n && Hung(s, paths, c) && paths[c] == paths[n] + [c.tokens]
  {
    assert Fathers(s, n);
  }

  /** Stored paths are closed under prefixes. */
  lemma {:induction false} Ancestor(s: Shape, paths: Paths, root: BlockNode, size: nat, n: BlockNode, k: nat) returns (m: BlockNode)
    requires Tree(s, paths, root, size) && n in s && k <= |paths[n]|
    ensures m in s && paths[m] == paths[n][..k]
    decreases |paths[n]|
  {
    if k == |paths[n]| {
      assert paths[n][..k] == paths[n];
      m := n;
    } else {
      assert n != root;
      assert Hung(s, paths, n);
      assert paths[n][..|paths[n]| - 1] == paths[s[n].parent];
      m := Ancestor(s, paths, root, size, s[n].parent, k);
      assert paths[n][..k] == paths[n][..|paths[n]| - 1][..k];
    }
  }

  ghost predicate Stored(paths: Paths, p: seq<seq<Token>>) {
    exists n :: n in paths && paths[n] == p
  }

  /** The child that would take one more block, if the block is stored there. */
  lemma NextStored(s: Shape, paths: Paths, root: BlockNode, size: nat, n: BlockNode, b: seq<Token>)
    requires Tree(s, paths, root, size) && n in s && b != []
    ensures Stored(paths, paths[n] + [b]) <==> b[0] in s[n].children && s[n].children[b[0]].tokens == b
    ensures b[0] in s[n].children && s[n].children[b[0]].tokens == b ==>
              s[n].children[b[0]] in s && paths[s[n].children[b[0]]] == paths[n] + [b]
  {
    if b[0] in s[n].children {
      ChildPath(s, paths, root, size, n, b[0]);
    }
    if Stored(paths, paths[n] + [b]) {
      var m :| m in paths && paths[m] == paths[n] + [b];
      RootPath(s, paths, root, size, m);
      assert Hung(s, paths, m);
      assert paths[m][..|paths[m]| - 1] == paths[n] && paths[m][..|paths[m]| - 1] == paths[s[m].parent];
      assert paths[m][|paths[m]| - 1] == b;
      OnePath(s, paths, root, size, n, s[m].parent);
    }
  }

  /** A path that is not stored has no stored extension. */
  lemma NoLonger(s: Shape, paths: Paths, root: BlockNode, size: nat, p: seq<seq<Token>>, k: nat)
    requires Tree(s, paths, root, size) && k <= |p| && !Stored(paths, p[..k])
    ensures !Stored(paths, p)
  {
    if Stored(paths, p) {
      var n :| n in paths && paths[n] == p;
      var m := Ancestor(s, paths, root, size, n, k);
      assert false;
    }
  }

  /** The paths that do not go through `cut`. */
  ghost function Avoiding(paths: Paths, cut: seq<seq<Token>>): (r: Paths)
    ensures r.Keys <= paths.Keys
    ensures forall n :: n in paths ==> (n in r <==> !(cut <= paths[n])) && (n in r ==> r[n] == paths[n])
  {
    map n | n in paths && !(cut <= paths[n]) :: paths[n]
  }

  /** What putting `fresh` under `p` makes of the reachable nodes: a sibling with the same first token is cut off. */
  ghost function PlacedPaths(s: Shape, paths: Paths, p: BlockNode, leaf: BlockNode): Paths
    requires p in s && p in paths && leaf.tokens != []
  {
    var t := leaf.tokens[0];
    var rest := if t in s[p].children && s[p].children[t] in paths then Avoiding(paths, paths[s[p].children[t]]) else paths;
    rest[leaf := paths[p] + [leaf.tokens]]
  }

  ghost function PlacedShape(s: Shape, paths: Paths, p: BlockNode, leaf: BlockNode): Shape
    requires s.Keys == paths.Keys && p in s && leaf.tokens != []
  {
    var after := PlacedPaths(s, paths, p, leaf);
    map n | n in after ::
      if n == leaf then Links(map[], p)
      else if n == p then s[p].(children := s[p].children[leaf.tokens[0] := leaf])
      else if n in s then s[n] else Links(map[], p)
  }

  lemma PlacedTree(s: Shape, paths: Paths, root: BlockNode, size: nat, p: BlockNode, leaf: BlockNode)
    requires Tree(s, paths, root, size) && p in s && leaf !in s && |leaf.tokens| == size > 0
    ensures Tree(PlacedShape(s, paths, p, leaf), PlacedPaths(s, paths, p, leaf), root, size)
  {
    var t, s', after := leaf.tokens[0], PlacedShape(s, paths, p, leaf), PlacedPaths(s, paths, p, leaf);
    Kept(s, paths, root, size, p, leaf, root);
    Kept(s, paths, root, size, p, leaf, p);
    forall n | n in s' && n != root
      ensures Hung(s', after, n) && |n.tokens| == size
    {
      if n != leaf {
        PlacedHung(s, paths, root, size, p, leaf, n);
      }
    }
    forall n | n in s'
      ensures Fathers(s', n)
    {
      if n != leaf {
        PlacedFathers(s, paths, root, size, p, leaf, n);
      }
    }
  }

  /** The parent and the root are not cut off. */
  lemma Kept(s: Shape, paths: Paths, root: BlockNode, size: nat, p: BlockNode, leaf: BlockNode, n: BlockNode)
    requires Tree(s, paths, root, size) && p in s && leaf !in s && leaf.tokens != [] && (n == root || n == p)
    ensures n in PlacedPaths(s, paths, p, leaf) && PlacedPaths(s, paths, p, leaf)[n] == paths[n]
  {
    var t := leaf.tokens[0];
    if t in s[p].children {
      assert Fathers(s, p);
      var c := s[p].children[t];
      assert c != root && Hung(s, paths, c);
    }
  }

  lemma PlacedLinks(s: Shape, paths: Paths, p: BlockNode, leaf: BlockNode, n: BlockNode)
    requires s.Keys == paths.Keys && p in s && leaf !in s && leaf.tokens != [] && n in PlacedShape(s, paths, p, leaf) && n != leaf
    ensures PlacedShape(s, paths, p, leaf).Keys == PlacedPaths(s, paths, p, leaf).Keys
    ensures n in s && PlacedShape(s, paths, p, leaf)[n] == if n == p then s[p].(children := s[p].children[leaf.tokens[0] := leaf]) else s[n]
    ensures n in PlacedPaths(s, paths, p, leaf) && PlacedPaths(s, paths, p, leaf)[n] == paths[n]
  {
  }

  lemma CutOff(s: Shape, paths: Paths, p: BlockNode, leaf: BlockNode, n: BlockNode)
    requires s.Keys == paths.Keys && p in s && leaf !in s && leaf.tokens != [] && n in s
    ensures var t := leaf.tokens[0];
            n in PlacedPaths(s, paths, p, leaf) <==> !(t in s[p].children && s[p].children[t] in paths && paths[s[p].children[t]] <= paths[n])
  {
  }

  lemma PlacedHung(s: Shape, paths: Paths, root: BlockNode, size: nat, p: BlockNode, leaf: BlockNode, n: BlockNode)
    requires Tree(s, paths, root, size) && p in s && leaf !in s && |leaf.tokens| == size > 0
    requires n in PlacedShape(s, paths, p, leaf) && n != root && n != leaf
    ensures Hung(PlacedShape(s, paths, p, leaf), PlacedPaths(s, paths, p, leaf), n)
  {
    hide PlacedShape, PlacedPaths, Fathers;
    PlacedLinks(s, paths, p, leaf, n);
    assert Hung(s, paths, n);
    var t, q := leaf.tokens[0], s[n].parent;
    CutOff(s, paths, p, leaf, n);
    CutOff(s, paths, p, leaf, q);
    if t in s[p].children {
      ChildPath(s, paths, root, size, p, t);
      PrefixOfPrefix(paths[s[p].children[t]], paths[q], paths[n]);
    }
    assert q in PlacedShape(s, paths, p, leaf);
    PlacedLinks(s, paths, p, leaf, q);
  }

  lemma PlacedFathers(s: Shape, paths: Paths, root: BlockNode, size: nat, p: BlockNode, leaf: BlockNode, n: BlockNode)
    requires Tree(s, paths, root, size) && p in s && leaf !in s && |leaf.tokens| == size > 0
    requires n in PlacedShape(s, paths, p, leaf) && n != leaf
    ensures Fathers(PlacedShape(s, paths, p, leaf), n)
  {
    hide PlacedShape, PlacedPaths;
    var s', t := PlacedShape(s, paths, p, leaf), leaf.tokens[0];
    PlacedLinks(s, paths, p, leaf, n);
    LeafPlaced(s, paths, p, leaf);
    forall u | u in s'[n].children
      ensures var c := s'[n].children[u]; c in s' && s'[c].parent == n && c.tokens != [] && c.tokens[0] == u
    {
      if s'[n].children[u] != leaf {
        var c := s[n].children[u];
        ChildPath(s, paths, root, size, n, u);
        CutOff(s, paths, p, leaf, n);
        CutOff(s, paths, p, leaf, c);
        if t in s[p].children {
          ChildPath(s, paths, root, size, p, t);
          if paths[s[p].children[t]] <= paths[c] && !(paths[s[p].children[t]] <= paths[n]) {
            SiblingStays(s, paths, root, size, p, t, n, u);
          }
        }
        assert c in s';
        PlacedLinks(s, paths, p, leaf, c);
      }
    }
  }

  lemma LeafPlaced(s: Shape, paths: Paths, p: BlockNode, leaf: BlockNode)
    requires s.Keys == paths.Keys && p in s && leaf !in s && leaf.tokens != []
    ensures leaf in PlacedShape(s, paths, p, leaf) && PlacedShape(s, paths, p, leaf)[leaf] == Links(map[], p)
    ensures PlacedShape(s, paths, p, leaf).Keys == PlacedPaths(s, paths, p, leaf).Keys
  {
  }

  /** Below a node that is not cut off, only the cut child itself is cut off. */
  lemma SiblingStays(s: Shape, paths: Paths, root: BlockNode, size: nat, p: BlockNode, t: Token, n: BlockNode, u: Token)
    requires Tree(s, paths, root, size) && p in s && t in s[p].children && n in s && u in s[n].children
    requires s[p].children[t] in s && s[n].children[u] in s
    requires paths[s[p].children[t]] <= paths[s[n].children[u]] && !(paths[s[p].children[t]] <= paths[n])
    ensures n == p && u == t
  {
    var cut, c := s[p].children[t], s[n].children[u];
    ChildPath(s, paths, root, size, p, t);
    ChildPath(s, paths, root, size, n, u);
    assert paths[cut] == paths[c];
    OnePath(s, paths, root, size, cut, c);
  }

  /** Removing a childless node. */
  ghost function PrunedShape(s: Shape, x: BlockNode): Shape
    requires x in s && s[x].parent != null && x.tokens != []
  {
    map n | n in s && n != x :: if n == s[x].parent then s[n].(children := s[n].children - {x.tokens[0]}) else s[n]
  }

  lemma PrunedTree(s: Shape, paths: Paths, root: BlockNode, size: nat, x: BlockNode)
    requires Tree(s, paths, root, size) && x in s && x != root && s[x].children == map[] && Hung(s, paths, x)
    ensures Tree(PrunedShape(s, x), paths - {x}, root, size)
  {
    var s', after := PrunedShape(s, x), paths - {x};
    forall n | n in s' && n != root
      ensures Hung(s', after, n) && |n.tokens| == size
    {
      PrunedHung(s, paths, root, size, x, n);
    }
    forall n | n in s'
      ensures Fathers(s', n)
    {
      PrunedFathers(s, paths, root, size, x, n);
    }
  }

  lemma PrunedHung(s: Shape, paths: Paths, root: BlockNode, size: nat, x: BlockNode, n: BlockNode)
    requires Tree(s, paths, root, size) && x in s && x != root && s[x].children == map[] && Hung(s, paths, x)
    requires n in s && n != x && n != root
    ensures Hung(PrunedShape(s, x), paths - {x}, n) && |n.tokens| == size
  {
    hide Fathers;
    assert Hung(s, paths, n);
  }

  lemma PrunedFathers(s: Shape, paths: Paths, root: BlockNode, size: nat, x: BlockNode, n: BlockNode)
    requires Tree(s, paths, root, size) && x in s && x != root && s[x].children == map[] && Hung(s, paths, x)
    requires n in s && n != x
    ensures Fathers(PrunedShape(s, x), n)
  {
    assert Fathers(s, n);
  }
}
