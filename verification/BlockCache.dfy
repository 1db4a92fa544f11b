/** The block-granular prefix cache: matching, insertion, locks held by requests, and eviction. */
module BlockCache {
  import opened Hosts
  import opened BlockTrie
  import opened Totals
  import opened Sequences

  /** How often each request holds a node. */
  ghost function HoldsOf(live: map<string, seq<BlockNode>>, n: BlockNode): (r: map<string, nat>)
    ensures r.Keys == live.Keys
  {
    map id | id in live :: multiset(live[id])[n]
  }

  /** How often live registrations hold a node. */
  ghost function Held(live: map<string, seq<BlockNode>>, n: BlockNode): nat {
    Total(HoldsOf(live, n))
  }

  /** Requests hold only nodes from a given set. */
  ghost predicate Registered(live: map<string, seq<BlockNode>>, all: set<BlockNode>) {
    forall id, n :: id in live && n in live[id] ==> n in all
  }

  /** The blocks counted are those of the reachable nodes but the root, and of the stranded ones. */
  ghost predicate Sized(count: int, reachable: set<BlockNode>, stranded: set<BlockNode>, all: set<BlockNode>) {
    count == |reachable| - 1 + |stranded| && stranded <= all && stranded !! reachable
  }

  lemma HeldMore(live: map<string, seq<BlockNode>>, id: string, nodes: seq<BlockNode>, n: BlockNode)
    requires id !in live
    ensures Held(live[id := nodes], n) == Held(live, n) + multiset(nodes)[n]
  {
    hide Total;
    TotalInsert(HoldsOf(live, n), id, multiset(nodes)[n]);
    assert HoldsOf(live[id := nodes], n) == HoldsOf(live, n)[id := multiset(nodes)[n]];
  }

  lemma HeldLess(live: map<string, seq<BlockNode>>, id: string, n: BlockNode)
    requires id in live
    ensures Held(live - {id}, n) == Held(live, n) - multiset(live[id])[n]
  {
    hide Total;
    assert HoldsOf(live - {id}, n) == HoldsOf(live, n) - {id};
    TotalRemove(HoldsOf(live, n), id);
  }

  lemma HeldInstead(live: map<string, seq<BlockNode>>, id: string, nodes: seq<BlockNode>, n: BlockNode)
    requires id in live
    ensures Held(live[id := nodes], n) + multiset(live[id])[n] == Held(live, n) + multiset(nodes)[n]
  {
    hide Held;
    HeldLess(live, id, n);
    HeldMore(live - {id}, id, nodes, n);
    assert (live - {id})[id := nodes] == live[id := nodes];
  }

  /** Registering nodes under an id, and orphaning what the id held before, adds exactly the new holds. */
  lemma HeldAfter(live: map<string, seq<BlockNode>>, id: string, nodes: seq<BlockNode>, orphaned: multiset<BlockNode>, all: set<BlockNode>)
    ensures var left := orphaned + if id in live then multiset(live[id]) else multiset{};
            forall n :: n in all ==> Held(live[id := nodes], n) + left[n] == Held(live, n) + orphaned[n] + multiset(nodes)[n]
  {
    hide Held;
    forall n | n in all
      ensures var left := orphaned + if id in live then multiset(live[id]) else multiset{};
              Held(live[id := nodes], n) + left[n] == Held(live, n) + orphaned[n] + multiset(nodes)[n]
    {
      if id in live {
        HeldInstead(live, id, nodes, n);
      } else {
        HeldMore(live, id, nodes, n);
      }
    }
  }

  lemma HeldBy(live: map<string, seq<BlockNode>>, id: string, n: BlockNode)
    requires id in live && n in live[id]
    ensures Held(live, n) > 0
  {
    HeldLess(live, id, n);
  }

  /** The tokens cut into whole blocks; a rest that fills no block is dropped. */
  function BlocksOf(tokens: seq<Token>, size: nat, k: nat): (r: seq<seq<Token>>)
    requires size > 0 && k * size <= |tokens|
    ensures |r| == k && forall i :: 0 <= i < k ==> |r[i]| == size
    decreases k
  {
    if k == 0 then []
    else
      assert k * size == (k - 1) * size + size;
      BlocksOf(tokens, size, k - 1) + [tokens[(k - 1) * size..k * size]]
  }

  /** The least index with the oldest access. */
  method Oldest(heap: seq<BlockNode>) returns (at: nat)
    requires heap != []
    ensures at < |heap| && forall k :: 0 <= k < |heap| ==> heap[at].lastAccess <= heap[k].lastAccess
  {
    at := 0;
    for k := 1 to |heap|
      invariant at < k && forall j :: 0 <= j < k ==> heap[at].lastAccess <= heap[j].lastAccess
    {
      if heap[k].lastAccess < heap[at].lastAccess {
        at := k;
      }
    }
  }

  /** The children of a node, in some order. */
  method ChildList(n: BlockNode) returns (kids: seq<BlockNode>)
    requires forall t :: t in n.children ==> n.children[t].tokens != [] && n.children[t].tokens[0] == t
    ensures NoRepeats(kids)
    ensures forall c :: c in kids ==> c.tokens != [] && c.tokens[0] in n.children && n.children[c.tokens[0]] == c
    ensures forall t :: t in n.children ==> n.children[t] in kids
  {
    kids := [];
    var rest := n.children.Keys;
    while rest != {}
      invariant rest <= n.children.Keys && NoRepeats(kids)
      invariant forall c :: c in kids ==> c.tokens != [] && c.tokens[0] in n.children && n.children[c.tokens[0]] == c && c.tokens[0] !in rest
      invariant forall t :: t in n.children && t !in rest ==> n.children[t] in kids
    {
      ghost var _ := Totals.Element(rest);
      var t :| t in rest;
      assert forall k :: 0 <= k < |kids| ==> kids[k] in kids && kids[k] != n.children[t];
      kids, rest := kids + [n.children[t]], rest - {t};
    }
  }

  function BlockIds(nodes: seq<BlockNode>): (r: seq<int>)
    ensures |r| == |nodes| && forall k :: 0 <= k < |r| ==> r[k] == nodes[k].block
  {
    seq(|nodes|, k requires 0 <= k < |nodes| => nodes[k].block)
  }

  /** Where block ids are distinct, each evicted block is reported once and no block of a held node is. */
  lemma ReportedOnce(nodes: set<BlockNode>, live: map<string, seq<BlockNode>>, gone: seq<BlockNode>)
    requires forall m, n :: m in nodes && n in nodes && m.block == n.block ==> m == n
    requires NoRepeats(gone) && forall x :: x in gone ==> x in nodes && Held(live, x) == 0
    ensures NoRepeats(BlockIds(gone))
    ensures forall id, n :: id in live && n in live[id] && n in nodes ==> n.block !in BlockIds(gone)
  {
    hide Held;
    forall a, b | 0 <= a < b < |gone|
      ensures BlockIds(gone)[a] != BlockIds(gone)[b]
    {
      assert gone[a] in gone && gone[b] in gone;
    }
    forall id, n | id in live && n in live[id] && n in nodes
      ensures n.block !in BlockIds(gone)
    {
      HeldBy(live, id, n);
      forall k | 0 <= k < |gone|
        ensures BlockIds(gone)[k] != n.block
      {
        assert gone[k] in gone;
      }
    }
  }

  class Cache {
    const size: nat
    const maxBlocks: nat
    const root: BlockNode
    var numCached: int
    var live: map<string, seq<BlockNode>>
    /** The block ids handed to the eviction callback. */
    var freed: seq<int>
    ghost var paths: Paths
    /** Nodes an insertion cut off: no longer reachable, but still counted and never reported. */
    ghost var stranded: set<BlockNode>
    /** Locks that no live request will take back. */
    ghost var orphaned: multiset<BlockNode>
    /** Every node ever made, reachable or not. */
    ghost var all: set<BlockNode>

    constructor (size: nat, maxBlocks: nat)
      requires size > 0
      ensures Valid() && fresh(all) && live == map[] && freed == [] && numCached == 0
      ensures this.size == size && this.maxBlocks == maxBlocks && paths == map[root := []]
      ensures stranded == {} && orphaned == multiset{}
    {
      this.size, this.maxBlocks := size, maxBlocks;
      root := new BlockNode(-1, [], null, 0);
      numCached, live, freed := 0, map[], [];
      stranded, orphaned := {}, multiset{};
      new;
      root.lockRef := 1;
      paths, all := map[root := []], {root};
    }

    /**
     * The reachable nodes form a trie, a node's lock count is how often live requests hold it and how
     * often it was orphaned, and the block count is that of reachable and stranded nodes.
     */
    ghost predicate Valid()
      reads this, all
    {
      && size > 0 && root in all && paths.Keys <= all
      && Tree(ShapeOf(paths.Keys), paths, root, size)
      && Registered(live, all)
      && Counted()
      && Sized(numCached, paths.Keys, stranded, all)
    }

    ghost predicate Counted()
      reads this`live, this`orphaned, this`all, all`lockRef
    {
      forall n :: n in all && n != root ==> n.lockRef == Held(live, n) + orphaned[n]
    }

    method Touch(n: BlockNode, now: int)
      requires Valid() && n in all
      modifies n`lastAccess
      ensures Valid() && n.lastAccess == now
    {
      hide Tree, Held;
      ghost var s := ShapeOf(paths.Keys);
      n.lastAccess := now;
      assert ShapeOf(paths.Keys) == s;
    }

    /** The child that holds the next block, if there is one. */
    method Descend(current: BlockNode, block: seq<Token>) returns (next: BlockNode?)
      requires Valid() && current in paths && block != []
      ensures next != null <==> Stored(paths, paths[current] + [block])
      ensures next != null ==> next in paths && paths[next] == paths[current] + [block]
    {
      hide Tree, Held, Stored;
      NextStored(ShapeOf(paths.Keys), paths, root, size, current, block);
      if block[0] !in current.children {
        return null;
      }
      if current.children[block[0]].tokens != block {
        return null;
      }
      next := current.children[block[0]];
    }

    /** The ids of the blocks on the longest stored path the tokens spell, block by block; its nodes count as used now. */
    method MatchPrefix(tokens: seq<Token>, now: int) returns (blocks: seq<int>, matched: nat, ghost nodes: seq<BlockNode>)
      requires Valid()
      modifies all`lastAccess
      ensures Valid()
      ensures matched == |blocks| * size <= |tokens| && blocks == BlockIds(nodes)
      ensures OnPath(paths, nodes, BlocksOf(tokens, size, |blocks|)) && Stored(paths, BlocksOf(tokens, size, |blocks|))
      ensures forall k: nat :: k * size <= |tokens| && Stored(paths, BlocksOf(tokens, size, k)) ==> k <= |blocks|
      ensures forall n :: n in all ==> n.lastAccess == if n in nodes then now else old(n.lastAccess)
    {
      hide Tree, Held, Stored, BlockIds, Valid, OnPath;
      blocks, matched, nodes := [], 0, [];
      var current := root;
      StartMatch(tokens);
      while matched + size <= |tokens|
        invariant matched == |blocks| * size <= |tokens| && blocks == BlockIds(nodes)
        invariant Valid() && size > 0
        invariant current in paths && current in all && paths[current] == BlocksOf(tokens, size, |blocks|)
        invariant OnPath(paths, nodes, BlocksOf(tokens, size, |blocks|)) && Stored(paths, BlocksOf(tokens, size, |blocks|))
        invariant forall n :: n in all ==> n.lastAccess == if n in nodes then now else old(n.lastAccess)
        decreases |tokens| - matched
      {
        var block := tokens[matched..matched + size];
        BlocksNext(tokens, size, |blocks|);
        var next := Descend(current, block);
        if next == null {
          Longest(tokens, |blocks|);
          return;
        }
        PathGrows(paths, nodes, BlocksOf(tokens, size, |blocks|), block, next);
        current := next;
        blocks, matched, nodes := blocks + [current.block], matched + size, nodes + [current];
        Reachable(current);
        Touch(current, now);
      }
      NoMoreBlocks(|blocks|, |tokens|);
      Longest(tokens, |blocks|);
    }

    /** Counts every occurrence of a node other than the root, and counts those nodes as used now. */
    method IncreaseLockRef(nodes: seq<BlockNode>, now: int)
      requires forall n :: n in nodes ==> n in all
      modifies all`lockRef, all`lastAccess
      ensures forall n :: n in all && n != root ==> n.lockRef == old(n.lockRef) + multiset(nodes)[n]
      ensures forall n :: n in all ==> n.lastAccess == if n in nodes && n != root then now else old(n.lastAccess)
    {
      for k := 0 to |nodes|
        invariant forall n :: n in all && n != root ==> n.lockRef == old(n.lockRef) + multiset(nodes[..k])[n]
        invariant forall n :: n in all ==> n.lastAccess == if n in nodes[..k] && n != root then now else old(n.lastAccess)
      {
        var n := nodes[k];
        assert nodes[..k + 1] == nodes[..k] + [n];
        if n != root {
          n.lockRef := n.lockRef + 1;
          n.lastAccess := now;
        }
      }
      assert nodes[..|nodes|] == nodes;
    }

    /** Takes every occurrence back, never going below zero. */
    method DecreaseLockRef(nodes: seq<BlockNode>)
      requires forall n :: n in nodes ==> n in all
      modifies all`lockRef
      ensures forall n :: n in all && n != root && old(n.lockRef) >= 0 ==>
                n.lockRef == if old(n.lockRef) >= multiset(nodes)[n] then old(n.lockRef) - multiset(nodes)[n] else 0
    {
      for k := 0 to |nodes|
        invariant forall n :: n in all && n != root && old(n.lockRef) >= 0 ==>
                    n.lockRef == if old(n.lockRef) >= multiset(nodes[..k])[n] then old(n.lockRef) - multiset(nodes[..k])[n] else 0
      {
        var n := nodes[k];
        assert nodes[..k + 1] == nodes[..k] + [n];
        if n != root {
          if n.lockRef > 0 {
            n.lockRef := n.lockRef - 1;
          }
        }
      }
      assert nodes[..|nodes|] == nodes;
    }

    /** A request takes hold of nodes it uses. What it held before under the same id stays locked for good. */
    method RegisterRequest(id: string, nodes: seq<BlockNode>, now: int)
      requires Valid() && forall n :: n in nodes ==> n in all
      modifies this`live, this`orphaned, all`lockRef, all`lastAccess
      ensures Valid() && live == old(live)[id := nodes]
      ensures orphaned == old(orphaned) + if id in old(live) then multiset(old(live)[id]) else multiset{}
      ensures forall n :: n in all ==> n.lastAccess == if n in nodes && n != root then now else old(n.lastAccess)
    {
      hide Valid, Owing;
      Record(id, nodes);
      Lift(nodes, now);
    }

    /** Everything is in order but for locks that are still to be counted. */
    ghost predicate Owing(due: multiset<BlockNode>)
      reads this, all
    {
      && size > 0 && root in all && paths.Keys <= all
      && Tree(ShapeOf(paths.Keys), paths, root, size)
      && Registered(live, all) && Sized(numCached, paths.Keys, stranded, all)
      && forall n :: n in all && n != root ==> n.lockRef + due[n] == Held(live, n) + orphaned[n]
    }

    /** Notes what a request holds; what it held before is orphaned. */
    method Record(id: string, nodes: seq<BlockNode>)
      requires Valid() && forall n :: n in nodes ==> n in all
      modifies this`live, this`orphaned
      ensures Owing(multiset(nodes)) && live == old(live)[id := nodes]
      ensures orphaned == old(orphaned) + if id in old(live) then multiset(old(live)[id]) else multiset{}
    {
      hide Tree, Held, Sized, Registered;
      RegisteredWith(live, id, nodes, all);
      HeldAfter(live, id, nodes, orphaned, all);
      if id in live {
        orphaned := orphaned + multiset(live[id]);
      }
      live := live[id := nodes];
    }

    /** Counts the locks that are due. */
    method Lift(nodes: seq<BlockNode>, now: int)
      requires Owing(multiset(nodes)) && forall n :: n in nodes ==> n in all
      modifies all`lockRef, all`lastAccess
      ensures Valid()
      ensures forall n :: n in all ==> n.lastAccess == if n in nodes && n != root then now else old(n.lastAccess)
    {
      hide Tree, Held, Sized, Registered;
      ghost var s := ShapeOf(paths.Keys);
      IncreaseLockRef(nodes, now);
      assert ShapeOf(paths.Keys) == s;
    }

    /** A request lets go of its nodes; an unknown request holds none. */
    method ReleaseRequest(id: string)
      requires Valid()
      modifies this`live, all`lockRef
      ensures Valid() && live == old(live) - {id}
    {
      hide Tree, Held, Sized, Registered;
      RegisteredWith(live, id, [], all);
      if id !in live {
        assert live - {id} == live;
        return;
      }
      ghost var s := ShapeOf(paths.Keys);
      DecreaseLockRef(live[id]);
      assert ShapeOf(paths.Keys) == s;
      live := live - {id};
      forall n | n in all && n != root
        ensures n.lockRef == Held(live, n) + orphaned[n]
      {
        HeldLess(old(live), id, n);
      }
    }

    /** A node a live request holds is locked, even when an insertion cut it off. */
    lemma HeldLocked(id: string, n: BlockNode)
      requires Valid() && id in live && n in live[id] && n != root
      ensures n.lockRef > 0
    {
      HeldBy(live, id, n);
    }

    /** Puts a block under a reachable node; a sibling with the same first token but other tokens is cut off. */
    method PlaceBlock(tokens: seq<Token>, block: int, parent: BlockNode, now: int) returns (node: BlockNode, added: bool)
      requires Valid() && parent in paths && |tokens| == size
      modifies this`paths, this`all, this`numCached, this`stranded, parent`children
      ensures Valid() && node in paths && paths[node] == old(paths)[parent] + [tokens] && node.tokens == tokens && node != root
      ensures paths.Keys <= old(paths.Keys) + {node} && stranded == old(stranded) + (old(paths).Keys - paths.Keys)
      ensures added <==> !Stored(old(paths), old(paths)[parent] + [tokens])
      ensures !added ==> paths == old(paths) && all == old(all) && numCached == old(numCached)
      ensures added ==>
                && fresh(node) && node.block == block && node.lockRef == 0 && node.lastAccess == now && all == old(all) + {node} && numCached == old(numCached) + 1
                && parent in old(ShapeOf(paths.Keys)) && paths == PlacedPaths(old(ShapeOf(paths.Keys)), old(paths), parent, node)
    {
      hide Valid, Tree, Held, Stored, ShapeOf, PlacedShape, PlacedPaths, Registered, Counted, Sized;
      Parts();
      RootEmpty();
      ghost var s := ShapeOf(paths.Keys);
      ShapeFields(paths.Keys);
      NextStored(s, paths, root, size, parent, tokens);
      if tokens[0] in parent.children {
        if parent.children[tokens[0]].tokens == tokens {
          return parent.children[tokens[0]], false;
        }
      }
      added := true;
      node := new BlockNode(block, tokens, parent, now);
      Attach(node, parent);
    }

    /** Files a new node under its parent. */
    method Attach(node: BlockNode, parent: BlockNode)
      requires Valid() && parent in paths && |node.tokens| == size && node !in all && !Stored(paths, paths[parent] + [node.tokens])
      requires node.parent == parent && node.children == map[] && node.lockRef == 0 && orphaned[node] == 0
      modifies this`paths, this`all, this`numCached, this`stranded, parent`children
      ensures Valid() && node in paths && paths[node] == old(paths)[parent] + [node.tokens]
      ensures paths.Keys <= old(paths.Keys) + {node} && all == old(all) + {node} && numCached == old(numCached) + 1
      ensures stranded == old(stranded) + (old(paths).Keys - paths.Keys)
      ensures parent in old(ShapeOf(paths.Keys)) && paths == PlacedPaths(old(ShapeOf(paths.Keys)), old(paths), parent, node)
    {
      hide Valid, Tree, Held, Stored, ShapeOf, PlacedShape, PlacedPaths, Registered, Counted, Sized;
      Parts();
      ghost var s := ShapeOf(paths.Keys);
      ShapeFields(paths.Keys);
      PlacedTree(s, paths, root, size, parent, node);
      PlacedKeys(s, paths, parent, node);
      NewHolds(node);
      ghost var after, known := PlacedPaths(s, paths, parent, node), all + {node};
      ghost var lost, count := stranded + (paths.Keys - after.Keys), numCached + 1;
      SizedMore(count, paths.Keys, stranded, all, after.Keys, node);
      SetChildren(parent, parent.children[node.tokens[0] := node]);
      ShapePlaced(s, paths, parent, node);
      Commit(node, after, known, lost, count);
    }

    method SetChildren(n: BlockNode, children: map<Token, BlockNode>)
      requires Counted()
      modifies n`children
      ensures n.children == children && Counted()
    {
      hide Held;
      n.children := children;
    }

    /** Counts the new node, and takes over what it makes of the reachable nodes. */
    method Commit(node: BlockNode, ghost after: Paths, ghost known: set<BlockNode>, ghost lost: set<BlockNode>, ghost count: int)
      requires size > 0 && root in all && node !in all && after.Keys <= known && node.lockRef == Held(live, node) + orphaned[node]
      requires count == numCached + 1 && known == all + {node} && lost == stranded + (paths.Keys - after.Keys)
      requires Tree(ShapeOf(after.Keys), after, root, size) && Registered(live, known) && Counted() && Sized(count, after.Keys, lost, known)
      modifies this`numCached, this`paths, this`all, this`stranded
      ensures Valid() && paths == after && all == known && stranded == lost && numCached == old(numCached) + 1
    {
      hide Tree, Held, ShapeOf, Registered, Sized;
      numCached := numCached + 1;
      paths, all, stranded := after, known, lost;
    }

    /**
     * The block count is that of the reachable blocks exactly when no insertion ever cut a node off;
     * a node that was cut off is not reachable, so it is never evicted or reported.
     */
    lemma CountIsReachable()
      requires Valid()
      ensures numCached == |paths.Keys - {root}| <==> stranded == {}
      ensures stranded !! paths.Keys
    {
      RootEmpty();
      assert |paths.Keys - {root}| == |paths.Keys| - 1;
    }

    /** Locks a node for good: no live request will take the lock back. */
    method Lock(n: BlockNode, now: int)
      requires Valid() && n in all && n != root
      modifies this`orphaned, n`lockRef, n`lastAccess
      ensures Valid() && orphaned == old(orphaned) + multiset{n} && n.lockRef == old(n.lockRef) + 1 && n.lastAccess == now
    {
      hide Tree, Held, Sized, Registered;
      ghost var s := ShapeOf(paths.Keys);
      orphaned := orphaned + multiset{n};
      n.lockRef, n.lastAccess := n.lockRef + 1, now;
      assert ShapeOf(paths.Keys) == s;
    }

    /** Puts a block in place, locked if asked. */
    method AddBlock(tokens: seq<Token>, block: int, parent: BlockNode, lock: bool, now: int) returns (node: BlockNode, added: bool)
      requires Valid() && parent in paths && |tokens| == size
      modifies this`paths, this`all, this`numCached, this`stranded, this`orphaned, parent`children, paths.Keys`lockRef, paths.Keys`lastAccess
      ensures Valid() && node.tokens == tokens && node in paths && node != root
      ensures added <==> !Stored(old(paths), old(paths)[parent] + [tokens])
      ensures parent in old(ShapeOf(paths.Keys))
      ensures if added then fresh(node) && paths == PlacedPaths(old(ShapeOf(paths.Keys)), old(paths), parent, node) else paths == old(paths)
      ensures numCached == old(numCached) + (if added then 1 else 0) && paths.Keys <= old(paths.Keys) + {node}
      ensures stranded == old(stranded) + (old(paths).Keys - paths.Keys)
      ensures orphaned == old(orphaned) + (if lock then multiset{node} else multiset{}) && (lock ==> node.lockRef > 0)
      ensures added || lock ==> node.lastAccess == now
      ensures forall n :: n in old(all) && !(lock && n == node) ==> n.lastAccess == old(n.lastAccess) && n.lockRef == old(n.lockRef)
    {
      hide Valid, Tree, Held, Stored, ShapeOf, PlacedPaths, Counted, Sized, Registered;
      Parts();
      ShapeFields(paths.Keys);
      node, added := PlaceBlock(tokens, block, parent, now);
      Reachable(node);
      LocksNatural(node);
      if lock {
        Lock(node, now);
      }
    }

    /**
     * Inserts a block, locked if asked, then evicts down to the limit, oldest unlocked leaves first; a
     * locked block stays.
     */
    method InsertBlock(tokens: seq<Token>, block: int, parent: BlockNode, lock: bool, now: int) returns (node: BlockNode, added: bool, ghost gone: seq<BlockNode>, ghost placed: Paths)
      requires Valid() && parent in paths && |tokens| == size
      modifies this`paths, this`all, this`numCached, this`freed, this`stranded, this`orphaned
      modifies paths.Keys`children, paths.Keys`lockRef, paths.Keys`lastAccess
      ensures Valid() && node.tokens == tokens
      ensures added <==> !Stored(old(paths), old(paths)[parent] + [tokens])
      ensures forall p :: Stored(placed, p) <==> p == old(paths)[parent] + [tokens] || (Stored(old(paths), p) && !(added && Rivals(old(paths)[parent], tokens, p)))
      ensures paths == placed - (set x | x in gone) && freed == old(freed) + BlockIds(gone) && NoRepeats(gone)
      ensures forall x :: x in gone ==> x in placed && x != root && Held(live, x) == 0
      ensures orphaned == old(orphaned) + (if lock then multiset{node} else multiset{}) && (lock ==> node !in gone)
      ensures stranded == old(stranded) + (set n | n in old(paths) && added && Rivals(old(paths)[parent], tokens, old(paths)[n]))
      ensures added ==> numCached == old(numCached) + 1 - |gone| && (numCached <= maxBlocks || AllLocked()) && (gone != [] ==> numCached >= maxBlocks)
      ensures !added ==> placed == old(paths) && gone == [] && numCached == old(numCached)
      ensures OldestFirst(old(Ages())[node := now], old(Unlocked()) - {parent}, gone, paths.Keys)
      ensures added || lock ==> node.lastAccess == now
      ensures forall n :: n in old(all) && !(lock && n == node) ==> n.lastAccess == old(n.lastAccess) && n.lockRef == old(n.lockRef)
    {
      hide Valid, Tree, Held, Stored, ShapeOf, PlacedShape, PlacedPaths, AllLocked, BlockIds, Rivals, OldestFirst, Unlocked, Ages;
      ValidTree();
      ghost var s, before := ShapeOf(paths.Keys), paths;
      ghost var first := Unlocked() - {parent};
      node, added := AddBlock(tokens, block, parent, lock, now);
      placed, gone := paths, [];
      ghost var age := old(Ages())[node := now];
      NothingGone();
      NoneOlder(age, first, paths.Keys);
      PlacedStored(s, before, root, size, parent, tokens, node, added, placed);
      if added && numCached > maxBlocks {
        StillUnlocked(parent, node);
        SameAges(node, now);
        ghost var ages, open := Ages(), Unlocked();
        gone := EvictLruBlocks(numCached - maxBlocks);
        OldestAmong(ages, open, age, first, gone, placed.Keys, paths.Keys);
      }
    }

    /** Placing a block under a parent leaves every other reachable unlocked leaf one. */
    twostate lemma StillUnlocked(parent: BlockNode, new node: BlockNode)
      requires forall n :: n in paths && n != node ==> n in old(paths)
      requires node !in old(paths)
      requires forall n :: n in old(paths) ==> n.lockRef == old(n.lockRef) && (n != parent ==> n.children == old(n.children))
      ensures forall n :: n in old(Unlocked()) - {parent} && n in paths ==> n in Unlocked()
    {
    }

    twostate lemma SameAges(new node: BlockNode, now: int)
      requires (forall n :: n in paths && n != node ==> n in old(paths)) && node !in old(paths) && node.lastAccess == now
      requires forall n :: n in old(paths) ==> n.lastAccess == old(n.lastAccess)
      ensures forall n :: n in paths ==> n in Ages() && n in old(Ages())[node := now] && Ages()[n] == old(Ages())[node := now][n]
      ensures Ages().Keys == paths.Keys
    {
    }

    lemma Parts()
      requires Valid()
      ensures size > 0 && root in all && paths.Keys <= all && Tree(ShapeOf(paths.Keys), paths, root, size)
      ensures Registered(live, all) && Counted() && Sized(numCached, paths.Keys, stranded, all)
      ensures ShapeOf(paths.Keys).Keys == paths.Keys
    {
    }

    lemma ValidTree()
      requires Valid()
      ensures size > 0 && Tree(ShapeOf(paths.Keys), paths, root, size) && ShapeOf(paths.Keys).Keys == paths.Keys && paths.Keys <= all
    {
    }

    lemma LocksNatural(n: BlockNode)
      requires Valid() && n in all && n != root
      ensures n.lockRef >= 0
    {
    }

    lemma NewHolds(n: BlockNode)
      requires Valid() && n !in all
      ensures Held(live, n) == 0 && Registered(live, all + {n})
    {
      NeverHeld(live, n);
    }

    ghost predicate Leaf(n: BlockNode)
      reads this, n
    {
      n in paths && n != root && n.children == map[]
    }

    /** The kids of a reachable node. */
    method Kids(n: BlockNode) returns (kids: seq<BlockNode>)
      requires Valid() && n in paths
      ensures NoRepeats(kids)
      ensures forall c :: c in kids ==> c in paths && c != root && c.parent == n
      ensures forall t :: t in n.children ==> n.children[t] in kids
      ensures n.children == map[] ==> kids == []
    {
      hide Held, Hung;
      assert Fathers(ShapeOf(paths.Keys), n);
      kids := ChildList(n);
      forall c | c in kids
        ensures c in paths && c != root && c.parent == n
      {
        assert n.children[c.tokens[0]] == c;
      }
      assert kids != [] ==> kids[0] in kids;
    }

    /** All leaves below the root, each once. */
    method CollectLeaves() returns (leaves: seq<BlockNode>)
      requires Valid()
      ensures NoRepeats(leaves) && forall n :: n in leaves ==> Leaf(n)
      ensures forall n :: n in paths && Leaf(n) ==> n in leaves
    {
      hide Valid, Tree, Held, Sweeping, Sized, Registered, Counted, NoRepeats;
      NoLeaves();
      leaves := [];
      RootReachable();
      var stack := [root];
      ghost var done: set<BlockNode> := {};
      while stack != []
        invariant Valid()
        invariant Sweeping(done, stack)
        invariant NoRepeats(leaves) && forall n :: n in leaves ==> n in done && Leaf(n)
        invariant forall n :: n in done && Leaf(n) ==> n in leaves
        decreases paths.Keys - done
      {
        var node := stack[|stack| - 1];
        SweepTop(done, stack);
        var kids := Kids(node);
        SweepStep(done, stack, node, kids);
        stack, done := stack[..|stack| - 1], done + {node};
        if node.children == map[] && node != root {
          OneMoreGone(leaves, node);
          assert stack + kids == stack;
          leaves := leaves + [node];
        } else {
          stack := stack + kids;
        }
      }
      SweepDone(done);
    }

    /** Seen nodes and waiting nodes: reachable, apart, and every one but the root has its parent among the seen. */
    ghost predicate Sweeping(done: set<BlockNode>, stack: seq<BlockNode>)
      reads this, paths.Keys
    {
      && NoRepeats(stack) && done <= paths.Keys
      && (forall n :: n in stack ==> n in paths && n !in done)
      && (root in done || root in stack)
      && (forall n :: n in done && n != root ==> n.parent != null && n.parent in done)
      && (forall n :: n in stack && n != root ==> n.parent != null && n.parent in done)
      && (forall n, t :: n in done && t in n.children ==> n.children[t] in done || n.children[t] in stack)
    }

    lemma NoLeaves()
      requires Valid()
      ensures NoRepeats<BlockNode>([]) && Sweeping({}, [root])
    {
    }

    lemma RootEmpty()
      requires Valid()
      ensures root in paths && root in all && paths[root] == []
    {
    }

    lemma RootReachable()
      requires Valid()
      ensures root in paths
    {
    }

    lemma SweepTop(done: set<BlockNode>, stack: seq<BlockNode>)
      requires Sweeping(done, stack) && stack != []
      ensures stack[|stack| - 1] in paths && stack[|stack| - 1] !in done
    {
      assert stack[|stack| - 1] in stack;
    }

    lemma SweepStep(done: set<BlockNode>, stack: seq<BlockNode>, node: BlockNode, kids: seq<BlockNode>)
      requires Sweeping(done, stack) && stack != [] && node == stack[|stack| - 1] && NoRepeats(kids)
      requires forall c :: c in kids ==> c in paths && c != root && c.parent == node
      requires forall t :: t in node.children ==> node.children[t] in kids
      ensures Sweeping(done + {node}, stack[..|stack| - 1] + kids)
    {
      var rest := stack[..|stack| - 1];
      assert node in stack && forall n :: n in rest ==> n in stack;
      var next := rest + kids;
      forall a, b | 0 <= a < b < |next|
        ensures next[a] != next[b]
      {
        if a < |rest| <= b {
          assert next[a] in stack && next[b] in kids;
        }
      }
      forall n | n in rest
        ensures n != node
      {
        var k :| 0 <= k < |rest| && rest[k] == n;
        assert stack[k] != node;
      }
    }

    lemma SweepDone(done: set<BlockNode>)
      requires Valid() && Sweeping(done, [])
      ensures done == paths.Keys
    {
      forall n | n in paths
        ensures n in done
      {
        Closed(ShapeOf(paths.Keys), paths, root, size, done, n);
      }
    }

    /** Takes an unlocked leaf out of the trie and reports its block. */
    method DeleteLeaf(x: BlockNode)
      requires Valid() && Leaf(x) && x.parent != null && x.parent in paths && x.parent != x && x.tokens != []
      modifies this`paths, this`numCached, this`freed, x.parent`children
      ensures Valid() && paths == old(paths) - {x}
      ensures numCached == old(numCached) - 1 && freed == old(freed) + [x.block]
      ensures x.parent.children == old(x.parent.children) - {x.tokens[0]}
    {
      hide Valid, Tree, Held, PrunedShape, ShapeOf, Registered, Counted, Sized;
      Parts();
      ghost var s := ShapeOf(paths.Keys);
      CanPrune(x);
      ShapeFields(paths.Keys);
      SizedLess(numCached, paths.Keys, stranded, all, x);
      KeysLess(x);
      SetChildren(x.parent, x.parent.children - {x.tokens[0]});
      ShapePruned(s, x, paths.Keys - {x});
      Report(x);
    }

    /** Reports the block of a node that was taken out. */
    method Report(x: BlockNode)
      requires size > 0 && root in all && paths.Keys - {x} <= all && Tree(ShapeOf(paths.Keys - {x}), paths - {x}, root, size)
      requires Registered(live, all) && Counted() && Sized(numCached - 1, paths.Keys - {x}, stranded, all)
      modifies this`paths, this`numCached, this`freed
      ensures Valid() && paths == old(paths) - {x} && numCached == old(numCached) - 1 && freed == old(freed) + [x.block]
    {
      hide Tree, Held, ShapeOf, Registered, Sized;
      KeysLess(x);
      freed, numCached := freed + [x.block], numCached - 1;
      paths := paths - {x};
    }

    lemma KeysLess(x: BlockNode)
      ensures (paths - {x}).Keys == paths.Keys - {x}
    {
    }

    lemma CanPrune(x: BlockNode)
      requires Valid() && Leaf(x) && x.parent != null && x.tokens != []
      ensures x in ShapeOf(paths.Keys) && ShapeOf(paths.Keys)[x].parent == x.parent
      ensures Tree(PrunedShape(ShapeOf(paths.Keys), x), paths - {x}, root, size) && root in paths
    {
      assert Hung(ShapeOf(paths.Keys), paths, x);
      PrunedTree(ShapeOf(paths.Keys), paths, root, size, x);
    }

    lemma LeafHung(x: BlockNode)
      requires Valid() && Leaf(x)
      ensures x.parent != null && x.parent in paths && x.parent != x && x.tokens != [] && x.parent.children != map[]
      ensures x.tokens[0] in x.parent.children && x.parent.children[x.tokens[0]] == x
    {
      assert Hung(ShapeOf(paths.Keys), paths, x);
      assert paths[x] != paths[x.parent];
    }

    /** With nothing below the root, the root is alone. */
    lemma RootAlone(n: BlockNode)
      requires Valid() && root.children == map[] && n in paths
      ensures n == root
    {
      RootPath(ShapeOf(paths.Keys), paths, root, size, n);
      if n != root {
        var m := Ancestor(ShapeOf(paths.Keys), paths, root, size, n, 1);
        RootPath(ShapeOf(paths.Keys), paths, root, size, m);
        assert Hung(ShapeOf(paths.Keys), paths, m);
        assert paths[m.parent] == [];
        RootPath(ShapeOf(paths.Keys), paths, root, size, m.parent);
        assert false;
      }
    }

    ghost function Childless(): set<BlockNode>
      reads this, paths.Keys
    {
      set n | n in paths && n.children == map[]
    }

    ghost function Locked(): set<BlockNode>
      reads this, paths.Keys
    {
      set n | n in paths && n.lockRef > 0
    }

    /** The nodes still to look at: childless, each once, and all unlocked leaves among them. */
    ghost predicate Waiting(heap: seq<BlockNode>)
      reads this, paths.Keys
    {
      Queue(heap, Childless(), Locked() + {root})
    }

    ghost predicate AllLocked()
      reads this, paths.Keys
    {
      forall x :: x in paths && Leaf(x) ==> x.lockRef > 0
    }

    lemma Popped(heap: seq<BlockNode>, at: nat)
      requires Valid() && Waiting(heap) && at < |heap|
      ensures var rest := heap[..at] + heap[at + 1..];
              && NoRepeats(rest) && heap[at] !in rest && (forall n :: n in rest <==> n in heap && n != heap[at])
              && (heap[at] != root ==> Leaf(heap[at])) && (heap[at] == root ==> AllLocked())
              && (heap[at].lockRef > 0 && heap[at] != root ==> Waiting(rest))
    {
      var rest, x := heap[..at] + heap[at + 1..], heap[at];
      assert forall k :: 0 <= k < |rest| ==> rest[k] == heap[if k < at then k else k + 1];
      assert heap == heap[..at] + [x] + heap[at + 1..];
      assert x in heap;
      if x == root {
        forall n | n in paths
          ensures !Leaf(n)
        {
          RootAlone(n);
        }
      }
    }

    /** Evicts one leaf; its parent waits next when that was its last child. */
    method EvictLeaf(x: BlockNode, heap: seq<BlockNode>, at: nat) returns (rest: seq<BlockNode>)
      requires Valid() && Waiting(heap) && at < |heap| && x == heap[at] && x != root && x.lockRef <= 0
      modifies this`paths, this`numCached, this`freed, paths.Keys`children
      ensures Valid() && Waiting(rest) && paths == old(paths) - {x}
      ensures numCached == old(numCached) - 1 && freed == old(freed) + [x.block]
      ensures forall y :: y in old(Unlocked()) && y in paths ==> y in Unlocked()
    {
      hide Tree, Held, ShapeOf, Queue, Counted, Sized, Registered;
      Popped(heap, at);
      LeafHung(x);
      InPaths(x);
      rest := heap[..at] + heap[at + 1..];
      var parent := x.parent;
      ghost var childless, locked := Childless(), Locked();
      DeleteLeaf(x);
      if parent.children == map[] {
        rest := rest + [parent];
      }
      Changed(childless, locked, x, parent);
      QueueStep(heap, at, childless, locked + {root}, parent, parent.children == map[]);
    }

    lemma InPaths(x: BlockNode)
      requires Valid() && x in paths && x.parent != null && x.parent in paths && x.parent.children != map[] && x.lockRef <= 0
      ensures x.parent !in Childless() && x !in Locked()
    {
    }

    lemma Changed(childless: set<BlockNode>, locked: set<BlockNode>, x: BlockNode, parent: BlockNode)
      requires x !in paths && parent in paths && parent !in childless && x !in locked
      requires forall n :: n in paths && n != parent ==> (n in childless <==> n.children == map[])
      requires childless <= paths.Keys + {x} && locked <= paths.Keys && forall n :: n in paths ==> (n in locked <==> n.lockRef > 0)
      ensures Childless() == childless - {x} + (if parent.children == map[] then {parent} else {})
      ensures Locked() == locked
    {
    }

    /**
     * Looks at the oldest waiting node: an unlocked leaf is evicted, a locked one is passed over,
     * and the root ends the search. What is evicted is the oldest of all unlocked leaves.
     */
    method EvictNext(heap: seq<BlockNode>) returns (rest: seq<BlockNode>, x: BlockNode?, stop: bool)
      requires Valid() && Waiting(heap) && heap != []
      modifies this`paths, this`numCached, this`freed, paths.Keys`children
      ensures Valid() && (stop ==> x == null && AllLocked()) && (!stop ==> Waiting(rest))
      ensures forall y :: y in old(Unlocked()) && y in paths ==> y in Unlocked()
      ensures x == null ==> paths == old(paths) && numCached == old(numCached) && freed == old(freed) && (!stop ==> |rest| < |heap|)
      ensures x != null ==>
                && x in old(paths) && x != root && x.lockRef == 0 == Held(live, x) && paths == old(paths) - {x}
                && numCached == old(numCached) - 1 && freed == old(freed) + [x.block]
                && forall y :: y in old(Unlocked()) ==> x.lastAccess <= y.lastAccess
    {
      hide Tree, Held, Waiting, AllLocked, ShapeOf, Leaf, Childless, Locked, Queue, Unlocked;
      var at := Oldest(heap);
      var node := heap[at];
      Popped(heap, at);
      rest, x, stop := heap[..at] + heap[at + 1..], null, node == root;
      if stop || node.lockRef > 0 {
        return;
      }
      Reachable(node);
      AmongWaiting(heap, at);
      rest := EvictLeaf(node, heap, at);
      x := node;
    }

    /**
     * Evicts unlocked leaves, oldest first, until `n` went. Otherwise every leaf that is left is
     * locked. No block of a node that a request holds is reported.
     */
    method EvictLruBlocks(n: nat) returns (ghost gone: seq<BlockNode>)
      requires Valid()
      modifies this`paths, this`numCached, this`freed, paths.Keys`children
      ensures Valid() && NoRepeats(gone) && |gone| <= n
      ensures forall x :: x in gone ==> x in old(paths) && x != root && x.lockRef == 0 == Held(live, x)
      ensures paths == old(paths) - (set x | x in gone)
      ensures freed == old(freed) + BlockIds(gone) && numCached == old(numCached) - |gone|
      ensures |gone| == n || AllLocked()
      ensures OldestFirst(old(Ages()), old(Unlocked()), gone, paths.Keys)
      ensures forall x, y :: x in gone && y in paths && y != root && old(y.children) == map[] && y.lockRef == 0 ==> x.lastAccess <= y.lastAccess
    {
      hide Valid, Tree, Held, Waiting, AllLocked, ShapeOf, BlockIds, Leaf, Childless, Locked, Queue, Sized, Registered, Counted, Unlocked, OldestFirst, Gone;
      gone := [];
      ghost var first, age := Unlocked(), Ages();
      LeavesUnlocked();
      NoneEvicted(paths, age, first);
      NothingGone();
      var heap := CollectLeaves();
      AllWaiting(heap);
      var evicted := 0;
      while evicted < n && heap != []
        invariant Valid() && Waiting(heap) && evicted == |gone| <= n && Gone(old(paths), age, first, gone, paths)
        invariant forall x :: x in gone ==> x in old(paths) && x != root && x.lockRef == 0 == Held(live, x)
        invariant freed == old(freed) + BlockIds(gone) && numCached == old(numCached) - |gone|
        invariant forall y :: y in paths ==> y in age && age[y] == y.lastAccess && (y in first ==> y in Unlocked())
        decreases n - evicted, |heap|
      {
        var node, stop;
        ghost var reach := paths;
        heap, node, stop := EvictNext(heap);
        if stop {
          GoneFacts(old(paths), age, first, gone, paths);
          return;
        }
        if node != null {
          forall y | y in first && y in reach
            ensures NoYounger(age, node, y)
          {
          }
          GoneMore(old(paths), age, first, gone, reach, node);
          gone, evicted := gone + [node], evicted + 1;
        }
      }
      if heap == [] {
        NoneWaiting();
      }
      GoneFacts(old(paths), age, first, gone, paths);
    }

    ghost function Ages(): map<BlockNode, int>
      reads this, paths.Keys
    {
      map n | n in paths :: n.lastAccess
    }

    ghost function Unlocked(): set<BlockNode>
      reads this, paths.Keys
    {
      set n | n in paths && Leaf(n) && n.lockRef <= 0
    }

    /** The unlocked leaves, and when they were used. */
    lemma LeavesUnlocked()
      ensures forall y :: y in paths && y != root && y.children == map[] && y.lockRef == 0 ==> y in Unlocked()
      ensures forall y :: y in paths ==> y in Ages() && Ages()[y] == y.lastAccess
    {
    }

    lemma AmongWaiting(heap: seq<BlockNode>, at: nat)
      requires Waiting(heap) && at < |heap| && forall k :: 0 <= k < |heap| ==> heap[at].lastAccess <= heap[k].lastAccess
      ensures forall y :: y in Unlocked() ==> y in paths && heap[at].lastAccess <= y.lastAccess
    {
      forall y | y in Unlocked()
        ensures y in paths && heap[at].lastAccess <= y.lastAccess
      {
        assert y in Childless();
        assert y in heap;
        var k :| 0 <= k < |heap| && heap[k] == y;
      }
    }

    lemma AllWaiting(heap: seq<BlockNode>)
      requires NoRepeats(heap) && (forall n :: n in heap ==> Leaf(n)) && forall n :: n in paths && Leaf(n) ==> n in heap
      ensures Waiting(heap)
    {
    }

    lemma NoneWaiting()
      requires Waiting([])
      ensures AllLocked()
    {
      forall x | x in paths && Leaf(x)
        ensures x.lockRef > 0
      {
        assert x in Childless();
      }
    }

    lemma StartMatch(tokens: seq<Token>)
      requires Valid()
      ensures size > 0 && root in paths && root in all && paths[root] == BlocksOf(tokens, size, 0)
      ensures OnPath(paths, [], BlocksOf(tokens, size, 0)) && Stored(paths, BlocksOf(tokens, size, 0)) && BlockIds([]) == []
    {
    }

    lemma Reachable(n: BlockNode)
      requires Valid() && n in paths
      ensures n in all
    {
    }

    /** Where the next block is not stored, or there is none, no longer prefix is stored. */
    lemma Longest(tokens: seq<Token>, k: nat)
      requires Valid() && ((k + 1) * size <= |tokens| ==> !Stored(paths, BlocksOf(tokens, size, k + 1)))
      ensures forall j: nat :: j * size <= |tokens| && Stored(paths, BlocksOf(tokens, size, j)) ==> j <= k
    {
      hide Tree, Stored, Held, Counted;
      forall j: nat | j * size <= |tokens| && Stored(paths, BlocksOf(tokens, size, j))
        ensures j <= k
      {
        if j > k {
          BlocksPrefix(tokens, size, k + 1, j);
          NoLonger(ShapeOf(paths.Keys), paths, root, size, BlocksOf(tokens, size, j), k + 1);
          assert false;
        }
      }
    }

    lemma NoMoreBlocks(k: nat, len: nat)
      requires k * size + size > len
      ensures (k + 1) * size > len
    {
    }
  }

  /** The nodes lie on the path, one per block. */
  ghost predicate OnPath(paths: Paths, nodes: seq<BlockNode>, p: seq<seq<Token>>) {
    |nodes| == |p| && forall i :: 0 <= i < |nodes| ==> nodes[i] in paths && paths[nodes[i]] == p[..i + 1]
  }

  lemma BlocksNext(tokens: seq<Token>, size: nat, k: nat)
    requires size > 0 && k * size + size <= |tokens|
    ensures (k + 1) * size == k * size + size
    ensures BlocksOf(tokens, size, k + 1) == BlocksOf(tokens, size, k) + [tokens[k * size..k * size + size]]
  {
    assert (k + 1) * size == k * size + size;
  }

  lemma {:induction false} BlocksPrefix(tokens: seq<Token>, size: nat, j: nat, k: nat)
    requires size > 0 && j <= k && k * size <= |tokens|
    ensures j * size <= |tokens| && BlocksOf(tokens, size, k)[..j] == BlocksOf(tokens, size, j)
    decreases k
  {
    if j < k {
      assert k * size == (k - 1) * size + size;
      BlocksPrefix(tokens, size, j, k - 1);
      BlocksNext(tokens, size, k - 1);
      assert BlocksOf(tokens, size, k)[..j] == BlocksOf(tokens, size, k - 1)[..j];
    }
  }

  lemma PathGrows(paths: Paths, nodes: seq<BlockNode>, p: seq<seq<Token>>, block: seq<Token>, next: BlockNode)
    requires OnPath(paths, nodes, p) && next in paths && paths[next] == p + [block]
    ensures OnPath(paths, nodes + [next], p + [block]) && Stored(paths, p + [block])
    ensures BlockIds(nodes + [next]) == BlockIds(nodes) + [next.block]
  {
    var more, q := nodes + [next], p + [block];
    forall i | 0 <= i < |more|
      ensures more[i] in paths && paths[more[i]] == q[..i + 1]
    {
      if i < |nodes| {
        assert q[..i + 1] == p[..i + 1];
      } else {
        assert q[..i + 1] == q;
      }
    }
  }

  lemma {:induction false} NeverHeld(live: map<string, seq<BlockNode>>, n: BlockNode)
    requires forall id :: id in live ==> n !in live[id]
    ensures Held(live, n) == 0
    decreases |live|
  {
    if live != map[] {
      assert live.Keys != {};
      var id := Totals.Element(live.Keys);
      HeldLess(live, id, n);
      NeverHeld(live - {id}, n);
    }
  }

  ghost predicate Queue(heap: seq<BlockNode>, childless: set<BlockNode>, others: set<BlockNode>) {
    NoRepeats(heap) && (forall n :: n in heap ==> n in childless) && forall n :: n in childless ==> n in heap || n in others
  }

  lemma QueueStep(heap: seq<BlockNode>, at: nat, childless: set<BlockNode>, others: set<BlockNode>, parent: BlockNode, freed: bool)
    requires Queue(heap, childless, others) && at < |heap| && parent !in childless
    ensures var rest := heap[..at] + heap[at + 1..];
            Queue(if freed then rest + [parent] else rest, childless - {heap[at]} + (if freed then {parent} else {}), others)
  {
    var rest, x := heap[..at] + heap[at + 1..], heap[at];
    assert heap == heap[..at] + [x] + heap[at + 1..];
    assert forall k :: 0 <= k < |rest| ==> rest[k] == heap[if k < at then k else k + 1] && rest[k] in heap;
  }

  lemma SizedMore(count: int, reachable: set<BlockNode>, stranded: set<BlockNode>, all: set<BlockNode>, after: set<BlockNode>, node: BlockNode)
    requires Sized(count - 1, reachable, stranded, all) && reachable <= all && node !in all && node in after && after <= reachable + {node}
    ensures Sized(count, after, stranded + (reachable - after), all + {node})
  {
    var kept, cut := after - {node}, reachable - after;
    assert after == kept + {node} && reachable == kept + cut;
    assert |after| == |kept| + 1 && |reachable| == |kept| + |cut|;
    assert |stranded + cut| == |stranded| + |cut|;
  }

  lemma SizedLess(count: int, reachable: set<BlockNode>, stranded: set<BlockNode>, all: set<BlockNode>, x: BlockNode)
    requires Sized(count, reachable, stranded, all) && x in reachable
    ensures Sized(count - 1, reachable - {x}, stranded, all)
  {
    assert |reachable - {x}| == |reachable| - 1;
  }

  ghost predicate NoYounger(age: map<BlockNode, int>, a: BlockNode, b: BlockNode) {
    a in age && b in age && age[a] <= age[b]
  }

  /**
   * Of the leaves unlocked at first: none was evicted before an older one, and none that is left is
   * older than one that was evicted.
   */
  ghost predicate OldestFirst(age: map<BlockNode, int>, first: set<BlockNode>, gone: seq<BlockNode>, left: set<BlockNode>) {
    && (forall i, j :: 0 <= i < j < |gone| && gone[j] in first ==> NoYounger(age, gone[i], gone[j]))
    && (forall i, y :: 0 <= i < |gone| && y in first && y in left ==> NoYounger(age, gone[i], y))
  }

  lemma NoneOlder(age: map<BlockNode, int>, first: set<BlockNode>, left: set<BlockNode>)
    ensures OldestFirst(age, first, [], left)
  {
  }

  /** The same order holds for other ages and leaves that agree on the nodes there were. */
  lemma OldestAmong(age: map<BlockNode, int>, first: set<BlockNode>, age': map<BlockNode, int>, first': set<BlockNode>,
                    gone: seq<BlockNode>, placed: set<BlockNode>, left: set<BlockNode>)
    requires OldestFirst(age, first, gone, left) && left <= placed && forall x :: x in gone ==> x in placed
    requires age.Keys == placed && forall n :: n in placed ==> n in age' && age'[n] == age[n]
    requires forall y :: y in first' && y in placed ==> y in first
    ensures OldestFirst(age', first', gone, left)
  {
    forall i, j | 0 <= i < j < |gone| && gone[j] in first'
      ensures NoYounger(age', gone[i], gone[j])
    {
      assert gone[i] in gone && gone[j] in gone;
      assert NoYounger(age, gone[i], gone[j]);
    }
    forall i, y | 0 <= i < |gone| && y in first' && y in left
      ensures NoYounger(age', gone[i], y)
    {
      assert gone[i] in gone;
      assert NoYounger(age, gone[i], y);
    }
  }

  /** What went, each once, and what is left of the reachable nodes. */
  ghost predicate Gone(before: Paths, age: map<BlockNode, int>, first: set<BlockNode>, gone: seq<BlockNode>, left: Paths) {
    && NoRepeats(gone) && (forall x :: x in gone ==> x in before)
    && left == before - (set x | x in gone) && OldestFirst(age, first, gone, left.Keys)
  }

  lemma GoneFacts(before: Paths, age: map<BlockNode, int>, first: set<BlockNode>, gone: seq<BlockNode>, left: Paths)
    requires Gone(before, age, first, gone, left)
    ensures NoRepeats(gone) && left == before - (set x | x in gone) && OldestFirst(age, first, gone, left.Keys)
    ensures forall x, y :: x in gone && y in first && y in left ==> x in age && y in age && age[x] <= age[y]
  {
    forall x, y | x in gone && y in first && y in left
      ensures NoYounger(age, x, y)
    {
      var i :| 0 <= i < |gone| && gone[i] == x;
    }
  }

  lemma NoneEvicted(before: Paths, age: map<BlockNode, int>, first: set<BlockNode>)
    ensures Gone(before, age, first, [], before)
  {
    var none: seq<BlockNode> := [];
    assert before - (set x | x in none) == before;
  }

  lemma GoneMore(before: Paths, age: map<BlockNode, int>, first: set<BlockNode>, gone: seq<BlockNode>, left: Paths, x: BlockNode)
    requires Gone(before, age, first, gone, left) && x in left && forall y :: y in first && y in left ==> NoYounger(age, x, y)
    ensures Gone(before, age, first, gone + [x], left - {x}) && BlockIds(gone + [x]) == BlockIds(gone) + [x.block]
  {
    hide OldestFirst, NoYounger;
    OneMoreGone(gone, x);
    OldestMore(age, first, gone, left.Keys, x);
    assert (left - {x}).Keys == left.Keys - {x};
    assert left - {x} == before - (set y | y in gone + [x]);
  }

  /** One more eviction, of a node that is no younger than any leaf unlocked at first. */
  lemma OldestMore(age: map<BlockNode, int>, first: set<BlockNode>, gone: seq<BlockNode>, left: set<BlockNode>, x: BlockNode)
    requires OldestFirst(age, first, gone, left) && x in left && forall y :: y in first && y in left ==> NoYounger(age, x, y)
    ensures OldestFirst(age, first, gone + [x], left - {x})
  {
    var more := gone + [x];
    forall i, j | 0 <= i < j < |more| && more[j] in first
      ensures NoYounger(age, more[i], more[j])
    {
    }
  }

  lemma RegisteredWith(live: map<string, seq<BlockNode>>, id: string, nodes: seq<BlockNode>, all: set<BlockNode>)
    requires Registered(live, all) && forall n :: n in nodes ==> n in all
    ensures Registered(live[id := nodes], all) && Registered(live - {id}, all)
    ensures id in live ==> forall n :: n in live[id] ==> n in all
  {
  }

  lemma NothingGone()
    ensures BlockIds([]) == [] && (set x: BlockNode | x in []) == {}
  {
  }

  lemma OneMoreGone(gone: seq<BlockNode>, x: BlockNode)
    ensures BlockIds(gone + [x]) == BlockIds(gone) + [x.block]
    ensures (set y | y in gone + [x]) == (set y | y in gone) + {x}
    ensures NoRepeats(gone) && x !in gone ==> NoRepeats(gone + [x])
  {
  }

  lemma ShapeFields(nodes: set<BlockNode>)
    ensures forall n :: n in nodes ==> ShapeOf(nodes)[n] == Links(n.children, n.parent)
  {
  }

  /** The reachable nodes after a leaf was taken out. */
  lemma ShapePruned(s: Shape, x: BlockNode, rest: set<BlockNode>)
    requires x in s && s[x].parent != null && x.tokens != [] && rest == s.Keys - {x}
    requires forall n :: n in rest ==>
               && n.parent == s[n].parent
               && n.children == if n == s[x].parent then s[n].children - {x.tokens[0]} else s[n].children
    ensures ShapeOf(rest) == PrunedShape(s, x)
  {
  }

  lemma PlacedKeys(s: Shape, paths: Paths, parent: BlockNode, node: BlockNode)
    requires s.Keys == paths.Keys && parent in s && node !in s && node.tokens != []
    ensures node in PlacedPaths(s, paths, parent, node) && PlacedPaths(s, paths, parent, node)[node] == paths[parent] + [node.tokens]
    ensures PlacedPaths(s, paths, parent, node).Keys <= paths.Keys + {node}
  {
  }

  /** The reachable nodes after a node was put in place. */
  lemma ShapePlaced(s: Shape, before: Paths, parent: BlockNode, node: BlockNode)
    requires s.Keys == before.Keys && parent in s && node !in s && node.tokens != []
    requires node.children == map[] && node.parent == parent
    requires forall n :: n in s && n != parent ==> s[n] == Links(n.children, n.parent)
    requires parent.parent == s[parent].parent && parent.children == s[parent].children[node.tokens[0] := node]
    ensures ShapeOf(PlacedPaths(s, before, parent, node).Keys) == PlacedShape(s, before, parent, node)
  {
  }

  /** A set that holds the root and the children of its members holds every reachable node. */
  lemma {:induction false} Closed(s: Shape, paths: Paths, root: BlockNode, size: nat, done: set<BlockNode>, n: BlockNode)
    requires Tree(s, paths, root, size) && n in s && root in done && done <= s.Keys
    requires forall m, t :: m in done && t in s[m].children ==> s[m].children[t] in done
    ensures n in done
    decreases |paths[n]|
  {
    if n != root {
      assert Hung(s, paths, n);
      Closed(s, paths, root, size, done, s[n].parent);
    }
  }

  /** Paths through another block at the same place with the same first token. */
  ghost predicate Rivals(at: seq<seq<Token>>, tokens: seq<Token>, p: seq<seq<Token>>) {
    |p| > |at| && at <= p && p[|at|] != [] && tokens != [] && p[|at|] != tokens && p[|at|][0] == tokens[0]
  }

  /** What is stored after an insertion: the new path, and the old ones except those through a rival block. */
  lemma PlacedStored(s: Shape, before: Paths, root: BlockNode, size: nat, parent: BlockNode, tokens: seq<Token>, node: BlockNode, added: bool, placed: Paths)
    requires Tree(s, before, root, size) && parent in s && |tokens| == size > 0
    requires if added then node !in s && node.tokens == tokens && placed == PlacedPaths(s, before, parent, node) else placed == before
    requires added <==> !Stored(before, before[parent] + [tokens])
    ensures forall p :: Stored(placed, p) <==> p == before[parent] + [tokens] || (Stored(before, p) && !(added && Rivals(before[parent], tokens, p)))
    ensures before.Keys - placed.Keys == set n | n in before && added && Rivals(before[parent], tokens, before[n])
  {
    forall n | n in before
      ensures n !in placed <==> added && Rivals(before[parent], tokens, before[n])
    {
      if added {
        RivalCut(s, before, root, size, parent, node, n);
      }
    }
    forall p
      ensures Stored(placed, p) <==> p == before[parent] + [tokens] || (Stored(before, p) && !(added && Rivals(before[parent], tokens, p)))
    {
      if added {
        if Stored(before, p) {
          var n :| n in before && before[n] == p;
          RivalCut(s, before, root, size, parent, node, n);
        }
        if Stored(placed, p) {
          var n :| n in placed && placed[n] == p;
          if n != node {
            RivalCut(s, before, root, size, parent, node, n);
          }
        }
        PlacedKeys(s, before, parent, node);
      }
    }
  }

  /** An old node is cut off exactly when its path goes through a rival. */
  lemma RivalCut(s: Shape, before: Paths, root: BlockNode, size: nat, parent: BlockNode, node: BlockNode, n: BlockNode)
    requires s.Keys == before.Keys
    requires Tree(s, before, root, size) && parent in s && node !in s && |node.tokens| == size > 0 && n in before
    requires !Stored(before, before[parent] + [node.tokens])
    ensures n in PlacedPaths(s, before, parent, node) <==> !Rivals(before[parent], node.tokens, before[n])
    ensures n in PlacedPaths(s, before, parent, node) ==> PlacedPaths(s, before, parent, node)[n] == before[n]
  {
    hide Tree, PlacedPaths, Stored;
    CutPath(s, before, root, size, parent, node, n);
    if Rivals(before[parent], node.tokens, before[n]) {
      RivalThere(s, before, root, size, parent, node.tokens, n);
    }
  }

  lemma CutPath(s: Shape, before: Paths, root: BlockNode, size: nat, parent: BlockNode, node: BlockNode, n: BlockNode)
    requires Tree(s, before, root, size) && parent in s && node !in s && |node.tokens| == size > 0 && n in before
    requires !Stored(before, before[parent] + [node.tokens])
    ensures n in PlacedPaths(s, before, parent, node) <==>
            !(node.tokens[0] in s[parent].children && before[parent] + [s[parent].children[node.tokens[0]].tokens] <= before[n])
    ensures n in PlacedPaths(s, before, parent, node) ==> PlacedPaths(s, before, parent, node)[n] == before[n]
    ensures node.tokens[0] in s[parent].children ==>
              var c := s[parent].children[node.tokens[0]].tokens; c != [] && c[0] == node.tokens[0] && c != node.tokens
  {
    NextStored(s, before, root, size, parent, node.tokens);
    if node.tokens[0] in s[parent].children {
      ChildPath(s, before, root, size, parent, node.tokens[0]);
    }
  }

  lemma RivalThere(s: Shape, before: Paths, root: BlockNode, size: nat, parent: BlockNode, tokens: seq<Token>, n: BlockNode)
    requires Tree(s, before, root, size) && parent in s && n in before && Rivals(before[parent], tokens, before[n])
    ensures tokens[0] in s[parent].children && before[parent] + [s[parent].children[tokens[0]].tokens] <= before[n]
  {
    hide Hung, Fathers;
    var at, p := before[parent], before[n];
    var m := Ancestor(s, before, root, size, n, |at| + 1);
    assert p[..|at| + 1] == at + [p[|at|]];
    NextStored(s, before, root, size, parent, p[|at|]);
  }
}
