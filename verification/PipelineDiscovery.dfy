/** Enumerating every pipeline by depth-first search. */
module PipelineDiscovery {
  import opened Hosts
  import opened Sequences

  /** The ranges of `p` are non-empty and lead from layer `from` to layer `to` without a gap. */
  ghost predicate Joins(nodes: seq<Host>, p: seq<nat>, from: int, to: int) {
    if p == [] then from == to
    else
      && (forall k :: 0 <= k < |p| ==> Ranged(nodes, p[k]) && nodes[p[k]].range.start < nodes[p[k]].range.end)
      && nodes[p[0]].range.start == from
      && nodes[p[|p| - 1]].range.end == to
      && (forall k :: 0 < k < |p| ==> nodes[p[k - 1]].range.end == nodes[p[k]].range.start)
  }

  /** A head that starts at layer 0, continued to the last layer. */
  ghost predicate FullChain(nodes: seq<Host>, layers: int, p: seq<nat>) {
    && p != [] && Ranged(nodes, p[0]) && nodes[p[0]].range.start == 0
    && Joins(nodes, p[1..], nodes[p[0]].range.end, layers)
  }

  lemma JoinsCons(nodes: seq<Host>, i: nat, q: seq<nat>, from: int, to: int)
    ensures Joins(nodes, [i] + q, from, to) <==>
            && Ranged(nodes, i) && nodes[i].range.start == from && nodes[i].range.end > from
            && Joins(nodes, q, nodes[i].range.end, to)
  {
    var p := [i] + q;
    assert q != [] ==> q[0] == p[1] && q[|q| - 1] == p[|p| - 1];
    assert forall k :: 0 <= k < |q| ==> q[k] == p[k + 1];
    if q != [] && Joins(nodes, p, from, to) {
      assert nodes[p[1 - 1]].range.end == nodes[p[1]].range.start;
      forall k | 0 < k < |q|
        ensures nodes[q[k - 1]].range.end == nodes[q[k]].range.start
      {
        assert nodes[p[k + 1 - 1]].range.end == nodes[p[k + 1]].range.start;
      }
    }
  }

  lemma JoinsSnoc(nodes: seq<Host>, q: seq<nat>, i: nat, from: int, to: int)
    ensures Joins(nodes, q + [i], from, to) <==>
            && Ranged(nodes, i) && nodes[i].range.end == to && nodes[i].range.start < to
            && Joins(nodes, q, from, nodes[i].range.start)
  {
    var p := q + [i];
    assert q != [] ==> q[|q| - 1] == p[|p| - 2];
    assert forall k :: 0 <= k < |q| ==> q[k] == p[k];
    if q != [] && Joins(nodes, p, from, to) {
      assert nodes[p[|p| - 1 - 1]].range.end == nodes[p[|p| - 1]].range.start;
      forall k | 0 < k < |q|
        ensures nodes[q[k - 1]].range.end == nodes[q[k]].range.start
      {
        assert nodes[p[k - 1]].range.end == nodes[p[k]].range.start;
      }
    }
  }

  /** Joining moves strictly forward. */
  lemma {:induction false} JoinsAscends(nodes: seq<Host>, p: seq<nat>, from: int, to: int)
    requires Joins(nodes, p, from, to)
    ensures from + |p| <= to
  {
    if p != [] {
      assert p == [p[0]] + p[1..];
      JoinsCons(nodes, p[0], p[1..], from, to);
      JoinsAscends(nodes, p[1..], nodes[p[0]].range.end, to);
    }
  }

  /** `p` continues `path` with shards that join `from` to the last layer. */
  ghost predicate Completes(nodes: seq<Host>, layers: int, path: seq<nat>, from: int, p: seq<nat>) {
    path <= p && Joins(nodes, p[|path|..], from, layers)
  }

  /** The list holds exactly the completions of `path`, each once. */
  ghost predicate AllCompletions(nodes: seq<Host>, layers: int, path: seq<nat>, from: int, list: seq<seq<nat>>) {
    NoRepeats(list) && forall p :: p in list <==> Completes(nodes, layers, path, from, p)
  }

  /** The list holds exactly the completions of `path` whose next shard is one of `next`, each once. */
  ghost predicate Through(nodes: seq<Host>, layers: int, path: seq<nat>, next: seq<nat>, list: seq<seq<nat>>) {
    && NoRepeats(list)
    && (forall p :: p in list <==>
          path < p && p[|path|] in next && Ranged(nodes, p[|path|]) &&
          Joins(nodes, p[|path| + 1..], nodes[p[|path|]].range.end, layers))
  }

  /** The nodes that start where the path ends, shortest segment first. */
  predicate Candidate(nodes: seq<Host>, cur: int, i: nat) {
    Ranged(nodes, i) && nodes[i].range.start == cur && nodes[i].range.end > cur
  }

  predicate EndsFirst(nodes: seq<Host>, i: nat, j: nat)
    requires Ranged(nodes, i) && Ranged(nodes, j)
  {
    nodes[i].range.end < nodes[j].range.end || (nodes[i].range.end == nodes[j].range.end && i < j)
  }

  ghost predicate ByEnd(nodes: seq<Host>, s: seq<nat>) {
    && (forall k :: 0 <= k < |s| ==> Ranged(nodes, s[k]))
    && (forall a, b :: 0 <= a < b < |s| ==> EndsFirst(nodes, s[a], s[b]))
  }

  /** The candidates by their end; equal ends keep the list order. */
  method Candidates(nodes: seq<Host>, cur: int) returns (next: seq<nat>)
    ensures forall i: nat :: i in next <==> Candidate(nodes, cur, i)
    ensures ByEnd(nodes, next)
  {
    next := [];
    for i := 0 to |nodes|
      invariant forall x: nat :: x in next <==> x < i && Candidate(nodes, cur, x)
      invariant ByEnd(nodes, next)
    {
      if Candidate(nodes, cur, i) {
        var at := 0;
        while at < |next| && nodes[next[at]].range.end <= nodes[i].range.end
          invariant at <= |next|
          invariant forall k :: 0 <= k < at ==> nodes[next[k]].range.end <= nodes[i].range.end
        {
          at := at + 1;
        }
        InsertByEnd(nodes, next, at, i);
        next := next[..at] + [i] + next[at..];
      }
    }
  }

  lemma InsertByEnd(nodes: seq<Host>, s: seq<nat>, at: nat, i: nat)
    requires ByEnd(nodes, s) && Ranged(nodes, i) && at <= |s|
    requires forall x: nat :: x in s ==> x < i
    requires forall k :: 0 <= k < at ==> nodes[s[k]].range.end <= nodes[i].range.end
    requires at < |s| ==> nodes[i].range.end < nodes[s[at]].range.end
    ensures ByEnd(nodes, s[..at] + [i] + s[at..])
    ensures forall x: nat :: x in s[..at] + [i] + s[at..] <==> x == i || x in s
  {
    var r := s[..at] + [i] + s[at..];
    assert s == s[..at] + s[at..];
    forall k | 0 <= k < |s|
      ensures if k < at then EndsFirst(nodes, s[k], i) else EndsFirst(nodes, i, s[k])
    {
      assert s[k] in s;
      assert k > at ==> EndsFirst(nodes, s[at], s[k]);
    }
    forall a, b | 0 <= a < b < |r|
      ensures EndsFirst(nodes, r[a], r[b])
    {
      assert a != at ==> r[a] == s[if a < at then a else a - 1];
      assert b != at ==> r[b] == s[if b < at then b else b - 1];
    }
  }

  /** Adding the completions through one more candidate. */
  lemma ThroughOneMore(nodes: seq<Host>, layers: int, path: seq<nat>, next: seq<nat>, i: nat, list: seq<seq<nat>>, more: seq<seq<nat>>)
    requires Ranged(nodes, i) && i !in next
    requires Through(nodes, layers, path, next, list)
    requires AllCompletions(nodes, layers, path + [i], nodes[i].range.end, more)
    ensures Through(nodes, layers, path, next + [i], list + more)
  {
    forall p
      ensures p in more <==> path < p && p[|path|] == i && Joins(nodes, p[|path| + 1..], nodes[i].range.end, layers)
    {
      if path < p && p[|path|] == i {
        assert path + [i] <= p;
      }
    }
    var all := list + more;
    forall a, b | 0 <= a < b < |all|
      ensures all[a] != all[b]
    {
      if a < |list| <= b {
        assert all[a] in list && all[b] in more;
      }
    }
  }

  /** Going through every candidate gives every completion of an unfinished path. */
  lemma ThroughAll(nodes: seq<Host>, layers: int, path: seq<nat>, cur: int, next: seq<nat>, list: seq<seq<nat>>)
    requires cur != layers && Through(nodes, layers, path, next, list)
    requires forall i: nat :: i in next <==> Candidate(nodes, cur, i)
    ensures AllCompletions(nodes, layers, path, cur, list)
  {
    forall p
      ensures p in list <==> Completes(nodes, layers, path, cur, p)
    {
      if path < p {
        assert p[|path|..] == [p[|path|]] + p[|path| + 1..];
        JoinsCons(nodes, p[|path|], p[|path| + 1..], cur, layers);
      } else if path == p {
        assert p[|path|..] == [];
      }
    }
  }

  /** Nothing continues a path that has reached the last layer. */
  lemma CompleteAlready(nodes: seq<Host>, layers: int, path: seq<nat>)
    ensures AllCompletions(nodes, layers, path, layers, [path])
  {
    forall p
      ensures p in [path] <==> Completes(nodes, layers, path, layers, p)
    {
      if Completes(nodes, layers, path, layers, p) {
        JoinsAscends(nodes, p[|path|..], layers, layers);
        assert p == path;
      }
      if p == path {
        assert p[|path|..] == [];
      }
    }
  }

  /** The search: pipelines found so far, and the path being extended. */
  class Search {
    const nodes: seq<Host>
    const layers: int
    var pipelines: seq<seq<nat>>
    var path: seq<nat>

    constructor (nodes: seq<Host>, layers: int)
      ensures this.nodes == nodes && this.layers == layers && pipelines == [] && path == []
    {
      this.nodes, this.layers := nodes, layers;
      pipelines, path := [], [];
    }

    /** Records every completion of the path from layer `cur` once, and leaves the path as it was. */
    method Dfs(cur: int) returns (ghost found: seq<seq<nat>>)
      modifies this
      ensures path == old(path)
      ensures pipelines == old(pipelines) + found
      ensures AllCompletions(nodes, layers, path, cur, found)
      decreases set i: nat | i < |nodes| && nodes[i].range.Layers? && nodes[i].range.end > cur
    {
      if cur == layers {
        pipelines := pipelines + [path];
        CompleteAlready(nodes, layers, path);
        return [path];
      }
      var next := Candidates(nodes, cur);
      found := [];
      for k := 0 to |next|
        invariant path == old(path)
        invariant pipelines == old(pipelines) + found
        invariant Through(nodes, layers, path, next[..k], found)
      {
        var i := next[k];
        assert Candidate(nodes, cur, i);
        path := path + [i];
        Shrinks(nodes, cur, i);
        var more := Dfs(nodes[i].range.end);
        path := path[..|path| - 1];
        ThroughOneMore(nodes, layers, path, next[..k], i, found, more);
        assert next[..k] + [i] == next[..k + 1];
        found := found + more;
      }
      assert next[..|next|] == next;
      ThroughAll(nodes, layers, path, cur, next, found);
    }

    /** Searches from every node that starts at layer 0. */
    method FromHeads() returns (ghost found: seq<seq<nat>>)
      requires path == []
      modifies this
      ensures pipelines == old(pipelines) + found
      ensures NoRepeats(found) && forall p :: p in found <==> FullChain(nodes, layers, p)
    {
      hide FullChain, Through, NoRepeats, Joins;
      var heads := Heads(nodes);
      found := [];
      NothingThrough(nodes, layers, heads);
      for k := 0 to |heads|
        invariant path == []
        invariant pipelines == old(pipelines) + found
        invariant Through(nodes, layers, [], heads[..k], found)
      {
        var i := heads[k];
        assert i in heads;
        path := [i];
        var more := Dfs(nodes[i].range.end);
        path := [];
        assert [] + [i] == [i];
        ThroughOneMore(nodes, layers, [], heads[..k], i, found, more);
        assert heads[..k] + [i] == heads[..k + 1];
        found := found + more;
      }
      assert heads[..|heads|] == heads;
      FromAll(nodes, layers, heads, found);
    }
  }

  lemma NothingThrough(nodes: seq<Host>, layers: int, heads: seq<nat>)
    ensures Through(nodes, layers, [], heads[..0], [])
  {
  }

  /** What leads through the nodes that start at layer 0 are the full chains. */
  lemma FromAll(nodes: seq<Host>, layers: int, heads: seq<nat>, found: seq<seq<nat>>)
    requires Through(nodes, layers, [], heads, found)
    requires forall i: nat :: i in heads <==> Ranged(nodes, i) && nodes[i].range.start == 0
    ensures NoRepeats(found) && forall p :: p in found <==> FullChain(nodes, layers, p)
  {
    hide Joins;
  }

  lemma Shrinks(nodes: seq<Host>, cur: int, i: nat)
    requires Candidate(nodes, cur, i)
    ensures (set j: nat | j < |nodes| && nodes[j].range.Layers? && nodes[j].range.end > nodes[i].range.end) <
            (set j: nat | j < |nodes| && nodes[j].range.Layers? && nodes[j].range.end > cur)
  {
    var above := set j: nat | j < |nodes| && nodes[j].range.Layers? && nodes[j].range.end > nodes[i].range.end;
    var all := set j: nat | j < |nodes| && nodes[j].range.Layers? && nodes[j].range.end > cur;
    assert i in all && i !in above;
  }

  /** The nodes that start at layer 0, in list order. */
  method Heads(nodes: seq<Host>) returns (heads: seq<nat>)
    ensures forall i: nat :: i in heads <==> Ranged(nodes, i) && nodes[i].range.start == 0
    ensures forall a, b :: 0 <= a < b < |heads| ==> heads[a] < heads[b]
  {
    heads := [];
    for i := 0 to |nodes|
      invariant forall x: nat :: x in heads <==> x < i && Ranged(nodes, x) && nodes[x].range.start == 0
      invariant forall k :: 0 <= k < |heads| ==> heads[k] < i
      invariant forall a, b :: 0 <= a < b < |heads| ==> heads[a] < heads[b]
    {
      if nodes[i].range.Layers? && nodes[i].range.start == 0 {
        heads := heads + [i];
      }
    }
  }

  /** Every full chain exactly once, and nothing else; nothing at all when there are no layers. */
  method Discover(nodes: seq<Host>, layers: int) returns (pipelines: seq<seq<nat>>)
    ensures layers <= 0 ==> pipelines == []
    ensures layers > 0 ==> NoRepeats(pipelines) && forall p :: p in pipelines <==> FullChain(nodes, layers, p)
  {
    if nodes == [] || layers <= 0 {
      return [];
    }
    var search := new Search(nodes, layers);
    var found := search.FromHeads();
    pipelines := search.pipelines;
    assert [] + found == found;
  }
}
