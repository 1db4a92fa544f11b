/** Layer-level routing, and trimming every node to the layers the best route uses it for. */
module TurningPoints {
  import opened Hosts
  import opened Workers
  import opened Sequences

  datatype Back = NoBack | From(i: nat)

  datatype Turn = Tail(node: nat, layer: nat) | Head(node: nat, layer: nat)

  /** One hosting node per layer, from layer 0 on. */
  ghost predicate Assignment(nodes: seq<Host>, a: seq<nat>) {
    forall l :: 0 <= l < |a| ==> a[l] < |nodes| && Covers(nodes[a[l]].range, l)
  }

  function Move(nodes: seq<Host>, j: nat, i: nat): Cost
    requires j < |nodes| && i < |nodes|
  {
    if i == j then Fin(0.0) else Rtt(nodes[j], nodes[i])
  }

  /** The latency of every layer plus the moves between them. */
  function LayerCost(nodes: seq<Host>, a: seq<nat>): Cost
    requires a != [] && forall l :: 0 <= l < |a| ==> a[l] < |nodes|
  {
    var i := a[|a| - 1];
    if |a| == 1 then nodes[i].latency
    else
      var init := a[..|a| - 1];
      LayerCost(nodes, init).Plus(Move(nodes, init[|init| - 1], i)).Plus(nodes[i].latency)
  }

  /** Milliseconds per layer and per move, from the hosts' own latencies and measurements. */
  ghost predicate LayersTimed(nodes: seq<Host>, a: seq<nat>, stages: seq<real>, moves: seq<real>) {
    && |stages| == |a| && |moves| == |a| - 1
    && (forall l :: 0 <= l < |a| ==> a[l] < |nodes| && nodes[a[l]].latency == Fin(stages[l]))
    && (forall l :: 0 <= l < |moves| ==> MoveTimed(nodes, a, l, moves[l]))
  }

  /** Staying takes no time. */
  ghost predicate MoveTimed(nodes: seq<Host>, a: seq<nat>, l: nat, t: real)
    requires l < |a| - 1 && a[l] < |nodes| && a[l + 1] < |nodes|
  {
    if a[l] == a[l + 1] || nodes[a[l]] == nodes[a[l + 1]] then t == 0.0 else Measured(nodes[a[l]], nodes[a[l + 1]], t)
  }

  /** An assignment costs the milliseconds of its layers and moves, and infinity when one of them has none. */
  lemma {:induction false} LayerCostIsTime(nodes: seq<Host>, a: seq<nat>)
    requires a != [] && forall l :: 0 <= l < |a| ==> a[l] < |nodes|
    ensures LayerCost(nodes, a).Fin? ==> exists stages, moves :: LayersTimed(nodes, a, stages, moves)
    ensures forall stages, moves :: LayersTimed(nodes, a, stages, moves) ==> LayerCost(nodes, a) == Fin(SumReals(stages) + SumReals(moves))
    decreases |a|
  {
    var i := a[|a| - 1];
    if |a| == 1 {
      if nodes[i].latency.Fin? {
        assert LayersTimed(nodes, a, [nodes[i].latency.ms], []);
      }
      forall stages, moves | LayersTimed(nodes, a, stages, moves)
        ensures LayerCost(nodes, a) == Fin(SumReals(stages) + SumReals(moves))
      {
        SumRealsLast(stages);
      }
    } else {
      LayerCostIsTime(nodes, a[..|a| - 1]);
      if LayerCost(nodes, a).Fin? {
        var stages, moves :| LayersTimed(nodes, a[..|a| - 1], stages, moves);
        TimedNext(nodes, a, stages, moves);
      }
      forall stages, moves | LayersTimed(nodes, a, stages, moves)
        ensures LayerCost(nodes, a) == Fin(SumReals(stages) + SumReals(moves))
      {
        TimedInit(nodes, a, stages, moves);
        SumRealsLast(stages);
        SumRealsLast(moves);
      }
    }
  }

  lemma TimedNext(nodes: seq<Host>, a: seq<nat>, stages: seq<real>, moves: seq<real>)
    requires |a| > 1 && (forall l :: 0 <= l < |a| ==> a[l] < |nodes|) && LayersTimed(nodes, a[..|a| - 1], stages, moves)
    requires nodes[a[|a| - 1]].latency.Fin? && Move(nodes, a[|a| - 2], a[|a| - 1]).Fin?
    ensures LayersTimed(nodes, a, stages + [nodes[a[|a| - 1]].latency.ms], moves + [Move(nodes, a[|a| - 2], a[|a| - 1]).ms])
  {
    var init, moves' := a[..|a| - 1], moves + [Move(nodes, a[|a| - 2], a[|a| - 1]).ms];
    forall l | 0 <= l < |moves'|
      ensures MoveTimed(nodes, a, l, moves'[l])
    {
      if l < |moves| {
        assert MoveTimed(nodes, init, l, moves[l]);
      }
    }
  }

  lemma TimedInit(nodes: seq<Host>, a: seq<nat>, stages: seq<real>, moves: seq<real>)
    requires |a| > 1 && LayersTimed(nodes, a, stages, moves)
    ensures LayersTimed(nodes, a[..|a| - 1], stages[..|a| - 1], moves[..|a| - 2])
    ensures nodes[a[|a| - 1]].latency == Fin(stages[|a| - 1]) && Move(nodes, a[|a| - 2], a[|a| - 1]) == Fin(moves[|a| - 2])
  {
    var init := a[..|a| - 1];
    forall l | 0 <= l < |a| - 2
      ensures MoveTimed(nodes, init, l, moves[l])
    {
      assert MoveTimed(nodes, a, l, moves[l]);
    }
    assert MoveTimed(nodes, a, |a| - 2, moves[|a| - 2]);
  }

  /** What node `i` costs when it is reached from `j`. */
  function Via(nodes: seq<Host>, row: seq<Cost>, j: nat, i: nat): Cost
    requires |row| == |nodes| && j < |nodes| && i < |nodes|
  {
    row[j].Plus(Move(nodes, j, i)).Plus(nodes[i].latency)
  }

  /** One row of the table: infinite where the layer is not hosted, else the cheapest way in. */
  ghost predicate RowAfter(nodes: seq<Host>, l: nat, prev: seq<Cost>, row: seq<Cost>, back: seq<Back>) {
    && |prev| == |row| == |back| == |nodes|
    && (forall i :: 0 <= i < |nodes| ==> EntryFrom(nodes, l, prev, row[i], back[i], i))
    && (forall i, j :: 0 <= i < |nodes| && 0 <= j < |nodes| && nodes[i].Hosts(l) ==> row[i].AtMost(Via(nodes, prev, j, i)))
  }

  /** An entry is infinite without a way in, or comes from where its back pointer says. */
  ghost predicate EntryFrom(nodes: seq<Host>, l: nat, prev: seq<Cost>, cost: Cost, back: Back, i: nat)
    requires |prev| == |nodes| && i < |nodes|
  {
    if cost.Inf? then back == NoBack
    else nodes[i].Hosts(l) && back.From? && back.i < |nodes| && prev[back.i].Fin? && cost == Via(nodes, prev, back.i, i)
  }

  method Relax(nodes: seq<Host>, l: nat, prev: seq<Cost>) returns (row: seq<Cost>, back: seq<Back>)
    requires |prev| == |nodes|
    ensures RowAfter(nodes, l, prev, row, back)
  {
    row, back := [], [];
    for i := 0 to |nodes|
      invariant |row| == |back| == i
      invariant forall m :: 0 <= m < i ==> EntryFrom(nodes, l, prev, row[m], back[m], m)
      invariant forall m, j :: 0 <= m < i && 0 <= j < |nodes| && nodes[m].Hosts(l) ==> row[m].AtMost(Via(nodes, prev, j, m))
    {
      var best, from := Inf, NoBack;
      if nodes[i].Hosts(l) {
        for j := 0 to |nodes|
          invariant EntryFrom(nodes, l, prev, best, from, i)
          invariant forall m :: 0 <= m < j ==> best.AtMost(Via(nodes, prev, m, i))
        {
          if prev[j].Fin? {
            var total := Via(nodes, prev, j, i);
            if total.Less(best) {
              best, from := total, From(j);
            }
          }
        }
      }
      row, back := row + [best], back + [from];
    }
  }

  /** Row `l` bounds every assignment of layers 0 to `l` by its last node. */
  ghost predicate Bounds(nodes: seq<Host>, row: seq<Cost>, l: nat) {
    && |row| == |nodes|
    && forall a: seq<nat> :: |a| == l + 1 && Assignment(nodes, a) ==> row[a[l]].AtMost(LayerCost(nodes, a))
  }

  /** The table: one row and one row of back pointers per layer done. */
  ghost predicate Table(nodes: seq<Host>, dp: seq<seq<Cost>>, back: seq<seq<Back>>) {
    && dp != [] && |back| == |dp|
    && |dp[0]| == |nodes| && (forall i :: 0 <= i < |nodes| ==> dp[0][i] == if nodes[i].Hosts(0) then nodes[i].latency else Inf)
    && (forall l :: 0 < l < |dp| ==> RowAfter(nodes, l, dp[l - 1], dp[l], back[l]))
  }

  lemma NextBounds(nodes: seq<Host>, prev: seq<Cost>, row: seq<Cost>, back: seq<Back>, l: nat)
    requires l > 0 && Bounds(nodes, prev, l - 1) && RowAfter(nodes, l, prev, row, back)
    ensures Bounds(nodes, row, l)
  {
    forall a: seq<nat> | |a| == l + 1 && Assignment(nodes, a)
      ensures row[a[l]].AtMost(LayerCost(nodes, a))
    {
      var init := a[..l];
      assert Assignment(nodes, init);
      assert prev[init[l - 1]].AtMost(LayerCost(nodes, init));
      assert row[a[l]].AtMost(Via(nodes, prev, a[l - 1], a[l]));
    }
  }

  lemma {:induction false} TableBounds(nodes: seq<Host>, dp: seq<seq<Cost>>, back: seq<seq<Back>>, l: nat)
    requires Table(nodes, dp, back) && l < |dp|
    ensures Bounds(nodes, dp[l], l)
  {
    if l > 0 {
      TableBounds(nodes, dp, back, l - 1);
      NextBounds(nodes, dp[l - 1], dp[l], back[l], l);
    }
  }

  /** The assignment the back pointers spell, read from node `i` at layer `l`. */
  ghost function Spelled(nodes: seq<Host>, dp: seq<seq<Cost>>, back: seq<seq<Back>>, l: nat, i: nat): (a: seq<nat>)
    requires Table(nodes, dp, back) && l < |dp| && i < |nodes| && |dp[l]| == |nodes| && dp[l][i].Fin?
    ensures |a| == l + 1 && a[l] == i && Assignment(nodes, a) && LayerCost(nodes, a) == dp[l][i]
  {
    if l == 0 then [i]
    else
      assert RowAfter(nodes, l, dp[l - 1], dp[l], back[l]);
      var j := back[l][i].i;
      var init := Spelled(nodes, dp, back, l - 1, j);
      assert (init + [i])[..l] == init;
      init + [i]
  }

  lemma RowLength(nodes: seq<Host>, dp: seq<seq<Cost>>, back: seq<seq<Back>>, l: nat)
    requires Table(nodes, dp, back) && l < |dp|
    ensures |dp[l]| == |nodes|
  {
    assert l > 0 ==> RowAfter(nodes, l, dp[l - 1], dp[l], back[l]);
  }

  /** Reads the route back from its last node; it stops at once when the cost is infinite. */
  method Backtrack(nodes: seq<Host>, dp: seq<seq<Cost>>, back: seq<seq<Back>>, last: nat) returns (path: seq<nat>)
    requires Table(nodes, dp, back) && last < |nodes| && |dp[|dp| - 1]| == |nodes|
    ensures path == if dp[|dp| - 1][last].Fin? then Spelled(nodes, dp, back, |dp| - 1, last) else [last]
  {
    hide LayerCost, Via, Assignment;
    path := [last];
    var l := |dp| - 1;
    while l > 0
      invariant 0 <= l < |dp| && path != [] && path[0] < |nodes| && |dp[l]| == |nodes|
      invariant if dp[|dp| - 1][last].Fin? then
                  dp[l][path[0]].Fin? && Spelled(nodes, dp, back, |dp| - 1, last) == Spelled(nodes, dp, back, l, path[0]) + path[1..]
                else path == [last] && l == |dp| - 1
    {
      RowLength(nodes, dp, back, l - 1);
      assert RowAfter(nodes, l, dp[l - 1], dp[l], back[l]);
      assert EntryFrom(nodes, l, dp[l - 1], dp[l][path[0]], back[l][path[0]], path[0]);
      if back[l][path[0]].NoBack? {
        break;
      }
      path, l := [back[l][path[0]].i] + path, l - 1;
    }
  }

  /** All layers can be assigned to hosts. */
  ghost predicate AllHosted(nodes: seq<Host>, layers: nat) {
    exists a: seq<nat> :: |a| == layers && Assignment(nodes, a)
  }

  lemma HostOf(nodes: seq<Host>, layers: nat, l: nat)
    requires l < layers && AllHosted(nodes, layers)
    ensures HostedBySome(nodes, l)
  {
    var a: seq<nat> :| |a| == layers && Assignment(nodes, a);
    assert nodes[a[l]].Hosts(l);
  }

  lemma {:induction false} EachHosted(nodes: seq<Host>, layers: nat) returns (a: seq<nat>)
    requires forall l :: 0 <= l < layers ==> HostedBySome(nodes, l)
    ensures |a| == layers && Assignment(nodes, a)
  {
    a := [];
    if layers > 0 {
      a := EachHosted(nodes, layers - 1);
      assert HostedBySome(nodes, layers - 1);
      var i :| 0 <= i < |nodes| && nodes[i].Hosts(layers - 1);
      a := a + [i];
    }
  }

  predicate HostedBySome(nodes: seq<Host>, l: nat) {
    exists i :: 0 <= i < |nodes| && nodes[i].Hosts(l)
  }

  /** A cheapest assignment of all layers, of finite cost. */
  ghost predicate BestRoute(nodes: seq<Host>, layers: nat, path: seq<nat>) {
    && |path| == layers > 0 && Assignment(nodes, path) && LayerCost(nodes, path).Fin?
    && forall a :: |a| == layers && Assignment(nodes, a) ==> LayerCost(nodes, path).AtMost(LayerCost(nodes, a))
  }

  ghost predicate Unroutable(nodes: seq<Host>, layers: nat) {
    forall a :: |a| == layers > 0 && Assignment(nodes, a) ==> LayerCost(nodes, a).Inf?
  }

  /** A cheapest route in milliseconds: no assignment of all layers takes less time. */
  lemma BestRouteInTime(nodes: seq<Host>, layers: nat, path: seq<nat>)
    requires BestRoute(nodes, layers, path)
    ensures exists stages, moves ::
              && LayersTimed(nodes, path, stages, moves)
              && forall a, s, m :: |a| == layers && Assignment(nodes, a) && LayersTimed(nodes, a, s, m) ==>
                   SumReals(stages) + SumReals(moves) <= SumReals(s) + SumReals(m)
  {
    hide LayersTimed, SumReals, LayerCost;
    LayerCostIsTime(nodes, path);
    var stages, moves :| LayersTimed(nodes, path, stages, moves);
    forall a, s, m | |a| == layers && Assignment(nodes, a) && LayersTimed(nodes, a, s, m)
      ensures SumReals(stages) + SumReals(moves) <= SumReals(s) + SumReals(m)
    {
      LayerCostIsTime(nodes, a);
    }
  }

  /** The table for all layers. */
  method FillTable(nodes: seq<Host>, layers: nat) returns (dp: seq<seq<Cost>>, back: seq<seq<Back>>)
    requires layers > 0
    ensures Table(nodes, dp, back) && |dp| == layers
  {
    var row0 := seq(|nodes|, i requires 0 <= i < |nodes| => if nodes[i].Hosts(0) then nodes[i].latency else Inf);
    dp, back := [row0], [seq(|nodes|, _ => NoBack)];
    for l := 1 to layers
      invariant |dp| == l && Table(nodes, dp, back)
    {
      RowLength(nodes, dp, back, l - 1);
      var row, backs := Relax(nodes, l, dp[l - 1]);
      dp, back := dp + [row], back + [backs];
    }
  }

  /** The first host of the last layer whose entry is least. */
  method BestLast(nodes: seq<Host>, l: nat, row: seq<Cost>) returns (last: nat)
    requires |row| == |nodes| && HostedBySome(nodes, l)
    ensures last < |nodes| && nodes[last].Hosts(l)
    ensures forall i :: 0 <= i < |nodes| && nodes[i].Hosts(l) ==> row[last].AtMost(row[i])
  {
    var best := NoBack;
    for i := 0 to |nodes|
      invariant best.From? ==> best.i < |nodes| && nodes[best.i].Hosts(l)
      invariant forall m :: 0 <= m < i && nodes[m].Hosts(l) ==> best.From? && row[best.i].AtMost(row[m])
    {
      if nodes[i].Hosts(l) && (best.NoBack? || row[i].Less(row[best.i])) {
        best := From(i);
      }
    }
    last := best.i;
  }

  /** A cheapest route; a single node when every route costs infinity; nothing when a layer has no host. */
  method BestPath(nodes: seq<Host>, layers: nat) returns (path: seq<nat>)
    requires layers > 0
    ensures !AllHosted(nodes, layers) ==> path == []
    ensures AllHosted(nodes, layers) && !Unroutable(nodes, layers) ==> BestRoute(nodes, layers, path)
    ensures AllHosted(nodes, layers) && Unroutable(nodes, layers) ==> |path| == 1 && path[0] < |nodes|
  {
    for l := 0 to layers
      invariant forall m :: 0 <= m < l ==> HostedBySome(nodes, m)
    {
      if !HostedBySome(nodes, l) {
        if AllHosted(nodes, layers) {
          HostOf(nodes, layers, l);
        }
        return [];
      }
    }
    ghost var _ := EachHosted(nodes, layers);
    var dp, back := FillTable(nodes, layers);
    RowLength(nodes, dp, back, layers - 1);
    var last := BestLast(nodes, layers - 1, dp[layers - 1]);
    path := Backtrack(nodes, dp, back, last);
    TableBounds(nodes, dp, back, layers - 1);
    forall a: seq<nat> | |a| == layers && Assignment(nodes, a)
      ensures dp[layers - 1][last].AtMost(LayerCost(nodes, a))
    {
      assert nodes[a[layers - 1]].Hosts(layers - 1);
    }
    if dp[layers - 1][last].Fin? {
      assert !Unroutable(nodes, layers);
    }
  }

  /** Node `i` serves layers `a` to `b`, and no earlier ones, before the route moves on. */
  predicate Run(path: seq<nat>, i: nat, a: nat, b: nat) {
    && a < b <= |path| && (forall k :: a <= k < b ==> path[k] == i)
    && i !in path[..a] && (b < |path| ==> path[b] != i)
  }

  ghost predicate Ends(path: seq<nat>, i: nat, b: nat) {
    exists a: nat :: Run(path, i, a, b)
  }

  ghost predicate Starts(path: seq<nat>, i: nat, a: nat) {
    exists b: nat :: Run(path, i, a, b)
  }

  lemma RunOf(path: seq<nat>, i: nat) returns (a: nat, b: nat)
    requires i in path
    ensures Run(path, i, a, b)
  {
    a := 0;
    while path[a] != i
      invariant a < |path| && i !in path[..a] && i in path[a..]
      decreases |path| - a
    {
      assert path[a..] == [path[a]] + path[a + 1..];
      assert path[..a + 1] == path[..a] + [path[a]];
      a := a + 1;
    }
    b := a + 1;
    while b < |path| && path[b] == i
      invariant a < b <= |path| && forall k :: a <= k < b ==> path[k] == i
    {
      b := b + 1;
    }
  }

  lemma RunFirst(path: seq<nat>, i: nat, a: nat, b: nat, k: nat)
    requires Run(path, i, a, b) && k < |path| && path[k] == i
    ensures a <= k
  {
    assert forall m :: 0 <= m < a ==> path[..a][m] == path[m];
  }

  lemma OneRun(path: seq<nat>, i: nat, a: nat, b: nat, c: nat, d: nat)
    requires Run(path, i, a, b) && Run(path, i, c, d)
    ensures a == c && b == d
  {
    RunFirst(path, i, a, b, c);
    RunFirst(path, i, c, d, a);
  }

  /** The route uses each node for one stretch of layers. */
  ghost predicate NeverReturns(path: seq<nat>) {
    forall x, y, z :: 0 <= x < y < z < |path| && path[x] == path[z] ==> path[y] == path[x]
  }

  lemma RunHolds(path: seq<nat>, i: nat, a: nat, b: nat, k: nat)
    requires Run(path, i, a, b) && NeverReturns(path) && a <= k < |path| && path[k] == i
    ensures k < b
  {
    assert path[a] == i;
  }

  predicate Covers(range: Range, l: int) {
    range.Layers? && range.start <= l < range.end
  }

  /** Every node on the route holds exactly the layers of its first stretch; the others are as before. */
  ghost predicate Trimmed(nodes: seq<Host>, path: seq<nat>, ranges: seq<Range>) {
    && |ranges| == |nodes|
    && (forall i: nat, a: nat, b: nat :: Run(path, i, a, b) && i < |nodes| ==> ranges[i] == Layers(a, b))
    && (forall i :: 0 <= i < |nodes| && i !in path ==> ranges[i] == nodes[i].range)
  }

  /** After trimming, the route is still hosted exactly when it never returns to a node it left. */
  lemma TrimmedRouteHosted(nodes: seq<Host>, path: seq<nat>, ranges: seq<Range>)
    requires Assignment(nodes, path) && Trimmed(nodes, path, ranges)
    ensures (forall l :: 0 <= l < |path| ==> Covers(ranges[path[l]], l)) <==> NeverReturns(path)
  {
    if NeverReturns(path) {
      forall l | 0 <= l < |path|
        ensures Covers(ranges[path[l]], l)
      {
        var a, b := RunOf(path, path[l]);
        RunFirst(path, path[l], a, b, l);
        RunHolds(path, path[l], a, b, l);
      }
    }
    if forall l :: 0 <= l < |path| ==> Covers(ranges[path[l]], l) {
      forall x, y, z | 0 <= x < y < z < |path| && path[x] == path[z]
        ensures path[y] == path[x]
      {
        var a, b := RunOf(path, path[x]);
        RunFirst(path, path[x], a, b, x);
        assert Covers(ranges[path[z]], z);
      }
    }
  }

  /** When the route never returns, its nodes split the layers: each layer is held by its own node and no other on the route. */
  lemma TrimmedRangesTile(nodes: seq<Host>, path: seq<nat>, ranges: seq<Range>, l: nat, i: nat)
    requires Assignment(nodes, path) && Trimmed(nodes, path, ranges) && NeverReturns(path)
    requires l < |path| && i in path
    ensures Covers(ranges[i], l) <==> i == path[l]
  {
    TrimmedRouteHosted(nodes, path, ranges);
    var k :| 0 <= k < |path| && path[k] == i;
    var a, b := RunOf(path, i);
    assert ranges[i] == Layers(a, b);
    assert Covers(ranges[i], l) ==> path[l] == i;
    assert i == path[l] ==> Covers(ranges[path[l]], l);
  }

  ghost predicate AllRanged(nodes: seq<Host>) {
    forall i :: 0 <= i < |nodes| ==> nodes[i].range.Layers?
  }

  /** Where the tail phase has got to before layer `l`: runs that ended are cut at their end. */
  ghost predicate TailsCut(nodes: seq<Host>, path: seq<nat>, ranges: seq<Range>, l: nat)
    requires AllRanged(nodes)
  {
    && |ranges| == |nodes|
    && (forall i: nat, a: nat, b: nat :: Run(path, i, a, b) && i < |nodes| ==>
          ranges[i] == Layers(nodes[i].range.start, if b < l then b else nodes[i].range.end))
    && (forall i :: 0 <= i < |nodes| && i !in path ==> ranges[i] == nodes[i].range)
  }

  /** Where the head phase has got to before layer `l`: runs that started lose the layers before them. */
  ghost predicate HeadsCut(nodes: seq<Host>, path: seq<nat>, ranges: seq<Range>, l: nat)
    requires AllRanged(nodes)
  {
    && |ranges| == |nodes|
    && (forall i: nat, a: nat, b: nat :: Run(path, i, a, b) && i < |nodes| ==>
          ranges[i] == Layers(if a < l then a else nodes[i].range.start, b))
    && (forall i :: 0 <= i < |nodes| && i !in path ==> ranges[i] == nodes[i].range)
  }

  ghost predicate Within(nodes: seq<Host>, layers: nat) {
    forall i :: 0 <= i < |nodes| ==> nodes[i].range.Layers? && 0 <= nodes[i].range.start < nodes[i].range.end <= layers
  }

  ghost function Ranges(ws: seq<Worker>): (r: seq<Range>)
    reads ws
    ensures |r| == |ws| && forall i :: 0 <= i < |ws| ==> r[i] == ws[i].range
  {
    seq(|ws|, i requires 0 <= i < |ws| reads ws => ws[i].range)
  }

  /** The tails to cut and the heads to cut, each turn where a run ends or starts. */
  ghost predicate TurnsOf(nodes: seq<Host>, path: seq<nat>, turning: seq<Turn>, tails: nat, heads: nat) {
    && (forall i: nat, l: nat :: Tail(i, l) in turning <==>
          i < |nodes| && l < tails && l < |path| && nodes[i].range.Layers? && l < nodes[i].range.end && Ends(path, i, l))
    && (forall i: nat, a: nat :: Head(i, a) in turning <==>
          i < |nodes| && a < heads && nodes[i].range.Layers? && a > nodes[i].range.start && Starts(path, i, a))
  }

  /** Moving a worker to other layers. */
  method Reallocate(w: Worker, start: int, end: int)
    requires start < end && w.active && w.range.Layers?
    modifies w
    ensures w.range == Layers(start, end) && w.active
  {
    var raised := w.Deallocate();
    w.Allocate(start, end);
  }

  /** The node left at layer `l` is cut there exactly when its first stretch ends there and it hosts on. */
  lemma TailDue(nodes: seq<Host>, path: seq<nat>, ranges: seq<Range>, l: nat)
    requires AllRanged(nodes) && Assignment(nodes, path) && 0 < l < |path| && TailsCut(nodes, path, ranges, l)
    ensures var prev := path[l - 1];
            && ranges[prev].Layers? && ranges[prev].start < l
            && (path[l] != prev && Covers(ranges[prev], l) <==> l < nodes[prev].range.end && Ends(path, prev, l))
  {
    var prev := path[l - 1];
    var a, b := RunOf(path, prev);
    RunFirst(path, prev, a, b, l - 1);
    assert nodes[path[a]].Hosts(a);
    if Ends(path, prev, l) {
      var c: nat :| Run(path, prev, c, l);
      OneRun(path, prev, a, b, c, l);
    }
    if path[l] != prev && Covers(ranges[prev], l) {
      assert b == l;
    }
  }

  lemma TailStep(nodes: seq<Host>, path: seq<nat>, ranges: seq<Range>, l: nat)
    requires AllRanged(nodes) && Assignment(nodes, path) && 0 < l < |path| && TailsCut(nodes, path, ranges, l)
    ensures var prev := path[l - 1];
            if path[l] != prev && Covers(ranges[prev], l) then TailsCut(nodes, path, ranges[prev := Layers(ranges[prev].start, l)], l + 1)
            else TailsCut(nodes, path, ranges, l + 1)
  {
    var prev := path[l - 1];
    TailDue(nodes, path, ranges, l);
    var cut := path[l] != prev && Covers(ranges[prev], l);
    forall i: nat, a: nat, b: nat | Run(path, i, a, b) && i < |nodes|
      ensures (if cut then ranges[prev := Layers(ranges[prev].start, l)] else ranges)[i] ==
              Layers(nodes[i].range.start, if b < l + 1 then b else nodes[i].range.end)
    {
      if b == l {
        assert path[l - 1] == i;
        assert nodes[path[l - 1]].Hosts(l - 1);
      }
      if i == prev && cut {
        var c: nat :| Run(path, prev, c, l);
        OneRun(path, prev, a, b, c, l);
      }
    }
  }

  lemma TailTurns(nodes: seq<Host>, path: seq<nat>, turning: seq<Turn>, l: nat, cut: bool)
    requires AllRanged(nodes) && Assignment(nodes, path) && 0 < l < |path| && TurnsOf(nodes, path, turning, l, 0)
    requires cut <==> l < nodes[path[l - 1]].range.end && Ends(path, path[l - 1], l)
    ensures TurnsOf(nodes, path, if cut then turning + [Tail(path[l - 1], l)] else turning, l + 1, 0)
  {
    var all := if cut then turning + [Tail(path[l - 1], l)] else turning;
    forall i: nat, m: nat
      ensures Tail(i, m) in all <==> i < |nodes| && m < l + 1 && m < |path| && m < nodes[i].range.end && Ends(path, i, m)
    {
      if Ends(path, i, m) {
        var a: nat :| Run(path, i, a, m);
        assert path[m - 1] == i;
      }
    }
  }

  method CutTails(nodes: seq<Host>, ws: seq<Worker>, path: seq<nat>) returns (turning: seq<Turn>)
    requires NoRepeats(ws) && |ws| == |nodes| && AllRanged(nodes) && Assignment(nodes, path) && path != []
    requires forall i :: 0 <= i < |ws| ==> ws[i].active && ws[i].range == nodes[i].range
    modifies ws
    ensures forall i :: 0 <= i < |ws| ==> ws[i].active
    ensures TailsCut(nodes, path, Ranges(ws), |path|)
    ensures TurnsOf(nodes, path, turning, |path|, 0)
  {
    hide TailsCut, TurnsOf, Run, Ends;
    turning := [];
    NoTurnsYet(nodes, path, Ranges(ws));
    for l := 1 to |path|
      invariant forall i :: 0 <= i < |ws| ==> ws[i].active
      invariant TailsCut(nodes, path, Ranges(ws), l)
      invariant TurnsOf(nodes, path, turning, l, 0)
    {
      var prev := path[l - 1];
      assert nodes[prev].Hosts(l - 1);
      ghost var before := Ranges(ws);
      TailStep(nodes, path, before, l);
      TailDue(nodes, path, before, l);
      var w := ws[prev];
      assert w.range == before[prev];
      TailTurns(nodes, path, turning, l, prev != path[l] && Covers(w.range, l));
      if prev != path[l] {
        if Covers(w.range, l) {
          turning := turning + [Tail(prev, l)];
          Reallocate(w, w.range.start, l);
          assert Ranges(ws) == before[prev := Layers(before[prev].start, l)];
        }
      }
      assert prev == path[l] || !Covers(before[prev], l) ==> Ranges(ws) == before;
    }
  }

  lemma NoTurnsYet(nodes: seq<Host>, path: seq<nat>, ranges: seq<Range>)
    requires AllRanged(nodes) && |ranges| == |nodes| && forall i :: 0 <= i < |nodes| ==> ranges[i] == nodes[i].range
    ensures TailsCut(nodes, path, ranges, 1) && TurnsOf(nodes, path, [], 1, 0)
  {
  }

  /** A node first used at layer `l` starts its stretch there, and still hosts the layers up to its end. */
  lemma HeadDue(nodes: seq<Host>, path: seq<nat>, ranges: seq<Range>, l: nat)
    requires AllRanged(nodes) && Assignment(nodes, path) && l < |path| && HeadsCut(nodes, path, ranges, l)
    ensures var here := path[l];
            && (here !in path[..l] <==> Starts(path, here, l))
            && (here !in path[..l] ==> ranges[here].Layers? && l < ranges[here].end && ranges[here].start == nodes[here].range.start)
  {
    var here := path[l];
    var a, b := RunOf(path, here);
    RunFirst(path, here, a, b, l);
    assert a < l ==> path[..l][a] == here;
    if Starts(path, here, l) {
      var d: nat :| Run(path, here, l, d);
      OneRun(path, here, a, b, l, d);
    }
  }

  lemma HeadStep(nodes: seq<Host>, path: seq<nat>, ranges: seq<Range>, l: nat)
    requires AllRanged(nodes) && Assignment(nodes, path) && l < |path| && HeadsCut(nodes, path, ranges, l)
    ensures var here := path[l];
            && ranges[here].Layers?
            && if here !in path[..l] && l > ranges[here].start then HeadsCut(nodes, path, ranges[here := Layers(l, ranges[here].end)], l + 1)
               else HeadsCut(nodes, path, ranges, l + 1)
  {
    var here := path[l];
    HeadDue(nodes, path, ranges, l);
    var a0, b0 := RunOf(path, here);
    var cut := here !in path[..l] && l > ranges[here].start;
    assert nodes[here].Hosts(l);
    forall i: nat, a: nat, b: nat | Run(path, i, a, b) && i < |nodes|
      ensures (if cut then ranges[here := Layers(l, ranges[here].end)] else ranges)[i] ==
              Layers(if a < l + 1 then a else nodes[i].range.start, b)
    {
      assert path[a] == i;
      if i == here && here !in path[..l] {
        var d: nat :| Run(path, here, l, d);
        OneRun(path, here, a, b, l, d);
      }
    }
  }

  lemma HeadTurns(nodes: seq<Host>, path: seq<nat>, turning: seq<Turn>, l: nat, cut: bool)
    requires AllRanged(nodes) && Assignment(nodes, path) && l < |path| && TurnsOf(nodes, path, turning, |path|, l)
    requires cut <==> l > nodes[path[l]].range.start && Starts(path, path[l], l)
    ensures TurnsOf(nodes, path, if cut then turning + [Head(path[l], l)] else turning, |path|, l + 1)
  {
    var all := if cut then turning + [Head(path[l], l)] else turning;
    forall i: nat, m: nat
      ensures Head(i, m) in all <==> i < |nodes| && m < l + 1 && m > nodes[i].range.start && Starts(path, i, m)
    {
      if Starts(path, i, m) {
        var b: nat :| Run(path, i, m, b);
        assert path[m] == i;
      }
    }
    forall i: nat, m: nat
      ensures Tail(i, m) in all <==> Tail(i, m) in turning
    {
    }
  }

  method CutHeads(nodes: seq<Host>, ws: seq<Worker>, path: seq<nat>, tails: seq<Turn>) returns (turning: seq<Turn>)
    requires NoRepeats(ws) && |ws| == |nodes| && AllRanged(nodes) && Assignment(nodes, path)
    requires (forall i :: 0 <= i < |ws| ==> ws[i].active) && HeadsCut(nodes, path, Ranges(ws), 0)
    requires TurnsOf(nodes, path, tails, |path|, 0)
    modifies ws
    ensures forall i :: 0 <= i < |ws| ==> ws[i].active
    ensures HeadsCut(nodes, path, Ranges(ws), |path|)
    ensures TurnsOf(nodes, path, turning, |path|, |path|)
  {
    hide HeadsCut, TurnsOf, Run, Starts;
    turning := tails;
    for l := 0 to |path|
      invariant forall i :: 0 <= i < |ws| ==> ws[i].active
      invariant HeadsCut(nodes, path, Ranges(ws), l)
      invariant TurnsOf(nodes, path, turning, |path|, l)
    {
      var here := path[l];
      assert nodes[here].Hosts(l);
      ghost var before := Ranges(ws);
      HeadStep(nodes, path, before, l);
      HeadDue(nodes, path, before, l);
      var w := ws[here];
      assert w.range == before[here];
      HeadTurns(nodes, path, turning, l, here !in path[..l] && l > nodes[here].range.start);
      if here !in path[..l] {
        if l > w.range.start {
          turning := turning + [Head(here, l)];
          Reallocate(w, l, w.range.end);
          assert Ranges(ws) == before[here := Layers(l, before[here].end)];
        }
      }
      assert here in path[..l] || l <= before[here].start ==> Ranges(ws) == before;
    }
  }

  /** With all ranges inside the model, cutting tails leaves every stretch ending where the route moves on. */
  lemma TailsThenHeads(nodes: seq<Host>, path: seq<nat>, ranges: seq<Range>, layers: nat)
    requires Within(nodes, layers) && Assignment(nodes, path) && |path| == layers
    requires AllRanged(nodes) && TailsCut(nodes, path, ranges, |path|)
    ensures HeadsCut(nodes, path, ranges, 0)
  {
    forall i: nat, a: nat, b: nat | Run(path, i, a, b) && i < |nodes|
      ensures ranges[i] == Layers(nodes[i].range.start, b)
    {
      assert path[b - 1] == i;
      assert nodes[path[b - 1]].Hosts(b - 1);
    }
  }

  lemma HeadsThenTrimmed(nodes: seq<Host>, path: seq<nat>, ranges: seq<Range>)
    requires AllRanged(nodes) && HeadsCut(nodes, path, ranges, |path|)
    ensures Trimmed(nodes, path, ranges)
  {
  }

  lemma SingleStage(nodes: seq<Host>, path: seq<nat>, ranges: seq<Range>, layers: nat)
    requires Within(nodes, layers) && |path| <= 1 && |ranges| == |nodes| && forall i :: 0 <= i < |nodes| ==> ranges[i] == nodes[i].range
    ensures BestRoute(nodes, layers, path) ==> Trimmed(nodes, path, ranges) && TurnsOf(nodes, path, [], layers, layers)
  {
    if BestRoute(nodes, layers, path) {
      assert nodes[path[0]].Hosts(0);
    }
  }

  /**
   * Trims every node on a cheapest route to the layers of its first stretch there, and reports
   * where. Nothing changes when a layer has no host or every route costs infinity.
   */
  method AdjustForTurningPoints(nodes: seq<Host>, ws: seq<Worker>, layers: nat) returns (turning: seq<Turn>, ghost path: seq<nat>)
    requires NoRepeats(ws) && |ws| == |nodes| && Within(nodes, layers)
    requires forall i :: 0 <= i < |ws| ==> ws[i].active && ws[i].range == nodes[i].range
    modifies ws
    ensures forall i :: 0 <= i < |ws| ==> ws[i].active
    ensures layers == 0 || !AllHosted(nodes, layers) || Unroutable(nodes, layers) ==>
              turning == [] && forall i :: 0 <= i < |ws| ==> ws[i].range == nodes[i].range
    ensures layers > 0 && AllHosted(nodes, layers) && !Unroutable(nodes, layers) ==>
              && BestRoute(nodes, layers, path) && Trimmed(nodes, path, Ranges(ws))
              && TurnsOf(nodes, path, turning, layers, layers)
  {
    turning, path := [], [];
    if layers == 0 || nodes == [] {
      return;
    }
    var route := BestPath(nodes, layers);
    path := route;
    if |route| <= 1 {
      // A single node has no turn: it starts at layer 0, or stands for a route of infinite cost.
      SingleStage(nodes, path, Ranges(ws), layers);
      return;
    }
    turning := CutTails(nodes, ws, route);
    TailsThenHeads(nodes, path, Ranges(ws), layers);
    turning := CutHeads(nodes, ws, route, turning);
    HeadsThenTrimmed(nodes, path, Ranges(ws));
  }

  /**
   * A cheapest route can return to a node it left: with a slow node for layers 0 to 3, a fast one
   * for layer 1 and free moves, every cheapest route does, and trimming leaves layer 2 unhosted.
   */
  lemma BestRouteMayReturn(path: seq<nat>, ranges: seq<Range>)
    requires BestRoute(Detour(), 3, path) && Trimmed(Detour(), path, ranges)
    ensures path == [0, 1, 0] && !Covers(ranges[path[2]], 2)
  {
    var nodes := Detour();
    assert nodes[path[0]].Hosts(0) && nodes[path[1]].Hosts(1) && nodes[path[2]].Hosts(2);
    assert path == [0, path[1], 0];
    DetourCosts();
    assert Assignment(nodes, [0, 1, 0]);
    assert LayerCost(nodes, path).AtMost(LayerCost(nodes, [0, 1, 0]));
    assert Run(path, 0, 0, 1);
  }

  function Detour(): seq<Host> {
    [Host("slow", Layers(0, 3), true, Fin(5.0), map["fast" := Fin(0.0)]), Host("fast", Layers(1, 2), true, Fin(1.0), map["slow" := Fin(0.0)])]
  }

  lemma DetourCosts()
    ensures LayerCost(Detour(), [0, 1, 0]) == Fin(11.0) && LayerCost(Detour(), [0, 0, 0]) == Fin(15.0)
  {
    var nodes := Detour();
    assert [0, 1, 0][..2] == [0, 1] && [0, 1][..1] == [0];
    assert [0, 0, 0][..2] == [0, 0] && [0, 0][..1] == [0];
    assert LayerCost(nodes, [0]) == Fin(5.0);
    assert LayerCost(nodes, [0, 1]) == Fin(6.0);
    assert LayerCost(nodes, [0, 0]) == Fin(10.0);
  }
}
