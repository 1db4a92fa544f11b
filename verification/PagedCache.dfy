/** Paged key-value storage: block tables over a shared pool, read and written through slot mappings. */
module PagedCache {
  import opened Arithmetic
  import opened Hosts
  import opened Sequences

  /** The stored key and value of one token in one layer, taken as a unit. */
  datatype Cell = Cell(key: int, value: int)

  function CeilDiv(n: nat, d: nat): nat
    requires d > 0
  {
    (n + d - 1) / d
  }

  class BlockAllocator {
    const numBlocks: nat
    var free: seq<nat>
    var used: set<nat>

    constructor (numBlocks: nat)
      ensures this.numBlocks == numBlocks && Valid() && used == {} && |free| == numBlocks
    {
      this.numBlocks := numBlocks;
      free, used := seq(numBlocks, i => i), {};
      new;
      forall b: nat | b < numBlocks
        ensures b in free
      {
        assert free[b] == b;
      }
    }

    /** Every block is free or used, never both. */
    ghost predicate Valid()
      reads this
    {
      && NoRepeats(free) && (forall b :: b in free ==> b !in used)
      && forall b: nat :: b < numBlocks <==> b in free || b in used
    }

    /** Takes the last `n` free blocks, or nothing when there are fewer. */
    method Allocate(n: nat) returns (blocks: seq<nat>)
      requires Valid()
      modifies this
      ensures Valid()
      ensures if |old(free)| < n then blocks == [] && free == old(free) && used == old(used)
              else |blocks| == n && old(free) == free + blocks && used == old(used) + SetOf(blocks)
      ensures NoRepeats(blocks) && SetOf(blocks) !! old(used)
    {
      if |free| < n {
        return [];
      }
      var split := |free| - n;
      blocks := free[split..];
      free := free[..split];
      assert old(free) == free + blocks;
      used := used + set b | b in blocks;
    }

    /** Gives blocks back; a block that is not in use is passed over. */
    method Free(blocks: seq<nat>)
      requires Valid()
      modifies this
      ensures Valid() && used == old(used) - SetOf(blocks)
      ensures NoRepeats(blocks) && SetOf(blocks) <= old(used) ==> free == old(free) + blocks
    {
      for k := 0 to |blocks|
        invariant Valid() && used == old(used) - SetOf(blocks[..k])
        invariant NoRepeats(blocks) && SetOf(blocks) <= old(used) ==> free == old(free) + blocks[..k]
      {
        var b := blocks[k];
        assert blocks[..k + 1] == blocks[..k] + [b];
        if b in used {
          used := used - {b};
          free := free + [b];
        }
      }
      assert blocks[..|blocks|] == blocks;
    }
  }

  /** The physical slot of position `p`. */
  function Slot(table: seq<nat>, blockSize: nat, p: nat): nat
    requires blockSize > 0 && p / blockSize < |table|
  {
    table[p / blockSize] * blockSize + p % blockSize
  }

  /** `blocks` of `n` positions have room for `len` exactly when they are at least `CeilDiv(len, n)`. */
  lemma FewestBlocks(len: nat, n: nat, blocks: nat)
    requires n > 0
    ensures CeilDiv(len, n) <= blocks <==> len <= blocks * n
  {
    var c, x := CeilDiv(len, n), len + n - 1;
    assert x == c * n + x % n;
    if c <= blocks {
      Grows(c, blocks, n);
    } else {
      Grows(blocks + 1, c, n);
      assert (blocks + 1) * n == blocks * n + n;
    }
  }

  /** A table of `CeilDiv(len)` blocks has a slot for every position below `len`. */
  lemma InTable(len: nat, n: nat, p: nat)
    requires n > 0 && p < len
    ensures p / n < CeilDiv(len, n)
  {
    var c, x := CeilDiv(len, n), len + n - 1;
    assert x == c * n + x % n;
    assert p == (p / n) * n + p % n;
    Below(p / n, c, n);
  }

  lemma Below(a: nat, b: nat, n: nat)
    requires a * n < b * n
    ensures a < b
  {
    if a >= b {
      Grows(b, a, n);
    }
  }

  /** One more position needs one more block exactly when the last block is full. */
  lemma OneMorePosition(len: nat, n: nat)
    requires n > 0
    ensures CeilDiv(len + 1, n) == if len % n == 0 then CeilDiv(len, n) + 1 else CeilDiv(len, n)
  {
    var q, r := len / n, len % n;
    assert len == q * n + r;
    assert (q + 1) * n == q * n + n;
    if r == 0 {
      Quotient(len + n - 1, n, q, n - 1);
      Quotient(len + 1 + n - 1, n, q + 1, 0);
    } else {
      Quotient(len + n - 1, n, q + 1, r - 1);
      Quotient(len + 1 + n - 1, n, q + 1, r);
    }
  }

  /** Distinct positions of one request, or any positions of requests without a common block, have distinct slots. */
  lemma SlotsApart(t: seq<nat>, u: seq<nat>, n: nat, p: nat, q: nat)
    requires n > 0 && p / n < |t| && q / n < |u|
    requires (t == u && NoRepeats(t) && p != q) || SetOf(t) !! SetOf(u)
    ensures Slot(t, n, p) != Slot(u, n, q)
  {
    OneSplit(n, t[p / n], p % n, u[q / n], q % n);
    assert t[p / n] in SetOf(t) && u[q / n] in SetOf(u);
    assert p == (p / n) * n + p % n && q == (q / n) * n + q % n;
  }

  /** A slot lies in the block of its position, as far in as the position does. */
  lemma SlotPlace(t: seq<nat>, n: nat, p: nat)
    requires n > 0 && p / n < |t|
    ensures Slot(t, n, p) / n == t[p / n] && Slot(t, n, p) % n == p % n
  {
    Quotient(Slot(t, n, p), n, t[p / n], p % n);
  }

  lemma SlotInPool(t: seq<nat>, n: nat, p: nat, blocks: nat)
    requires n > 0 && p / n < |t| && t[p / n] < blocks
    ensures Slot(t, n, p) < blocks * n
  {
    Grows(t[p / n] + 1, blocks, n);
    assert (t[p / n] + 1) * n == t[p / n] * n + n;
  }

  datatype Appended = Grown | Full | Unknown

  /** Live tables own distinct blocks, and every used block is owned. */
  ghost predicate Owned(tables: map<string, seq<nat>>, used: set<nat>) {
    && (forall id :: id in tables ==> NoRepeats(tables[id]) && SetOf(tables[id]) <= used)
    && (forall id, other :: id in tables && other in tables && id != other ==> SetOf(tables[id]) !! SetOf(tables[other]))
    && (forall b :: b in used ==> exists id :: id in tables && b in tables[id])
  }

  /** Every position below `len` has a slot in the pool. */
  ghost predicate Mapped(table: seq<nat>, n: nat, len: nat, pool: nat) {
    n > 0 && forall p: nat :: p < len ==> p / n < |table| && Slot(table, n, p) < pool
  }

  /** What a request reads at its positions. */
  ghost function ReadAll(cells: seq<Cell>, table: seq<nat>, n: nat, len: nat): (r: seq<Cell>)
    requires Mapped(table, n, len, |cells|)
    ensures |r| == len && forall p :: 0 <= p < len ==> r[p] == cells[Slot(table, n, p)]
  {
    seq(len, p requires 0 <= p < len => cells[Slot(table, n, p)])
  }

  /** A table of the right length over the pool maps every position. */
  lemma TableMaps(table: seq<nat>, n: nat, len: nat, blocks: nat)
    requires n > 0 && |table| == CeilDiv(len, n) && forall b :: b in table ==> b < blocks
    ensures Mapped(table, n, len, blocks * n)
  {
    forall p: nat | p < len
      ensures p / n < |table| && Slot(table, n, p) < blocks * n
    {
      InTable(len, n, p);
      assert table[p / n] in table;
      SlotInPool(table, n, p, blocks);
    }
  }

  lemma OwnedMore(tables: map<string, seq<nat>>, used: set<nat>, id: string, more: seq<nat>)
    requires Owned(tables, used) && NoRepeats(more) && SetOf(more) !! used
    ensures var was := if id in tables then tables[id] else [];
            Owned(tables[id := was + more], used + SetOf(more))
  {
    var was := if id in tables then tables[id] else [];
    var grown := tables[id := was + more];
    assert SetOf(was + more) == SetOf(was) + SetOf(more);
    forall a, b | 0 <= a < b < |was + more|
      ensures (was + more)[a] != (was + more)[b]
    {
      if a < |was| <= b {
        assert (was + more)[a] in SetOf(was) && (was + more)[b] in SetOf(more);
      }
    }
    forall b | b in used + SetOf(more)
      ensures exists x :: x in grown && b in grown[x]
    {
      if b in SetOf(more) {
        assert b in grown[id];
      } else {
        var x :| x in tables && b in tables[x];
        assert b in grown[x];
      }
    }
  }

  lemma OwnedLess(tables: map<string, seq<nat>>, used: set<nat>, id: string)
    requires Owned(tables, used) && id in tables
    ensures Owned(tables - {id}, used - SetOf(tables[id]))
  {
    var rest := tables - {id};
    forall b | b in used - SetOf(tables[id])
      ensures exists x :: x in rest && b in rest[x]
    {
      var x :| x in tables && b in tables[x];
      assert x in rest && b in rest[x];
    }
  }

  /** Live tables and lengths over the used blocks: each table has just the blocks its length needs. */
  ghost predicate Layout(tables: map<string, seq<nat>>, lengths: map<string, nat>, n: nat, used: set<nat>) {
    && n > 0 && tables.Keys == lengths.Keys && Owned(tables, used)
    && forall id :: id in tables ==> |tables[id]| == CeilDiv(lengths[id], n)
  }

  ghost predicate InPool(used: set<nat>, n: nat, pool: nat) {
    exists blocks: nat :: pool == blocks * n && forall b :: b in used ==> b < blocks
  }

  lemma AllMapped(tables: map<string, seq<nat>>, lengths: map<string, nat>, n: nat, used: set<nat>, pool: nat, id: string)
    requires Layout(tables, lengths, n, used) && InPool(used, n, pool) && id in tables
    ensures Mapped(tables[id], n, lengths[id], pool)
  {
    var blocks: nat :| pool == blocks * n && forall b :: b in used ==> b < blocks;
    assert forall b :: b in tables[id] ==> b in SetOf(tables[id]);
    TableMaps(tables[id], n, lengths[id], blocks);
  }

  /** All requests with what each has stored. */
  ghost function ContentsOf(cells: seq<Cell>, tables: map<string, seq<nat>>, lengths: map<string, nat>, n: nat, used: set<nat>): (r: map<string, seq<Cell>>)
    requires Layout(tables, lengths, n, used) && InPool(used, n, |cells|)
    ensures r.Keys == tables.Keys && forall id :: id in r ==> |r[id]| == lengths[id]
  {
    map id | id in tables ::
      AllMapped(tables, lengths, n, used, |cells|, id);
      ReadAll(cells, tables[id], n, lengths[id])
  }

  /** A request's sequence depends on its own table and cells only. */
  lemma SameReads(cells: seq<Cell>, after: seq<Cell>, table: seq<nat>, grown: seq<nat>, n: nat, len: nat, more: nat)
    requires Mapped(table, n, len, |cells|) && Mapped(grown, n, more, |after|) && len <= more && table <= grown
    requires forall p: nat :: p < len && p / n < |table| && Slot(table, n, p) < |cells| ==>
               Slot(table, n, p) < |after| && after[Slot(table, n, p)] == cells[Slot(table, n, p)]
    ensures ReadAll(cells, table, n, len) <= ReadAll(after, grown, n, more)
  {
    var was, now := ReadAll(cells, table, n, len), ReadAll(after, grown, n, more);
    forall p: nat | p < len
      ensures was[p] == now[p]
    {
      assert p / n < |table|;
      assert Slot(table, n, p) == Slot(grown, n, p);
    }
  }

  /** Adding positions to one request leaves what is stored as it is. */
  lemma ContentsGrow(cells: seq<Cell>, tables: map<string, seq<nat>>, lengths: map<string, nat>, n: nat, used: set<nat>,
                     id: string, more: seq<nat>, len: nat)
    requires Layout(tables, lengths, n, used) && InPool(used, n, |cells|)
    requires NoRepeats(more) && SetOf(more) !! used && InPool(used + SetOf(more), n, |cells|)
    requires var was := if id in tables then tables[id] else [];
             |was + more| == CeilDiv(len, n) && (id in tables ==> lengths[id] <= len)
    ensures var was := if id in tables then tables[id] else [];
            var tables1, lengths1 := tables[id := was + more], lengths[id := len];
            && Layout(tables1, lengths1, n, used + SetOf(more))
            && var before, after := ContentsOf(cells, tables, lengths, n, used), ContentsOf(cells, tables1, lengths1, n, used + SetOf(more));
            && (forall other :: other in before && other != id ==> after[other] == before[other])
            && (id in before ==> before[id] <= after[id])
  {
    OwnedMore(tables, used, id, more);
    var was := if id in tables then tables[id] else [];
    var tables1, lengths1 := tables[id := was + more], lengths[id := len];
    if id in tables {
      AllMapped(tables, lengths, n, used, |cells|, id);
      AllMapped(tables1, lengths1, n, used + SetOf(more), |cells|, id);
      SameReads(cells, cells, tables[id], tables1[id], n, lengths[id], len);
    }
  }

  /** Dropping a request leaves the others as they are. */
  lemma ContentsLess(cells: seq<Cell>, tables: map<string, seq<nat>>, lengths: map<string, nat>, n: nat, used: set<nat>, id: string)
    requires Layout(tables, lengths, n, used) && InPool(used, n, |cells|) && id in tables
    ensures Layout(tables - {id}, lengths - {id}, n, used - SetOf(tables[id])) && InPool(used - SetOf(tables[id]), n, |cells|)
    ensures ContentsOf(cells, tables - {id}, lengths - {id}, n, used - SetOf(tables[id])) == ContentsOf(cells, tables, lengths, n, used) - {id}
  {
    OwnedLess(tables, used, id);
    var blocks: nat :| |cells| == blocks * n && forall b :: b in used ==> b < blocks;
    assert |cells| == blocks * n && forall b :: b in used - SetOf(tables[id]) ==> b < blocks;
  }

  /** Writing one position changes that position of that request and nothing else. */
  lemma ContentsWrite(cells: seq<Cell>, tables: map<string, seq<nat>>, lengths: map<string, nat>, n: nat, used: set<nat>,
                      id: string, p: nat, cell: Cell)
    requires Layout(tables, lengths, n, used) && InPool(used, n, |cells|) && id in tables && p < lengths[id]
    ensures p / n < |tables[id]| && Slot(tables[id], n, p) < |cells|
    ensures var before := ContentsOf(cells, tables, lengths, n, used);
            ContentsOf(cells[Slot(tables[id], n, p) := cell], tables, lengths, n, used) == before[id := before[id][p := cell]]
  {
    hide Layout, InPool, Mapped, ReadAll;
    LayoutPositive(tables, lengths, n, used);
    WrittenSlot(tables, lengths, n, used, |cells|, id, p);
    var after := cells[Slot(tables[id], n, p) := cell];
    var before := ContentsOf(cells, tables, lengths, n, used);
    forall other | other in tables
      ensures ContentsOf(after, tables, lengths, n, used)[other] == (if other == id then before[id][p := cell] else before[other])
    {
      AllMapped(tables, lengths, n, used, |cells|, other);
      WriteReads(cells, tables, lengths, n, used, id, p, cell, other);
    }
  }

  lemma LayoutPositive(tables: map<string, seq<nat>>, lengths: map<string, nat>, n: nat, used: set<nat>)
    requires Layout(tables, lengths, n, used)
    ensures n > 0 && tables.Keys == lengths.Keys
  {
  }

  lemma WrittenSlot(tables: map<string, seq<nat>>, lengths: map<string, nat>, n: nat, used: set<nat>, pool: nat, id: string, p: nat)
    requires Layout(tables, lengths, n, used) && InPool(used, n, pool) && id in tables && p < lengths[id]
    ensures p / n < |tables[id]| && Slot(tables[id], n, p) < pool
  {
    AllMapped(tables, lengths, n, used, pool, id);
  }

  lemma WriteReads(cells: seq<Cell>, tables: map<string, seq<nat>>, lengths: map<string, nat>, n: nat, used: set<nat>,
                   id: string, p: nat, cell: Cell, other: string)
    requires Layout(tables, lengths, n, used) && id in tables && other in tables && p < lengths[id]
    requires Mapped(tables[other], n, lengths[other], |cells|) && p / n < |tables[id]| && Slot(tables[id], n, p) < |cells|
    ensures var was := ReadAll(cells, tables[other], n, lengths[other]);
            ReadAll(cells[Slot(tables[id], n, p) := cell], tables[other], n, lengths[other]) ==
            if other == id then was[p := cell] else was
  {
    hide Slot;
    var slot := Slot(tables[id], n, p);
    forall q: nat | q < lengths[other] && !(other == id && q == p)
      ensures Slot(tables[other], n, q) != slot
    {
      SlotsApart(tables[other], tables[id], n, q, p);
    }
  }

  /** A stored sequence with its first `p` positions overwritten. */
  ghost function Written(tokens: seq<Cell>, was: seq<Cell>, p: nat): seq<Cell>
    requires p <= |tokens| == |was|
  {
    tokens[..p] + was[p..]
  }

  lemma WrittenNone(tokens: seq<Cell>, was: seq<Cell>)
    requires |tokens| == |was|
    ensures Written(tokens, was, 0) == was
  {
  }

  lemma WrittenNext(tokens: seq<Cell>, was: seq<Cell>, p: nat)
    requires p < |tokens| == |was|
    ensures |Written(tokens, was, p)| == |was| && Written(tokens, was, p)[p := tokens[p]] == Written(tokens, was, p + 1)
  {
  }

  lemma WrittenAll(tokens: seq<Cell>, was: seq<Cell>)
    requires |tokens| == |was|
    ensures Written(tokens, was, |tokens|) == tokens
  {
  }

  class CacheManager {
    const blockSize: nat
    const allocator: BlockAllocator
    const cells: array<Cell>
    var tables: map<string, seq<nat>>
    var lengths: map<string, nat>

    constructor (numBlocks: nat, blockSize: nat)
      requires blockSize > 0
      ensures Valid() && tables == map[] && this.blockSize == blockSize && allocator.numBlocks == numBlocks
      ensures fresh(allocator) && fresh(cells)
    {
      this.blockSize := blockSize;
      allocator := new BlockAllocator(numBlocks);
      cells := new Cell[numBlocks * blockSize](_ => Cell(0, 0));
      tables, lengths := map[], map[];
    }

    /** The pool is split between the free blocks and the live tables. */
    ghost predicate Valid()
      reads this, allocator
    {
      && blockSize > 0 && allocator.Valid() && cells.Length == allocator.numBlocks * blockSize
      && Layout(tables, lengths, blockSize, allocator.used) && InPool(allocator.used, blockSize, cells.Length)
    }

    /** All requests with what each has stored. */
    ghost function Contents(): map<string, seq<Cell>>
      requires Valid()
      reads this, allocator, cells
    {
      ContentsOf(cells[..], tables, lengths, blockSize, allocator.used)
    }

    lemma PoolBounds()
      requires allocator.Valid() && cells.Length == allocator.numBlocks * blockSize
      ensures InPool(allocator.used, blockSize, cells.Length)
    {
      assert forall b :: b in allocator.used ==> b < allocator.numBlocks;
    }

    /** Gives a new request the blocks its prompt needs, or nothing when there are too few. */
    method AllocateRequest(id: string, promptLen: nat) returns (ok: bool)
      requires Valid()
      modifies this, allocator
      ensures Valid()
      ensures ok <==> id in old(tables) || promptLen <= |old(allocator.free)| * blockSize
      ensures !ok || id in old(tables) ==>
                Contents() == old(Contents()) && allocator.free == old(allocator.free) && tables == old(tables)
      ensures ok && id !in old(tables) ==>
                && Contents().Keys == old(Contents()).Keys + {id} && |Contents()[id]| == promptLen
                && (forall other :: other in old(tables) ==> Contents()[other] == old(Contents())[other])
                && tables == old(tables)[id := tables[id]] && old(allocator.free) == allocator.free + tables[id]
                && promptLen <= |tables[id]| * blockSize && (tables[id] != [] ==> (|tables[id]| - 1) * blockSize < promptLen)
    {
      hide Layout, InPool, Owned, ContentsOf, BlockAllocator.Valid, CeilDiv;
      if id in tables {
        return true;
      }
      FewestBlocks(promptLen, blockSize, |allocator.free|);
      var numBlocks := CeilDiv(promptLen, blockSize);
      ghost var used := allocator.used;
      var blocks: seq<nat> := [];
      if numBlocks > 0 {
        blocks := allocator.Allocate(numBlocks);
        if |blocks| < numBlocks {
          return false;
        }
      }
      assert allocator.used == used + SetOf(blocks) && [] + blocks == blocks;
      PoolBounds();
      ContentsGrow(cells[..], tables, lengths, blockSize, used, id, blocks, promptLen);
      tables, lengths := tables[id := blocks], lengths[id := promptLen];
      FewestBlocks(promptLen, blockSize, numBlocks);
      if numBlocks > 0 {
        FewestBlocks(promptLen, blockSize, numBlocks - 1);
      }
      ok := true;
    }

    /** Makes room for one more token: a new block when the last one is full. */
    method AppendSlot(id: string) returns (r: Appended)
      requires Valid()
      modifies this, allocator
      ensures Valid()
      ensures r.Unknown? <==> id !in old(tables)
      ensures r.Full? <==> id in old(tables) && old(lengths)[id] % blockSize == 0 && old(allocator.free) == []
      ensures !r.Grown? ==> Contents() == old(Contents()) && allocator.free == old(allocator.free)
      ensures r.Grown? ==>
                && Contents().Keys == old(Contents()).Keys && |Contents()[id]| == |old(Contents())[id]| + 1
                && old(Contents())[id] <= Contents()[id]
                && id in tables && old(tables)[id] <= tables[id] && tables == old(tables)[id := tables[id]]
                && old(allocator.free) == allocator.free + tables[id][|old(tables)[id]|..]
                && forall other :: other in old(tables) && other != id ==> Contents()[other] == old(Contents())[other]
    {
      hide InPool, Owned, ContentsOf, BlockAllocator.Valid;
      if id !in tables {
        return Unknown;
      }
      var len := lengths[id];
      OneMorePosition(len, blockSize);
      ghost var used := allocator.used;
      var blocks: seq<nat> := [];
      if len % blockSize == 0 {
        blocks := allocator.Allocate(1);
        if blocks == [] {
          return Full;
        }
      }
      assert allocator.used == used + SetOf(blocks);
      PoolBounds();
      ContentsGrow(cells[..], tables, lengths, blockSize, used, id, blocks, len + 1);
      tables, lengths := tables[id := tables[id] + blocks], lengths[id := len + 1];
      r := Grown;
    }

    /** Forgets a request and gives its blocks back. */
    method FreeRequest(id: string)
      requires Valid()
      modifies this, allocator
      ensures Valid() && Contents() == old(Contents()) - {id}
      ensures allocator.free == old(allocator.free) + if id in old(tables) then old(tables)[id] else []
    {
      hide InPool, ContentsOf, BlockAllocator.Valid;
      if id in tables {
        var blocks := tables[id];
        ContentsLess(cells[..], tables, lengths, blockSize, allocator.used, id);
        if blocks != [] {
          allocator.Free(blocks);
        }
        assert allocator.used == old(allocator.used) - SetOf(blocks);
        tables, lengths := tables - {id}, lengths - {id};
      } else {
        assert Contents() - {id} == Contents();
      }
    }

    /** The physical slots of a request's positions, in order. */
    method SlotMapping(id: string) returns (slots: seq<nat>)
      requires Valid() && id in tables
      ensures |slots| == lengths[id]
      ensures forall p: nat :: p < lengths[id] ==> p / blockSize < |tables[id]| && slots[p] == Slot(tables[id], blockSize, p) < cells.Length
    {
      hide InPool, ContentsOf, BlockAllocator.Valid, Layout, Slot;
      LayoutPositive(tables, lengths, blockSize, allocator.used);
      AllMapped(tables, lengths, blockSize, allocator.used, cells.Length, id);
      slots := [];
      for p := 0 to lengths[id]
        invariant |slots| == p
        invariant forall q: nat :: q < p ==> q / blockSize < |tables[id]| && slots[q] == Slot(tables[id], blockSize, q) < cells.Length
      {
        slots := slots + [Slot(tables[id], blockSize, p)];
      }
    }

    /** Writes the slot of one position of one request. */
    method Scatter(slot: nat, token: Cell, ghost id: string, ghost p: nat)
      requires Valid() && id in tables && p < lengths[id]
      requires p / blockSize < |tables[id]| && slot == Slot(tables[id], blockSize, p)
      modifies cells
      ensures Valid() && Contents() == old(Contents())[id := old(Contents())[id][p := token]]
    {
      hide InPool, ContentsOf, BlockAllocator.Valid, Layout, Slot;
      ContentsWrite(cells[..], tables, lengths, blockSize, allocator.used, id, p, token);
      cells[slot] := token;
      assert cells[..] == old(cells[..])[slot := token];
    }

    /** Prefill: writes a token at every position of a request. */
    method Prefill(id: string, tokens: seq<Cell>)
      requires Valid() && id in tables && |tokens| == lengths[id]
      modifies cells
      ensures Valid() && Contents() == old(Contents())[id := tokens]
    {
      hide InPool, ContentsOf, BlockAllocator.Valid, Layout, Slot, Written;
      var slots := SlotMapping(id);
      ghost var before := Contents();
      WrittenNone(tokens, before[id]);
      for p := 0 to |tokens|
        invariant Valid() && Contents() == before[id := Written(tokens, before[id], p)]
      {
        WrittenNext(tokens, before[id], p);
        Scatter(slots[p], tokens[p], id, p);
      }
      WrittenAll(tokens, before[id]);
    }

    /** Writes the newest token of one request. */
    method WriteNewest(id: string, token: Cell)
      requires Valid() && id in tables && lengths[id] > 0
      modifies cells
      ensures Valid() && id in old(Contents()) && |old(Contents())[id]| > 0
      ensures var was := old(Contents())[id]; Contents() == old(Contents())[id := was[|was| - 1 := token]]
    {
      hide InPool, ContentsOf, BlockAllocator.Valid, Layout, Slot;
      LayoutPositive(tables, lengths, blockSize, allocator.used);
      var p := lengths[id] - 1;
      WrittenSlot(tables, lengths, blockSize, allocator.used, cells.Length, id, p);
      Scatter(Slot(tables[id], blockSize, p), token, id, p);
    }

    /** Decode: writes the newest token of each request in a batch. */
    method Decode(ids: seq<string>, tokens: seq<Cell>)
      requires Valid() && NoRepeats(ids) && |tokens| == |ids|
      requires forall k :: 0 <= k < |ids| ==> ids[k] in tables && lengths[ids[k]] > 0
      modifies cells
      ensures Valid() && Contents().Keys == old(Contents()).Keys
      ensures forall k :: 0 <= k < |ids| ==>
                var was := old(Contents())[ids[k]];
                Contents()[ids[k]] == was[|was| - 1 := tokens[k]]
      ensures forall id :: id in old(Contents()) && id !in ids ==> Contents()[id] == old(Contents())[id]
    {
      hide Valid, ContentsOf;
      ghost var before := Contents();
      KeysAndLengths();
      for k := 0 to |ids|
        invariant Valid() && Contents().Keys == before.Keys
        invariant forall m :: 0 <= m < k ==>
                    var was := before[ids[m]];
                    Contents()[ids[m]] == was[|was| - 1 := tokens[m]]
        invariant forall id :: id in before && id !in ids[..k] ==> Contents()[id] == before[id]
      {
        assert ids[k] !in ids[..k];
        WriteNewest(ids[k], tokens[k]);
      }
    }

    lemma KeysAndLengths()
      requires Valid()
      ensures Contents().Keys == tables.Keys == lengths.Keys && forall id :: id in tables ==> |Contents()[id]| == lengths[id]
    {
    }

    /** Reads back what a request stored. */
    method Gather(id: string) returns (tokens: seq<Cell>)
      requires Valid() && id in tables
      ensures tokens == Contents()[id]
    {
      var slots := SlotMapping(id);
      tokens := [];
      for p := 0 to |slots|
        invariant tokens == Contents()[id][..p]
      {
        tokens := tokens + [cells[slots[p]]];
      }
    }
  }
}
