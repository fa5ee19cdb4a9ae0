/** The source list: `get_source_ids` reads column B of the registry tab, skips
    the header row and blank cells, and resolves each locator; `main` then keeps
    the sources of one shard (`i % TOTAL_SHARDS == SHARD_INDEX`). */
module Sources {
  import opened Base
  import opened Text

  /** `v and v.strip()`: the cell names a source. */
  predicate Listed(v: string) {
    |v| > 0 && Trim(v) != ""
  }

  /** The 0-based positions among the first n cells of column B that name a
      source: row 1 (position 0) is the header and never does. */
  function ListedPositions(colB: seq<string>, n: nat): (ps: seq<nat>)
    requires n <= |colB|
    ensures forall k :: 0 <= k < |ps| ==> 1 <= ps[k] < n
    decreases n
  {
    if n == 0 then []
    else ListedPositions(colB, n - 1) + (if n - 1 >= 1 && Listed(colB[n - 1]) then [n - 1] else [])
  }

  function IdsAt(colB: seq<string>, ps: seq<nat>, resolve: string -> string): (ids: seq<string>)
    requires forall k :: 0 <= k < |ps| ==> ps[k] < |colB|
    ensures |ids| == |ps| && forall k :: 0 <= k < |ps| ==> ids[k] == resolve(Trim(colB[ps[k]]))
  {
    seq(|ps|, k requires 0 <= k < |ps| => resolve(Trim(colB[ps[k]])))
  }

  /** The source ids: the resolved, stripped locators at the listed positions, in row order.
      `resolve` stands for `parse_sheet_id`. */
  function SourceIds(colB: seq<string>, resolve: string -> string): seq<string> {
    IdsAt(colB, ListedPositions(colB, |colB|), resolve)
  }

  /** `get_source_ids`: one pass over `col_values(2)` with 1-based row numbers. */
  method GetSourceIds(colB: seq<string>, resolve: string -> string) returns (ids: seq<string>)
    ensures ids == SourceIds(colB, resolve)
  {
    ids := [];
    for k := 0 to |colB|
      invariant ids == IdsAt(colB, ListedPositions(colB, k), resolve)
    {
      ListedPositionsSnoc(colB, k);
      var ps := ListedPositions(colB, k);
      var i := k + 1;
      if i < 2 {
        assert ps + [] == ps;
        continue;
      }
      if Listed(colB[k]) {
        IdsAtSnoc(colB, ps, k, resolve);
        ids := ids + [resolve(Trim(colB[k]))];
      } else {
        assert ps + [] == ps;
      }
    }
  }

  lemma ListedPositionsSnoc(colB: seq<string>, k: nat)
    requires k < |colB|
    ensures ListedPositions(colB, k + 1) == ListedPositions(colB, k) + (if k >= 1 && Listed(colB[k]) then [k] else [])
  {
  }

  lemma IdsAtSnoc(colB: seq<string>, ps: seq<nat>, p: nat, resolve: string -> string)
    requires (forall k :: 0 <= k < |ps| ==> ps[k] < |colB|) && p < |colB|
    ensures IdsAt(colB, ps + [p], resolve) == IdsAt(colB, ps, resolve) + [resolve(Trim(colB[p]))]
  {
    var a := IdsAt(colB, ps + [p], resolve);
    var b := IdsAt(colB, ps, resolve) + [resolve(Trim(colB[p]))];
    forall k | 0 <= k < |a| ensures a[k] == b[k] {
      assert (ps + [p])[k] == if k < |ps| then ps[k] else p;
    }
  }

  /** The listed positions are exactly the rows below the header whose cell names
      a source. */
  lemma {:induction false} ListedPositionsExact(colB: seq<string>, n: nat)
    requires n <= |colB|
    ensures forall i :: i in ListedPositions(colB, n) <==> 1 <= i < n && Listed(colB[i])
    decreases n
  {
    if n > 0 {
      ListedPositionsExact(colB, n - 1);
      var ps0 := ListedPositions(colB, n - 1);
      var extra := if n - 1 >= 1 && Listed(colB[n - 1]) then [n - 1] else [];
      var ps := ListedPositions(colB, n);
      assert ps == ps0 + extra;
      forall i ensures i in ps <==> 1 <= i < n && Listed(colB[i]) {
        if i == n - 1 {
          assert i !in ps0;
          assert i in ps <==> i in extra;
        } else {
          assert i !in extra;
          assert i in ps <==> i in ps0;
        }
      }
    }
  }

  /** ... and they appear in increasing row order. */
  lemma {:induction false} ListedPositionsIncrease(colB: seq<string>, n: nat)
    requires n <= |colB|
    ensures forall j, k :: 0 <= j < k < |ListedPositions(colB, n)| ==> ListedPositions(colB, n)[j] < ListedPositions(colB, n)[k]
    decreases n
  {
    if n > 0 {
      ListedPositionsIncrease(colB, n - 1);
      var ps0 := ListedPositions(colB, n - 1);
      var ps := ListedPositions(colB, n);
      var extra := if n - 1 >= 1 && Listed(colB[n - 1]) then [n - 1] else [];
      assert ps == ps0 + extra;
      forall j, k | 0 <= j < k < |ps| ensures ps[j] < ps[k] {
        assert ps[j] == ps0[j];
        if k >= |ps0| {
          assert ps[k] == n - 1;
        } else {
          assert ps[k] == ps0[k];
          assert ps0[j] < ps0[k];
        }
      }
    }
  }

  /** The header cell never influences the source list. */
  lemma HeaderIgnored(h1: string, h2: string, rest: seq<string>, resolve: string -> string)
    ensures SourceIds([h1] + rest, resolve) == SourceIds([h2] + rest, resolve)
  {
    var c1, c2 := [h1] + rest, [h2] + rest;
    ListedPositionsSame(c1, c2, |c1|);
  }

  lemma {:induction false} ListedPositionsSame(c1: seq<string>, c2: seq<string>, n: nat)
    requires |c1| == |c2| && n <= |c1|
    requires forall i :: 1 <= i < |c1| ==> c1[i] == c2[i]
    ensures ListedPositions(c1, n) == ListedPositions(c2, n)
    decreases n
  {
    if n > 0 {
      ListedPositionsSame(c1, c2, n - 1);
      if n - 1 >= 1 {
        assert c1[n - 1] == c2[n - 1];
      }
    }
  }

  /** The 0-based positions among the first n sources that belong to shard `index`. */
  function ShardPositions(n: nat, total: pos, index: int): (ps: seq<nat>)
    ensures forall k :: 0 <= k < |ps| ==> ps[k] < n
    decreases n
  {
    if n == 0 then []
    else ShardPositions(n - 1, total, index) + (if (n - 1) % total == index then [n - 1] else [])
  }

  /** `[s for i, s in enumerate(sources) if i % total == index]`. */
  function Shard<T>(sources: seq<T>, total: pos, index: int): seq<T> {
    ShardUpTo(sources, total, index, |sources|)
  }

  /** The part of the shard taken from the first n sources. */
  function ShardUpTo<T>(sources: seq<T>, total: pos, index: int, n: nat): seq<T>
    requires n <= |sources|
    decreases n
  {
    if n == 0 then []
    else ShardUpTo(sources, total, index, n - 1) + (if (n - 1) % total == index then [sources[n - 1]] else [])
  }

  /** `main`'s source list: one shard when TOTAL_SHARDS > 1, every source otherwise. */
  function SelectShard<T>(sources: seq<T>, totalShards: int, shardIndex: int): seq<T> {
    if totalShards > 1 then Shard(sources, totalShards, shardIndex) else sources
  }

  /** A shard is the sources at its positions, in original order. */
  lemma ShardPicks<T>(sources: seq<T>, total: pos, index: int)
    ensures var ps := ShardPositions(|sources|, total, index);
      Shard(sources, total, index) == seq(|ps|, k requires 0 <= k < |ps| => sources[ps[k]])
  {
    ShardUpToPicks(sources, total, index, |sources|);
  }

  lemma {:induction false} ShardUpToPicks<T>(sources: seq<T>, total: pos, index: int, n: nat)
    requires n <= |sources|
    ensures |ShardUpTo(sources, total, index, n)| == |ShardPositions(n, total, index)|
    ensures forall k :: 0 <= k < |ShardPositions(n, total, index)| ==>
      ShardUpTo(sources, total, index, n)[k] == sources[ShardPositions(n, total, index)[k]]
    decreases n
  {
    if n > 0 {
      ShardUpToPicks(sources, total, index, n - 1);
      if (n - 1) % total != index {
        assert ShardUpTo(sources, total, index, n) == ShardUpTo(sources, total, index, n - 1);
        assert ShardPositions(n, total, index) == ShardPositions(n - 1, total, index);
      }
    }
  }

  /** Position i belongs to shard `index` exactly when i % total == index; the
      positions of a shard increase. So the shards 0..total-1 are disjoint and
      every position belongs to one of them. */
  lemma {:induction false} ShardPositionsExact(n: nat, total: pos, index: int)
    ensures forall i :: i in ShardPositions(n, total, index) <==> 0 <= i < n && i % total == index
    ensures forall j, k :: 0 <= j < k < |ShardPositions(n, total, index)| ==> ShardPositions(n, total, index)[j] < ShardPositions(n, total, index)[k]
    decreases n
  {
    if n > 0 {
      ShardPositionsExact(n - 1, total, index);
    }
  }

  /** Every source position lands in exactly one shard among 0..total-1. */
  lemma ShardsPartitionPositions(n: nat, total: pos, i: nat)
    requires i < n
    ensures 0 <= i % total < total
    ensures i in ShardPositions(n, total, i % total)
    ensures forall k :: 0 <= k < total && k != i % total ==> i !in ShardPositions(n, total, k)
  {
    ShardPositionsExact(n, total, i % total);
    forall k | 0 <= k < total && k != i % total ensures i !in ShardPositions(n, total, k) {
      ShardPositionsExact(n, total, k);
    }
  }

  /** The shards 0..total-1: what `main` selects for SHARD_INDEX = 0, 1, ..., total-1. */
  function Shards<T>(sources: seq<T>, total: pos): (parts: seq<seq<T>>)
    ensures |parts| == total && forall k :: 0 <= k < total ==> parts[k] == Shard(sources, total, k)
  {
    seq(total, k requires 0 <= k < total => Shard(sources, total, k))
  }

  /** The union of parts 0..m-1, counting repetitions. */
  function Union<T>(parts: seq<seq<T>>, m: nat): multiset<T>
    requires m <= |parts|
    decreases m
  {
    if m == 0 then multiset{} else Union(parts, m - 1) + multiset(parts[m - 1])
  }

  /** How often v occurs among the first n sources. */
  function CountUpTo<T(==)>(sources: seq<T>, v: T, n: nat): nat
    requires n <= |sources|
    decreases n
  {
    if n == 0 then 0 else CountUpTo(sources, v, n - 1) + (if sources[n - 1] == v then 1 else 0)
  }

  /** How often v occurs among the first n sources at positions of shard `index`. */
  function ShardCount<T(==)>(sources: seq<T>, total: pos, index: int, v: T, n: nat): nat
    requires n <= |sources|
    decreases n
  {
    if n == 0 then 0
    else ShardCount(sources, total, index, v, n - 1) + (if (n - 1) % total == index && sources[n - 1] == v then 1 else 0)
  }

  /** ShardCount summed over the shards 0..m-1. */
  function ShardsCount<T(==)>(sources: seq<T>, total: pos, m: nat, v: T, n: nat): nat
    requires n <= |sources|
    decreases m
  {
    if m == 0 then 0 else ShardsCount(sources, total, m - 1, v, n) + ShardCount(sources, total, m - 1, v, n)
  }

  lemma {:induction false} CountUpToIsMultiplicity<T>(sources: seq<T>, v: T, n: nat)
    requires n <= |sources|
    ensures multiset(sources[..n])[v] == CountUpTo(sources, v, n)
    decreases n
  {
    if n > 0 {
      CountUpToIsMultiplicity(sources, v, n - 1);
      assert sources[..n] == sources[..n - 1] + [sources[n - 1]];
      SnocMultiplicity(sources[..n - 1], sources[n - 1], v);
    }
  }

  lemma {:induction false} ShardCountIsMultiplicity<T>(sources: seq<T>, total: pos, index: int, v: T, n: nat)
    requires n <= |sources|
    ensures multiset(ShardUpTo(sources, total, index, n))[v] == ShardCount(sources, total, index, v, n)
    decreases n
  {
    if n > 0 {
      ShardCountIsMultiplicity(sources, total, index, v, n - 1);
      if (n - 1) % total == index {
        SnocMultiplicity(ShardUpTo(sources, total, index, n - 1), sources[n - 1], v);
      } else {
        assert ShardUpTo(sources, total, index, n) == ShardUpTo(sources, total, index, n - 1);
      }
    }
  }

  /** How often v occurs in parts 0..m-1 together. */
  function PartsCount<T(==)>(parts: seq<seq<T>>, m: nat, v: T): nat
    requires m <= |parts|
    decreases m
  {
    if m == 0 then 0 else PartsCount(parts, m - 1, v) + multiset(parts[m - 1])[v]
  }

  lemma {:induction false} UnionMultiplicity<T>(parts: seq<seq<T>>, m: nat, v: T)
    requires m <= |parts|
    ensures Union(parts, m)[v] == PartsCount(parts, m, v)
    decreases m
  {
    if m > 0 {
      UnionMultiplicity(parts, m - 1, v);
    }
  }

  lemma {:induction false} ShardsPartsCount<T>(sources: seq<T>, total: pos, m: nat, v: T)
    requires m <= total
    ensures PartsCount(Shards(sources, total), m, v) == ShardsCount(sources, total, m, v, |sources|)
    decreases m
  {
    if m > 0 {
      ShardsPartsCount(sources, total, m - 1, v);
      ShardCountIsMultiplicity(sources, total, m - 1, v, |sources|);
    }
  }

  /** Taking one more source adds one to the count over shards 0..m-1 exactly when
      it is v and its shard is among them. */
  lemma {:induction false} ShardsCountStep<T>(sources: seq<T>, total: pos, m: nat, v: T, n: nat)
    requires 0 < n <= |sources|
    ensures ShardsCount(sources, total, m, v, n)
         == ShardsCount(sources, total, m, v, n - 1) + (if (n - 1) % total < m && sources[n - 1] == v then 1 else 0)
    decreases m
  {
    if m > 0 {
      ShardsCountStep(sources, total, m - 1, v, n);
    }
  }

  lemma {:induction false} ShardsCountCovers<T>(sources: seq<T>, total: pos, v: T, n: nat)
    requires n <= |sources|
    ensures ShardsCount(sources, total, total, v, n) == CountUpTo(sources, v, n)
    decreases n
  {
    if n == 0 {
      ShardsCountEmpty(sources, total, total, v);
    } else {
      ShardsCountCovers(sources, total, v, n - 1);
      ShardsCountStep(sources, total, total, v, n);
    }
  }

  lemma {:induction false} ShardsCountEmpty<T>(sources: seq<T>, total: pos, m: nat, v: T)
    ensures ShardsCount(sources, total, m, v, 0) == 0
    decreases m
  {
    if m > 0 {
      ShardsCountEmpty(sources, total, m - 1, v);
    }
  }

  /** The shards 0..total-1 together hold every source exactly as often as the list does. */
  lemma ShardsCoverAll<T>(sources: seq<T>, total: pos)
    ensures Union(Shards(sources, total), total) == multiset(sources)
  {
    var parts := Shards(sources, total);
    forall v: T ensures Union(parts, total)[v] == multiset(sources)[v] {
      ShardsCoverValue(sources, total, v);
    }
    MultisetExt(Union(parts, total), multiset(sources));
  }

  /** `main`'s choice of sources. With TOTAL_SHARDS <= 1 every run takes the whole
      list. With more, the run for SHARD_INDEX takes the sources at the positions
      of its shard, in original order, and the runs for SHARD_INDEX =
      0..TOTAL_SHARDS-1 together take every source exactly as often as the list
      holds it. */
  lemma SelectShardCovers<T>(sources: seq<T>, totalShards: int, shardIndex: int)
    ensures totalShards <= 1 ==> SelectShard(sources, totalShards, shardIndex) == sources
    ensures totalShards > 1 ==>
      var ps := ShardPositions(|sources|, totalShards, shardIndex);
      SelectShard(sources, totalShards, shardIndex) == seq(|ps|, k requires 0 <= k < |ps| => sources[ps[k]])
    ensures totalShards > 1 ==>
      Union(seq(totalShards, k requires 0 <= k < totalShards => SelectShard(sources, totalShards, k)), totalShards)
        == multiset(sources)
  {
    if totalShards > 1 {
      ShardPicks(sources, totalShards, shardIndex);
      ShardsCoverAll(sources, totalShards);
      assert seq(totalShards, k requires 0 <= k < totalShards => SelectShard(sources, totalShards, k))
          == Shards(sources, totalShards);
    }
  }

  lemma MultisetExt<T>(a: multiset<T>, b: multiset<T>)
    requires forall v :: a[v] == b[v]
    ensures a == b
  {
  }

  lemma ShardsCoverValue<T>(sources: seq<T>, total: pos, v: T)
    ensures Union(Shards(sources, total), total)[v] == multiset(sources)[v]
  {
    UnionMultiplicity(Shards(sources, total), total, v);
    ShardsPartsCount(sources, total, total, v);
    ShardsCountCovers(sources, total, v, |sources|);
    CountUpToIsMultiplicity(sources, v, |sources|);
    assert sources[..|sources|] == sources;
  }

  lemma SnocMultiplicity<T>(a: seq<T>, x: T, v: T)
    ensures multiset(a + [x])[v] == multiset(a)[v] + (if x == v then 1 else 0)
  {
  }
}
