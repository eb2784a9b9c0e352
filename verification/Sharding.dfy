/** Dividing tests among shards.

    Only runnable tests are counted, in the order of registration; the number of runnable tests before a
    test decides its shard.  `ShardSize` gives the size of each shard in closed form; from it follow the
    balance and the partition. */
module Sharding {
  import opened Arithmetic

  /** All tests, or one of `total` shards. */
  datatype Shard = All | Shard(total: nat, index: int)

  predicate ShouldRunTestOnShard(totalShards: nat, shardIndex: int, testId: nat)
    requires totalShards > 0
  {
    testId % totalShards == shardIndex
  }

  predicate Usable(shard: Shard) {
    shard.Shard? ==> shard.total > 0
  }

  predicate OnShard(shard: Shard, testId: nat)
    requires Usable(shard)
  {
    shard.All? || ShouldRunTestOnShard(shard.total, shard.index, testId)
  }

  function Count(r: seq<bool>): (n: nat)
    ensures n <= |r|
  {
    if r == [] then 0 else Count(r[..|r| - 1]) + (if r[|r| - 1] then 1 else 0)
  }

  /** Which of the tests run on a shard, given which are runnable and how many runnable ones came before. */
  function Selection(r: seq<bool>, shard: Shard, before: nat): (selected: seq<bool>)
    requires Usable(shard)
    ensures |selected| == |r|
  {
    if r == [] then []
    else
      var front := r[..|r| - 1];
      Selection(front, shard, before) + [r[|r| - 1] && OnShard(shard, before + Count(front))]
  }

  lemma {:induction false} CountConcat(a: seq<bool>, b: seq<bool>)
    ensures Count(a + b) == Count(a) + Count(b)
  {
    if b == [] {
      assert a + b == a;
    } else {
      CountConcat(a, b[..|b| - 1]);
      assert (a + b)[..|a + b| - 1] == a + b[..|b| - 1];
    }
  }

  lemma {:induction false} SelectionConcat(a: seq<bool>, b: seq<bool>, shard: Shard, before: nat)
    requires Usable(shard)
    ensures Selection(a + b, shard, before) == Selection(a, shard, before) + Selection(b, shard, before + Count(a))
  {
    if b == [] {
      assert a + b == a;
    } else {
      var front := b[..|b| - 1];
      SelectionConcat(a, front, shard, before);
      CountConcat(a, front);
      assert (a + b)[..|a + b| - 1] == a + front;
      hide OnShard;
    }
  }

  lemma {:induction false} SelectionAt(r: seq<bool>, shard: Shard, before: nat, k: nat)
    requires Usable(shard) && k < |r|
    ensures Selection(r, shard, before)[k] == (r[k] && OnShard(shard, before + Count(r[..k])))
  {
    if k < |r| - 1 {
      SelectionAt(r[..|r| - 1], shard, before, k);
      assert r[..|r| - 1][..k] == r[..k];
    }
  }

  /** A runnable test is selected by one shard and by no other; a test that is not runnable by none. */
  lemma OneShardEach(r: seq<bool>, total: nat, k: nat)
    requires total > 0 && k < |r|
    ensures var home := Count(r[..k]) % total;
      0 <= home < total && forall index :: Selection(r, Shard(total, index), 0)[k] <==> r[k] && index == home
  {
    forall index
      ensures Selection(r, Shard(total, index), 0)[k] <==> r[k] && index == Count(r[..k]) % total
    {
      SelectionAt(r, Shard(total, index), 0, k);
    }
  }

  lemma DivideStep(m: nat, t: nat)
    requires t > 0
    ensures (m + 1) / t == m / t + (if (m + 1) % t == 0 then 1 else 0)
  {
    var q, rem := m / t, m % t;
    assert m + 1 == t * q + (rem + 1);
    if rem + 1 == t {
      assert m + 1 == t * (q + 1);
      DivideIs(m + 1, t, q + 1, 0);
    } else {
      DivideIs(m + 1, t, q, rem + 1);
    }
  }

  lemma SameRemainder(n: nat, t: nat, index: nat)
    requires index < t
    ensures (n + t - index) % t == 0 <==> n % t == index
  {
    var q, rem := n / t, n % t;
    assert n + t - index == t * (q + 1) + (rem - index);
    if rem >= index {
      DivideIs(n + t - index, t, q + 1, rem - index);
    } else {
      assert t * (q + 1) == t * q + t;
      DivideIs(n + t - index, t, q, t + rem - index);
    }
  }

  /** How many of n tests shard `index` gets. */
  function Share(n: nat, total: nat, index: nat): nat
    requires index < total
  {
    (n + total - 1 - index) / total
  }

  lemma {:induction false} ShardSize(r: seq<bool>, total: nat, index: nat)
    requires index < total
    ensures Count(Selection(r, Shard(total, index), 0)) == Share(Count(r), total, index)
  {
    if r == [] {
      DivideIs(total - 1 - index, total, 0, total - 1 - index);
    } else {
      var front := r[..|r| - 1];
      var n := Count(front);
      ShardSize(front, total, index);
      DivideStep(n + total - 1 - index, total);
      SameRemainder(n, total, index);
      var all := Selection(r, Shard(total, index), 0);
      assert all[..|all| - 1] == Selection(front, Shard(total, index), 0);
    }
  }

  /** The sizes of two shards differ by at most one, and an earlier shard is never the smaller. */
  lemma ShardsAreBalanced(r: seq<bool>, total: nat, index: nat, later: nat)
    requires index <= later < total
    ensures var a := Count(Selection(r, Shard(total, index), 0));
      var b := Count(Selection(r, Shard(total, later), 0));
      b <= a <= b + 1
  {
    ShardSize(r, total, index);
    ShardSize(r, total, later);
    var n := Count(r);
    hide Count, Selection;
    ShareOrder(n, total, index, later);
  }

  lemma ShareOrder(n: nat, total: nat, index: nat, later: nat)
    requires index <= later < total
    ensures Share(n, total, later) <= Share(n, total, index) <= Share(n, total, later) + 1
  {
    var x, y := n + total - 1 - index, n + total - 1 - later;
    assert y <= x < y + total;
    Between(y, x, total);
  }

  lemma Between(y: nat, x: nat, t: nat)
    requires t > 0 && y <= x < y + t
    ensures y / t <= x / t <= y / t + 1
  {
    var d := x / t - y / t;
    assert t * d == x - y - (x % t - y % t);
    MultipleGrows(t, d);
  }

  function TotalSelected(r: seq<bool>, total: nat, shards: nat): nat
    requires shards <= total
  {
    if shards == 0 then 0
    else TotalSelected(r, total, shards - 1) + Count(Selection(r, Shard(total, shards - 1), 0))
  }

  lemma {:induction false} OneMoreTest(front: seq<bool>, b: bool, total: nat, shards: nat)
    requires 0 < total && shards <= total
    ensures TotalSelected(front + [b], total, shards) == TotalSelected(front, total, shards)
      + (if b && Count(front) % total < shards then 1 else 0)
  {
    if shards > 0 {
      OneMoreTest(front, b, total, shards - 1);
      var shard := Shard(total, shards - 1);
      assert (front + [b])[..|front|] == front;
      var all := Selection(front + [b], shard, 0);
      assert all[..|all| - 1] == Selection(front, shard, 0);
    }
  }

  /** Together the shards run every runnable test once. */
  lemma {:induction false} ShardsPartition(r: seq<bool>, total: nat)
    requires total > 0
    ensures TotalSelected(r, total, total) == Count(r)
  {
    if r == [] {
      NoTests(total, total);
    } else {
      ShardsPartition(r[..|r| - 1], total);
      OneMoreTest(r[..|r| - 1], r[|r| - 1], total, total);
      assert r == r[..|r| - 1] + [r[|r| - 1]];
    }
  }

  lemma {:induction false} NoTests(total: nat, shards: nat)
    requires 0 < total && shards <= total
    ensures TotalSelected([], total, shards) == 0
  {
    if shards > 0 {
      NoTests(total, shards - 1);
    }
  }
}
