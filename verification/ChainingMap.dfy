/** FixedSizedChainingHashMap: bucket chains threaded through one node pool. Pointers are indices
    into the pool, -1 is the null pointer. */
module ChainingMap {
  import opened Words

  type Key = int
  type Value = int

  datatype Option<T> = None | Some(value: T)
  datatype Node = Node(key: Key, value: Value, next: int)
  datatype Entry = Entry(key: Key, value: Value)

  // ----- The specification: one sequence of entries per bucket ----------------------------------

  type Table = seq<seq<Entry>>

  function Slot(hash: Key -> nat, key: Key, n: nat): (b: nat)
    requires PowerOfTwo(n)
    ensures b < n
  {
    Masked(hash(key), n)
  }

  /** The first match, or the end of the bucket. */
  function First(bucket: seq<Entry>, key: Key): (i: nat)
    ensures i <= |bucket| && (i < |bucket| ==> bucket[i].key == key)
    ensures forall j :: 0 <= j < i ==> bucket[j].key != key
  {
    if bucket == [] || bucket[0].key == key then 0 else 1 + First(bucket[1..], key)
  }

  function Lookup(bucket: seq<Entry>, key: Key): Option<Value> {
    var i := First(bucket, key);
    if i < |bucket| then Some(bucket[i].value) else None
  }

  function Removed(bucket: seq<Entry>, key: Key): seq<Entry> {
    var i := First(bucket, key);
    if i < |bucket| then bucket[..i] + bucket[i + 1..] else bucket
  }

  /** A write through the reference returned for the first match. */
  function Written(bucket: seq<Entry>, key: Key, value: Value): seq<Entry> {
    var i := First(bucket, key);
    if i < |bucket| then bucket[i := Entry(key, value)] else bucket
  }

  function Size(table: Table): nat {
    if table == [] then 0 else Size(table[..|table| - 1]) + |table[|table| - 1]|
  }

  lemma {:induction false} SizeUpdate(table: Table, b: nat, bucket: seq<Entry>)
    requires b < |table|
    ensures Size(table[b := bucket]) == Size(table) - |table[b]| + |bucket|
  {
    var k := |table| - 1;
    if b < k {
      SizeUpdate(table[..k], b, bucket);
      assert table[b := bucket][..k] == table[..k][b := bucket];
    } else {
      assert table[b := bucket][..k] == table[..k];
    }
  }

  // ----- The wiring: chains of nodes ------------------------------------------------------------

  predicate Distinct(s: seq<int>) {
    forall i, j :: 0 <= i < j < |s| ==> s[i] != s[j]
  }

  predicate Within(s: seq<int>, n: nat) {
    forall i :: 0 <= i < |s| ==> 0 <= s[i] < n
  }

  /** The i-th node of a chain, null past its end. */
  function At(chain: seq<int>, i: nat): int {
    if i < |chain| then chain[i] else -1
  }

  /** Following `next` from `head` visits exactly the nodes of `chain`. */
  predicate Links(head: int, pool: seq<Node>, chain: seq<int>) {
    && Within(chain, |pool|)
    && head == At(chain, 0)
    && forall i {:trigger pool[chain[i]]} :: 0 <= i < |chain| ==> pool[chain[i]].next == At(chain, i + 1)
  }

  predicate Linked(heads: seq<int>, pool: seq<Node>, chains: seq<seq<int>>) {
    && |heads| == |chains|
    && forall b :: 0 <= b < |chains| ==> Links(heads[b], pool, chains[b]) && Distinct(chains[b])
  }

  ghost predicate Hashed(hash: Key -> nat, pool: seq<Node>, chains: seq<seq<int>>) {
    && PowerOfTwo(|chains|)
    && forall b :: 0 <= b < |chains| ==> InBucket(hash, pool, chains[b], |chains|, b)
  }

  ghost predicate InBucket(hash: Key -> nat, pool: seq<Node>, chain: seq<int>, n: nat, b: nat)
    requires PowerOfTwo(n)
  {
    Within(chain, |pool|) && forall i :: 0 <= i < |chain| ==> Slot(hash, pool[chain[i]].key, n) == b
  }

  /** A node is free or on the chain of its key's bucket. */
  ghost predicate Partitioned(hash: Key -> nat, pool: seq<Node>, free: seq<int>, chains: seq<seq<int>>) {
    && Distinct(free) && Within(free, |pool|) && PowerOfTwo(|chains|)
    && forall n :: 0 <= n < |pool| ==> (n in free <==> n !in chains[Slot(hash, pool[n].key, |chains|)])
  }

  /** Chains are acyclic and pairwise disjoint, each node's bucket is its key's, and with the free
      nodes the chains partition the pool. */
  ghost predicate Wired(hash: Key -> nat, heads: seq<int>, pool: seq<Node>, free: seq<int>, chains: seq<seq<int>>) {
    Linked(heads, pool, chains) && Hashed(hash, pool, chains) && Partitioned(hash, pool, free, chains)
  }

  function Entries(pool: seq<Node>, chain: seq<int>): (bucket: seq<Entry>)
    requires Within(chain, |pool|)
    ensures |bucket| == |chain|
  {
    seq(|chain|, i requires 0 <= i < |chain| => Entry(pool[chain[i]].key, pool[chain[i]].value))
  }

  function Contents(pool: seq<Node>, chains: seq<seq<int>>): (table: Table)
    requires forall b :: 0 <= b < |chains| ==> Within(chains[b], |pool|)
    ensures |table| == |chains|
  {
    seq(|chains|, b requires 0 <= b < |chains| => Entries(pool, chains[b]))
  }

  /** Two buckets share no node, and none is free. */
  lemma Disjoint(hash: Key -> nat, pool: seq<Node>, free: seq<int>, chains: seq<seq<int>>, n: int, c: nat)
    requires Hashed(hash, pool, chains) && c < |chains| && n in chains[c]
    ensures 0 <= n < |pool| && Slot(hash, pool[n].key, |chains|) == c
    ensures Partitioned(hash, pool, free, chains) ==> n !in free
  {
    hide Slot, PowerOfTwo;
    assert InBucket(hash, pool, chains[c], |chains|, c);
    var i :| 0 <= i < |chains[c]| && chains[c][i] == n;
  }

  /** Nodes off the chain may change. */
  predicate Agree(pool: seq<Node>, pool': seq<Node>, chain: seq<int>) {
    |pool| == |pool'| && Within(chain, |pool|) && forall i :: 0 <= i < |chain| ==> pool'[chain[i]] == pool[chain[i]]
  }

  lemma AgreeKeeps(pool: seq<Node>, pool': seq<Node>, chain: seq<int>, head: int)
    requires Agree(pool, pool', chain)
    ensures Links(head, pool, chain) ==> Links(head, pool', chain)
    ensures Entries(pool', chain) == Entries(pool, chain)
  {
  }

  /** Rewiring one bucket and leaving the nodes of all others alone. */
  lemma Relink(heads: seq<int>, pool: seq<Node>, chains: seq<seq<int>>, b: nat, heads': seq<int>, pool': seq<Node>,
               chain: seq<int>)
    requires Linked(heads, pool, chains) && b < |chains| && |heads'| == |heads|
    requires forall c :: 0 <= c < |chains| && c != b ==> heads'[c] == heads[c] && Agree(pool, pool', chains[c])
    requires Links(heads'[b], pool', chain) && Distinct(chain)
    ensures Linked(heads', pool', chains[b := chain])
    ensures Contents(pool', chains[b := chain]) == Contents(pool, chains)[b := Entries(pool', chain)]
  {
    hide At, Distinct;
    var chains' := chains[b := chain];
    forall c | 0 <= c < |chains| && c != b
      ensures Links(heads'[c], pool', chains'[c]) && Entries(pool', chains'[c]) == Entries(pool, chains[c])
    {
      AgreeKeeps(pool, pool', chains[c], heads[c]);
    }
    hide Entries;
  }

  /** The nodes as linked after a free node was appended to a chain. */
  function AppendPool(pool: seq<Node>, chain: seq<int>, n: int, key: Key, value: Value): (after: seq<Node>)
    requires 0 <= n < |pool| && Within(chain, |pool|)
    ensures |after| == |pool|
  {
    var filled := pool[n := Node(key, value, -1)];
    if chain == [] then filled
    else var last := chain[|chain| - 1]; filled[last := filled[last].(next := n)]
  }

  lemma AtIs(chain: seq<int>, i: nat)
    ensures At(chain, i) == if i < |chain| then chain[i] else -1
  {
  }

  lemma AppendLinks(head: int, pool: seq<Node>, chain: seq<int>, n: int, key: Key, value: Value)
    requires Links(head, pool, chain) && Distinct(chain) && 0 <= n < |pool| && n !in chain
    ensures var pool' := AppendPool(pool, chain, n, key, value);
      && Links(if chain == [] then n else head, pool', chain + [n]) && Distinct(chain + [n])
      && Entries(pool', chain + [n]) == Entries(pool, chain) + [Entry(key, value)]
  {
    var pool', chain' := AppendPool(pool, chain, n, key, value), chain + [n];
    var bucket' := Entries(pool, chain) + [Entry(key, value)];
    forall i | 0 <= i < |chain'|
      ensures 0 <= chain'[i] < |pool| && pool'[chain'[i]].next == At(chain', i + 1)
      ensures Entry(pool'[chain'[i]].key, pool'[chain'[i]].value) == bucket'[i]
    {
      if i < |chain| {
        assert chain'[i] == chain[i] && chain[i] in chain;
        assert i + 1 < |chain| ==> chain[i] != chain[|chain| - 1] && At(chain', i + 1) == At(chain, i + 1);
      }
    }
    assert forall i :: 0 <= i < |chain| ==> chain[i] in chain;
  }

  lemma AppendKeepsWired(hash: Key -> nat, heads: seq<int>, pool: seq<Node>, free: seq<int>, chains: seq<seq<int>>,
                         b: nat, key: Key, value: Value)
    requires Wired(hash, heads, pool, free, chains) && free != [] && b == Slot(hash, key, |chains|)
    ensures var n, chain := free[|free| - 1], chains[b];
      var heads', pool', chains' :=
        if chain == [] then heads[b := n] else heads, AppendPool(pool, chain, n, key, value), chains[b := chain + [n]];
      && Wired(hash, heads', pool', free[..|free| - 1], chains')
      && Contents(pool', chains') == Contents(pool, chains)[b := Entries(pool, chain) + [Entry(key, value)]]
  {
    hide Slot, PowerOfTwo;
    var n, chain := free[|free| - 1], chains[b];
    var heads' := if chain == [] then heads[b := n] else heads;
    var pool' := AppendPool(pool, chain, n, key, value);
    var chains' := chains[b := chain + [n]];
    assert n in free;
    forall c | 0 <= c < |chains| ensures n !in chains[c] && (c != b ==> Agree(pool, pool', chains[c])) {
      if n in chains[c] { Disjoint(hash, pool, free, chains, n, c); }
      if c != b { AppendAgrees(hash, pool, chains, b, n, key, value, c); }
    }
    AppendLinks(heads[b], pool, chain, n, key, value);
    AppendHashed(hash, pool, chains, b, n, key, value);
    AppendPartitions(hash, pool, free, chains, b, key, value);
    hide Hashed, Partitioned, AppendPool, Distinct, At, Agree, Entries;
    Relink(heads, pool, chains, b, heads', pool', chain + [n]);
  }

  lemma AppendAgrees(hash: Key -> nat, pool: seq<Node>, chains: seq<seq<int>>, b: nat, n: int, key: Key, value: Value,
                     c: nat)
    requires Hashed(hash, pool, chains) && b < |chains| && c < |chains| && b != c && 0 <= n < |pool| && n !in chains[c]
    ensures Within(chains[b], |pool|) && Agree(pool, AppendPool(pool, chains[b], n, key, value), chains[c])
  {
    hide Slot, PowerOfTwo;
    var chain := chains[b];
    assert InBucket(hash, pool, chains[b], |chains|, b) && InBucket(hash, pool, chains[c], |chains|, c);
    if chain != [] {
      var last := chain[|chain| - 1];
      if last in chains[c] { Disjoint(hash, pool, [], chains, last, b); Disjoint(hash, pool, [], chains, last, c); }
    }
    assert forall i :: 0 <= i < |chains[c]| ==> chains[c][i] in chains[c];
  }

  lemma AppendHashed(hash: Key -> nat, pool: seq<Node>, chains: seq<seq<int>>, b: nat, n: int, key: Key, value: Value)
    requires Hashed(hash, pool, chains) && b == Slot(hash, key, |chains|) && 0 <= n < |pool|
    requires forall c :: 0 <= c < |chains| ==> n !in chains[c]
    ensures Within(chains[b], |pool|)
    ensures Hashed(hash, AppendPool(pool, chains[b], n, key, value), chains[b := chains[b] + [n]])
  {
    hide Slot, PowerOfTwo;
    assert InBucket(hash, pool, chains[b], |chains|, b);
    var pool' := AppendPool(pool, chains[b], n, key, value);
    var chains' := chains[b := chains[b] + [n]];
    forall c | 0 <= c < |chains| ensures InBucket(hash, pool', chains'[c], |chains|, c) {
      assert InBucket(hash, pool, chains[c], |chains|, c);
      assert forall i :: 0 <= i < |chains[c]| ==> chains[c][i] in chains[c];
    }
  }

  lemma AppendPartitions(hash: Key -> nat, pool: seq<Node>, free: seq<int>, chains: seq<seq<int>>, b: nat, key: Key,
                         value: Value)
    requires Hashed(hash, pool, chains) && Partitioned(hash, pool, free, chains)
    requires free != [] && b == Slot(hash, key, |chains|)
    ensures var n, chain := free[|free| - 1], chains[b];
      Within(chain, |pool|) &&
      Partitioned(hash, AppendPool(pool, chain, n, key, value), free[..|free| - 1], chains[b := chain + [n]])
  {
    hide Slot, PowerOfTwo;
    assert InBucket(hash, pool, chains[b], |chains|, b);
    var k := |free| - 1;
    var n, chain := free[k], chains[b];
    var pool', chains' := AppendPool(pool, chain, n, key, value), chains[b := chain + [n]];
    assert free[..k] + [n] == free;
    assert n !in free[..k];
    forall m | 0 <= m < |pool| ensures m in free[..k] <==> m !in chains'[Slot(hash, pool'[m].key, |chains|)] {
      if m != n {
        assert pool'[m].key == pool[m].key && (m in free[..k] <==> m in free);
      }
    }
  }

  /** The nodes as linked after the i-th node of a chain was taken out. */
  function UnlinkPool(pool: seq<Node>, chain: seq<int>, i: nat): (after: seq<Node>)
    requires Within(chain, |pool|) && i < |chain|
    ensures |after| == |pool|
  {
    if i == 0 then pool else pool[chain[i - 1] := pool[chain[i - 1]].(next := pool[chain[i]].next)]
  }

  /** `rest` is the chain without its i-th node. */
  predicate Skips(chain: seq<int>, i: nat, rest: seq<int>) {
    && |rest| + 1 == |chain| && i < |chain|
    && forall j {:trigger rest[j]} :: 0 <= j < |rest| ==> rest[j] == if j < i then chain[j] else chain[j + 1]
  }

  lemma UnlinkMembers(chain: seq<int>, i: nat, rest: seq<int>)
    requires Distinct(chain) && Skips(chain, i, rest)
    ensures Distinct(rest) && forall n :: n in rest <==> n in chain && n != chain[i]
  {
    assert forall j :: 0 <= j < |chain| && j != i ==> chain[j] == rest[if j < i then j else j - 1];
  }

  lemma UnlinkNext(head: int, pool: seq<Node>, chain: seq<int>, i: nat, rest: seq<int>, j: nat)
    requires Links(head, pool, chain) && Distinct(chain) && Skips(chain, i, rest) && j < |rest|
    ensures 0 <= rest[j] < |pool|
    ensures UnlinkPool(pool, chain, i)[rest[j]].next == At(rest, j + 1)
  {
    var k := if j < i then j else j + 1;
    if k + 1 == i {
      assert pool[chain[i]].next == At(chain, i + 1);
    } else {
      assert pool[chain[k]].next == At(chain, k + 1);
      assert i > 0 ==> chain[k] != chain[i - 1];
    }
  }

  lemma UnlinkLinks(head: int, pool: seq<Node>, chain: seq<int>, i: nat, rest: seq<int>)
    requires Links(head, pool, chain) && Distinct(chain) && Skips(chain, i, rest)
    ensures Links(if i == 0 then pool[chain[i]].next else head, UnlinkPool(pool, chain, i), rest)
  {
    var pool' := UnlinkPool(pool, chain, i);
    assert pool[chain[i]].next == At(chain, i + 1);
    assert (if i == 0 then pool[chain[i]].next else head) == At(rest, 0);
    assert Within(rest, |pool|);
    hide At, UnlinkPool;
    forall j | 0 <= j < |rest| ensures pool'[rest[j]].next == At(rest, j + 1) {
      UnlinkNext(head, pool, chain, i, rest, j);
    }
  }

  lemma UnlinkEntries(head: int, pool: seq<Node>, chain: seq<int>, i: nat, rest: seq<int>)
    requires Links(head, pool, chain) && Skips(chain, i, rest)
    ensures var bucket := Entries(pool, chain);
      Within(rest, |pool|) && Entries(UnlinkPool(pool, chain, i), rest) == bucket[..i] + bucket[i + 1..]
  {
    var bucket := Entries(pool, chain);
    var bucket' := bucket[..i] + bucket[i + 1..];
    hide At;
    forall j | 0 <= j < |rest|
      ensures 0 <= rest[j] < |pool| && Entries(UnlinkPool(pool, chain, i), rest)[j] == bucket'[j]
    {
      assert rest[j] == if j < i then chain[j] else chain[j + 1];
    }
  }

  lemma UnlinkAgrees(hash: Key -> nat, pool: seq<Node>, chains: seq<seq<int>>, b: nat, i: nat, c: nat)
    requires Hashed(hash, pool, chains) && b < |chains| && c < |chains| && b != c && i < |chains[b]|
    ensures Within(chains[b], |pool|) && Agree(pool, UnlinkPool(pool, chains[b], i), chains[c])
  {
    hide Slot, PowerOfTwo;
    assert InBucket(hash, pool, chains[b], |chains|, b) && InBucket(hash, pool, chains[c], |chains|, c);
    if i > 0 {
      var prev := chains[b][i - 1];
      if prev in chains[c] { Disjoint(hash, pool, [], chains, prev, b); Disjoint(hash, pool, [], chains, prev, c); }
    }
    assert forall j :: 0 <= j < |chains[c]| ==> chains[c][j] in chains[c];
  }

  lemma UnlinkPartitions(hash: Key -> nat, pool: seq<Node>, free: seq<int>, chains: seq<seq<int>>, b: nat, i: nat,
                         rest: seq<int>)
    requires Hashed(hash, pool, chains) && Partitioned(hash, pool, free, chains) && b < |chains| && i < |chains[b]|
    requires Within(chains[b], |pool|) && forall n :: n in rest <==> n in chains[b] && n != chains[b][i]
    ensures Hashed(hash, UnlinkPool(pool, chains[b], i), chains[b := rest])
    ensures Partitioned(hash, UnlinkPool(pool, chains[b], i), free + [chains[b][i]], chains[b := rest])
  {
    hide Slot, PowerOfTwo;
    var n := chains[b][i];
    var pool', chains' := UnlinkPool(pool, chains[b], i), chains[b := rest];
    assert InBucket(hash, pool, chains[b], |chains|, b);
    Disjoint(hash, pool, free, chains, n, b);
    forall m | 0 <= m < |pool| ensures m in free + [n] <==> m !in chains'[Slot(hash, pool'[m].key, |chains|)] {
      assert pool'[m].key == pool[m].key;
    }
    forall c | 0 <= c < |chains| ensures InBucket(hash, pool', chains'[c], |chains|, c) {
      assert InBucket(hash, pool, chains[c], |chains|, c);
      forall j | 0 <= j < |chains'[c]|
        ensures 0 <= chains'[c][j] < |pool| && Slot(hash, pool'[chains'[c][j]].key, |chains|) == c
      {
        assert chains'[c][j] in chains'[c];
        assert chains'[c][j] in chains[c];
        Disjoint(hash, pool, free, chains, chains'[c][j], c);
      }
    }
  }

  lemma UnlinkKeepsWired(hash: Key -> nat, heads: seq<int>, pool: seq<Node>, free: seq<int>, chains: seq<seq<int>>,
                         b: nat, i: nat, rest: seq<int>)
    requires Wired(hash, heads, pool, free, chains) && b < |chains| && Skips(chains[b], i, rest)
    ensures var chain := chains[b];
      var bucket := Entries(pool, chain);
      var heads', pool' := if i == 0 then heads[b := pool[chain[i]].next] else heads, UnlinkPool(pool, chain, i);
      && Wired(hash, heads', pool', free + [chain[i]], chains[b := rest])
      && Contents(pool', chains[b := rest]) == Contents(pool, chains)[b := bucket[..i] + bucket[i + 1..]]
  {
    hide Slot, PowerOfTwo;
    var chain := chains[b];
    var heads' := if i == 0 then heads[b := pool[chain[i]].next] else heads;
    var pool' := UnlinkPool(pool, chain, i);
    UnlinkMembers(chain, i, rest);
    UnlinkLinks(heads[b], pool, chain, i, rest);
    UnlinkEntries(heads[b], pool, chain, i, rest);
    UnlinkPartitions(hash, pool, free, chains, b, i, rest);
    hide Hashed, Partitioned, UnlinkPool, Distinct, Skips, At, Agree, Entries;
    forall c | 0 <= c < |chains| && c != b ensures Agree(pool, pool', chains[c]) {
      UnlinkAgrees(hash, pool, chains, b, i, c);
    }
    Relink(heads, pool, chains, b, heads', pool', rest);
  }

  /** A write of a node's value, through the reference that operator[] returned. */
  lemma WriteKeepsWired(hash: Key -> nat, heads: seq<int>, pool: seq<Node>, free: seq<int>, chains: seq<seq<int>>,
                        b: nat, i: nat, value: Value)
    requires Wired(hash, heads, pool, free, chains) && b < |chains| && i < |chains[b]|
    ensures var n, bucket := chains[b][i], Entries(pool, chains[b]);
      var pool' := pool[n := pool[n].(value := value)];
      && Wired(hash, heads, pool', free, chains)
      && Contents(pool', chains) == Contents(pool, chains)[b := bucket[i := Entry(bucket[i].key, value)]]
  {
    hide Slot, PowerOfTwo;
    var n, bucket := chains[b][i], Entries(pool, chains[b]);
    var pool' := pool[n := pool[n].(value := value)];
    WriteAgrees(hash, pool, chains, b, i, value);
    hide At, Partitioned;
    forall c | 0 <= c < |chains|
      ensures Links(heads[c], pool', chains[c]) && InBucket(hash, pool', chains[c], |chains|, c)
      ensures Entries(pool', chains[c]) ==
        if c == b then bucket[i := Entry(bucket[i].key, value)] else Entries(pool, chains[c])
    {
      assert InBucket(hash, pool, chains[c], |chains|, c);
      if c == b {
        WriteChain(hash, heads[b], pool, chains[b], |chains|, b, i, value);
      } else {
        AgreeKeeps(pool, pool', chains[c], heads[c]);
      }
    }
    hide Links, InBucket, Entries;
    assert Partitioned(hash, pool', free, chains) by { WritePartitions(hash, pool, free, chains, n, value); }
  }

  lemma WriteChain(hash: Key -> nat, head: int, pool: seq<Node>, chain: seq<int>, count: nat, b: nat, i: nat,
                   value: Value)
    requires Links(head, pool, chain) && Distinct(chain) && i < |chain|
    requires PowerOfTwo(count) && InBucket(hash, pool, chain, count, b)
    ensures var n, bucket := chain[i], Entries(pool, chain);
      var pool' := pool[n := pool[n].(value := value)];
      && Links(head, pool', chain) && InBucket(hash, pool', chain, count, b)
      && Entries(pool', chain) == bucket[i := Entry(bucket[i].key, value)]
  {
    hide Slot, PowerOfTwo, At;
    var n, bucket := chain[i], Entries(pool, chain);
    var pool' := pool[n := pool[n].(value := value)];
    forall j | 0 <= j < |chain| ensures Entries(pool', chain)[j] == bucket[i := Entry(bucket[i].key, value)][j] {
      assert j != i ==> chain[j] != n;
    }
  }

  lemma WriteAgrees(hash: Key -> nat, pool: seq<Node>, chains: seq<seq<int>>, b: nat, i: nat, value: Value)
    requires Hashed(hash, pool, chains) && b < |chains| && i < |chains[b]|
    ensures 0 <= chains[b][i] < |pool|
    ensures var n := chains[b][i];
      forall c :: 0 <= c < |chains| && c != b ==> Agree(pool, pool[n := pool[n].(value := value)], chains[c])
  {
    hide Slot, PowerOfTwo;
    var n := chains[b][i];
    Disjoint(hash, pool, [], chains, n, b);
    forall c | 0 <= c < |chains| && c != b ensures Agree(pool, pool[n := pool[n].(value := value)], chains[c]) {
      assert InBucket(hash, pool, chains[c], |chains|, c);
      if n in chains[c] { Disjoint(hash, pool, [], chains, n, c); }
      assert forall j :: 0 <= j < |chains[c]| ==> chains[c][j] in chains[c];
    }
  }

  lemma WritePartitions(hash: Key -> nat, pool: seq<Node>, free: seq<int>, chains: seq<seq<int>>, n: nat, value: Value)
    requires Partitioned(hash, pool, free, chains) && n < |pool|
    ensures Partitioned(hash, pool[n := pool[n].(value := value)], free, chains)
  {
    hide Slot, PowerOfTwo;
  }

  // ----- Refinement of a finite map -------------------------------------------------------------

  predicate UniqueKeys(bucket: seq<Entry>) {
    forall i, j :: 0 <= i < j < |bucket| ==> bucket[i].key != bucket[j].key
  }

  function LookupIn(hash: Key -> nat, table: Table, key: Key): Option<Value>
    requires PowerOfTwo(|table|)
  {
    Lookup(table[Slot(hash, key, |table|)], key)
  }

  function Found(m: map<Key, Value>, key: Key): Option<Value> {
    if key in m then Some(m[key]) else None
  }

  /** The table is this map: every look-up agrees, no bucket repeats a key, and nothing else is stored. */
  ghost predicate Represents(hash: Key -> nat, table: Table, m: map<Key, Value>) {
    && PowerOfTwo(|table|) && Size(table) == |m|
    && (forall b :: 0 <= b < |table| ==> UniqueKeys(table[b]))
    && (forall key :: LookupIn(hash, table, key) == Found(m, key))
  }

  /** `map[key] = value` through operator[]; a full pool refuses an absent key. */
  function Assigned(hash: Key -> nat, table: Table, key: Key, value: Value, full: bool): (after: Table)
    requires PowerOfTwo(|table|)
    ensures |after| == |table|
  {
    var b := Slot(hash, key, |table|);
    if First(table[b], key) < |table[b]| then table[b := Written(table[b], key, value)]
    else if full then table
    else table[b := table[b] + [Entry(key, value)]]
  }

  function Inserted(hash: Key -> nat, table: Table, key: Key, value: Value): (after: Table)
    requires PowerOfTwo(|table|)
    ensures |after| == |table|
  {
    var b := Slot(hash, key, |table|);
    table[b := table[b] + [Entry(key, value)]]
  }

  function Erased(hash: Key -> nat, table: Table, key: Key): (after: Table)
    requires PowerOfTwo(|table|)
    ensures |after| == |table|
  {
    var b := Slot(hash, key, |table|);
    table[b := Removed(table[b], key)]
  }

  lemma WrittenLooksUp(bucket: seq<Entry>, key: Key, value: Value, other: Key)
    requires First(bucket, key) < |bucket|
    ensures Lookup(Written(bucket, key, value), other) == if other == key then Some(value) else Lookup(bucket, other)
  {
    var i := First(bucket, key);
    var after := Written(bucket, key, value);
    assert forall j :: 0 <= j < |bucket| ==> after[j].key == bucket[j].key;
    assert First(after, other) == First(bucket, other);
  }

  lemma FirstAppended(bucket: seq<Entry>, key: Key, value: Value)
    requires First(bucket, key) == |bucket|
    ensures First(bucket + [Entry(key, value)], key) == |bucket|
  {
    var after := bucket + [Entry(key, value)];
    assert after[|bucket|].key == key;
    assert forall i :: 0 <= i < |bucket| ==> after[i] == bucket[i];
  }

  lemma AppendedLooksUp(bucket: seq<Entry>, key: Key, value: Value, other: Key)
    ensures Lookup(bucket + [Entry(key, value)], other) ==
      if other == key && First(bucket, key) == |bucket| then Some(value) else Lookup(bucket, other)
    ensures UniqueKeys(bucket) ==> (UniqueKeys(bucket + [Entry(key, value)]) <==> First(bucket, key) == |bucket|)
  {
    var after := bucket + [Entry(key, value)];
    var i := First(bucket, other);
    if i < |bucket| {
      assert after[i] == bucket[i];
      assert First(after, other) == i;
    } else if other == key {
      assert after[|bucket|].key == other;
      assert First(after, other) == |bucket|;
    }
    var k := First(bucket, key);
    if k < |bucket| {
      assert after[k].key == after[|bucket|].key;
    }
  }

  lemma RemovedLooksUp(bucket: seq<Entry>, key: Key, other: Key)
    requires UniqueKeys(bucket)
    ensures Lookup(Removed(bucket, key), other) == if other == key then None else Lookup(bucket, other)
    ensures UniqueKeys(Removed(bucket, key))
  {
    var i, k := First(bucket, key), First(bucket, other);
    var after := Removed(bucket, key);
    if i < |bucket| {
      assert forall j :: 0 <= j < |after| ==> after[j] == bucket[if j < i then j else j + 1];
      if other == key {
        assert First(after, key) == |after|;
      } else if k < |bucket| {
        assert after[if k < i then k else k - 1] == bucket[k];
        assert First(after, other) == if k < i then k else k - 1;
      }
    }
  }

  lemma AssignAfterIndex(hash: Key -> nat, table: Table, key: Key, value: Value)
    requires PowerOfTwo(|table|)
    ensures LookupIn(hash, table, key) != None ==> forall full ::
      Assigned(hash, table, key, value, full) == Assigned(hash, table, key, value, true)
    ensures LookupIn(hash, table, key) == None ==>
      && Assigned(hash, table, key, value, true) == table
      && Assigned(hash, table, key, value, false) ==
         Assigned(hash, Inserted(hash, table, key, DEFAULT), key, value, true)
  {
    var b := Slot(hash, key, |table|);
    hide Slot, PowerOfTwo;
    if First(table[b], key) == |table[b]| {
      FirstAppended(table[b], key, DEFAULT);
      assert (table[b] + [Entry(key, DEFAULT)])[|table[b]| := Entry(key, value)] == table[b] + [Entry(key, value)];
      var bucket := table[b] + [Entry(key, value)];
      assert table[b := table[b] + [Entry(key, DEFAULT)]][b := bucket] == table[b := bucket];
    }
  }

  /** Replacing the bucket of one key. */
  lemma ReplaceBucket(hash: Key -> nat, table: Table, m: map<Key, Value>, key: Key, bucket: seq<Entry>,
                      m': map<Key, Value>)
    requires Represents(hash, table, m) && UniqueKeys(bucket)
    requires var b := Slot(hash, key, |table|);
      && |m'| == |m| - |table[b]| + |bucket|
      && forall other :: Lookup(bucket, other) == if other == key then Found(m', key) else Lookup(table[b], other)
    requires forall other :: other != key ==> Found(m', other) == Found(m, other)
    ensures Represents(hash, table[Slot(hash, key, |table|) := bucket], m')
  {
    hide Slot, PowerOfTwo, Lookup, Found, UniqueKeys;
    var b := Slot(hash, key, |table|);
    var after := table[b := bucket];
    SizeUpdate(table, b, bucket);
    forall other ensures LookupIn(hash, after, other) == Found(m', other) {
      assert LookupIn(hash, table, other) == Found(m, other);
    }
  }

  lemma AssignRefines(hash: Key -> nat, table: Table, m: map<Key, Value>, key: Key, value: Value, full: bool)
    requires Represents(hash, table, m)
    ensures Represents(hash, Assigned(hash, table, key, value, full), if key in m || !full then m[key := value] else m)
  {
    var b := Slot(hash, key, |table|);
    assert LookupIn(hash, table, key) == Found(m, key);
    assert UniqueKeys(table[b]);
    hide Slot, PowerOfTwo, Size, Represents, UniqueKeys, Written, First;
    if key in m {
      forall other
        ensures Lookup(Written(table[b], key, value), other) ==
          if other == key then Some(value) else Lookup(table[b], other)
      {
        WrittenLooksUp(table[b], key, value, other);
      }
      assert |Written(table[b], key, value)| == |table[b]| by { WrittenLength(table[b], key, value); }
      assert m[key := value].Keys == m.Keys;
      ReplaceBucket(hash, table, m, key, Written(table[b], key, value), m[key := value]);
    } else if !full {
      var bucket := table[b] + [Entry(key, value)];
      forall other ensures Lookup(bucket, other) == if other == key then Some(value) else Lookup(table[b], other) {
        AppendedLooksUp(table[b], key, value, other);
      }
      ReplaceBucket(hash, table, m, key, bucket, m[key := value]);
    }
  }

  lemma WrittenLength(bucket: seq<Entry>, key: Key, value: Value)
    ensures |Written(bucket, key, value)| == |bucket|
    ensures UniqueKeys(bucket) ==> UniqueKeys(Written(bucket, key, value))
  {
    var after := Written(bucket, key, value);
    assert forall j :: 0 <= j < |bucket| ==> after[j].key == bucket[j].key;
  }

  lemma EraseRefines(hash: Key -> nat, table: Table, m: map<Key, Value>, key: Key)
    requires Represents(hash, table, m)
    ensures Represents(hash, Erased(hash, table, key), m - {key})
  {
    var b := Slot(hash, key, |table|);
    assert LookupIn(hash, table, key) == Found(m, key);
    assert UniqueKeys(table[b]);
    var bucket := Removed(table[b], key);
    assert |bucket| == |table[b]| - if key in m then 1 else 0;
    assert (m - {key}).Keys == m.Keys - {key};
    hide Slot, PowerOfTwo, Size, Represents, UniqueKeys, Removed, First, Lookup;
    forall other ensures Lookup(bucket, other) == if other == key then None else Lookup(table[b], other) {
      RemovedLooksUp(table[b], key, other);
    }
    ReplaceBucket(hash, table, m, key, bucket, m - {key});
  }

  /** Insert never looks for the key: it acts as a map update exactly when the key is absent, and a
      present key leaves a state that no map describes. */
  lemma InsertRefinesIff(hash: Key -> nat, table: Table, m: map<Key, Value>, key: Key, value: Value)
    requires Represents(hash, table, m)
    ensures key !in m <==> Represents(hash, Inserted(hash, table, key, value), m[key := value])
    ensures key in m ==> forall m' :: !Represents(hash, Inserted(hash, table, key, value), m')
    ensures var after, m' := Inserted(hash, table, key, value), if key in m then m else m[key := value];
      forall other :: LookupIn(hash, after, other) == Found(m', other)
  {
    var b := Slot(hash, key, |table|);
    var after := Inserted(hash, table, key, value);
    assert LookupIn(hash, table, key) == Found(m, key);
    hide Slot, PowerOfTwo;
    AppendedLooksUp(table[b], key, value, key);
    forall other ensures LookupIn(hash, after, other) == Found(if key in m then m else m[key := value], other) {
      assert LookupIn(hash, table, other) == Found(m, other);
      AppendedLooksUp(table[b], key, value, other);
    }
    if key in m {
      assert !UniqueKeys(after[b]);
    } else {
      SizeUpdate(table, b, after[b]);
    }
  }

  /** A shadowed duplicate comes back once the first match is erased. */
  lemma ErasingUncoversTheDuplicate(hash: Key -> nat, table: Table, m: map<Key, Value>, key: Key, value: Value)
    requires Represents(hash, table, m) && key in m
    ensures LookupIn(hash, Erased(hash, Inserted(hash, table, key, value), key), key) == Some(value)
  {
    var b := Slot(hash, key, |table|);
    var bucket := table[b];
    assert LookupIn(hash, table, key) == Found(m, key);
    hide Slot, PowerOfTwo;
    var i := First(bucket, key);
    var e := [Entry(key, value)];
    assert (bucket + e)[i] == bucket[i] && First(bucket + e, key) == i;
    assert Removed(bucket + e, key) == Removed(bucket, key) + e;
    RemovedLooksUp(bucket, key, key);
    AppendedLooksUp(Removed(bucket, key), key, value, key);
  }

  datatype Op = Assign(key: Key, value: Value) | Erase(key: Key)

  function RunTable(hash: Key -> nat, table: Table, ops: seq<Op>, nodes: nat): (after: Table)
    requires PowerOfTwo(|table|)
    ensures |after| == |table|
  {
    if ops == [] then table
    else
      var last := ops[|ops| - 1];
      var t := RunTable(hash, table, ops[..|ops| - 1], nodes);
      match last
      case Assign(key, value) => Assigned(hash, t, key, value, Size(t) == nodes)
      case Erase(key) => Erased(hash, t, key)
  }

  /** A finite map with room for `nodes` keys. */
  function RunMap(m: map<Key, Value>, ops: seq<Op>, nodes: nat): map<Key, Value> {
    if ops == [] then m
    else
      var last := ops[|ops| - 1];
      var m' := RunMap(m, ops[..|ops| - 1], nodes);
      match last
      case Assign(key, value) => if key in m' || |m'| != nodes then m'[key := value] else m'
      case Erase(key) => m' - {key}
  }

  /** States built with operator[] and erase alone are exactly a finite map. */
  lemma {:induction false} RunRefinesMap(hash: Key -> nat, table: Table, m: map<Key, Value>, ops: seq<Op>, nodes: nat)
    requires Represents(hash, table, m)
    ensures Represents(hash, RunTable(hash, table, ops, nodes), RunMap(m, ops, nodes))
  {
    if ops != [] {
      var last, before := ops[|ops| - 1], ops[..|ops| - 1];
      RunRefinesMap(hash, table, m, before, nodes);
      var t, m' := RunTable(hash, table, before, nodes), RunMap(m, before, nodes);
      match last {
        case Assign(key, value) => AssignRefines(hash, t, m', key, value, Size(t) == nodes);
        case Erase(key) => EraseRefines(hash, t, m', key);
      }
    }
  }

  lemma {:induction false} EmptyTable(table: Table)
    requires forall b :: 0 <= b < |table| ==> table[b] == []
    ensures Size(table) == 0
  {
    if table != [] {
      EmptyTable(table[..|table| - 1]);
    }
  }

  lemma EmptyRepresents(hash: Key -> nat, table: Table)
    requires PowerOfTwo(|table|) && forall b :: 0 <= b < |table| ==> table[b] == []
    ensures Represents(hash, table, map[])
  {
    EmptyTable(table);
  }

  lemma FreshWired(hash: Key -> nat, heads: seq<int>, pool: seq<Node>, free: seq<int>, chains: seq<seq<int>>)
    requires PowerOfTwo(|heads|) && |chains| == |heads| && free == seq(|pool|, j => j)
    requires forall b :: 0 <= b < |heads| ==> heads[b] == -1 && chains[b] == []
    ensures Consistent(hash, heads, pool, free, chains)
    ensures Represents(hash, Stored(hash, heads, pool, free, chains), map[])
  {
    hide Slot, PowerOfTwo;
    forall n | 0 <= n < |pool| ensures n in free && n !in chains[Slot(hash, pool[n].key, |chains|)] {
      assert free[n] == n;
    }
    EmptyRepresents(hash, Contents(pool, chains));
  }

  /** The whole representation: wired, with every node counted. */
  ghost predicate Consistent(hash: Key -> nat, heads: seq<int>, pool: seq<Node>, free: seq<int>,
                             chains: seq<seq<int>>): (c: bool)
    ensures c ==> PowerOfTwo(|heads|) && |heads| == |chains|
  {
    Wired(hash, heads, pool, free, chains) && Size(Contents(pool, chains)) + |free| == |pool|
  }

  ghost function Stored(hash: Key -> nat, heads: seq<int>, pool: seq<Node>, free: seq<int>,
                        chains: seq<seq<int>>): (table: Table)
    requires Consistent(hash, heads, pool, free, chains)
    ensures |table| == |heads| == |chains| && PowerOfTwo(|table|)
  {
    Contents(pool, chains)
  }

  predicate Chained(chains: seq<seq<int>>, n: int) {
    exists b :: 0 <= b < |chains| && n in chains[b]
  }

  /** Every node is on exactly one chain, once, or on the free stack, once. */
  lemma ChainsPartitionThePool(hash: Key -> nat, heads: seq<int>, pool: seq<Node>, free: seq<int>,
                               chains: seq<seq<int>>, n: nat)
    requires Consistent(hash, heads, pool, free, chains) && n < |pool|
    ensures n in free <==> !Chained(chains, n)
    ensures forall b, c :: 0 <= b < |chains| && 0 <= c < |chains| && n in chains[b] && n in chains[c] ==> b == c
    ensures Distinct(free) && forall b :: 0 <= b < |chains| ==> Distinct(chains[b])
  {
    hide Slot, PowerOfTwo;
    forall b | 0 <= b < |chains| && n in chains[b] ensures b == Slot(hash, pool[n].key, |chains|) && n !in free {
      Disjoint(hash, pool, free, chains, n, b);
    }
  }

  /** Exhaustion means every node is chained; for a state that is a map, that it has as many keys as nodes. */
  lemma ExhaustedIffEveryNodeChained(hash: Key -> nat, heads: seq<int>, pool: seq<Node>, free: seq<int>,
                                     chains: seq<seq<int>>, m: map<Key, Value>)
    requires Consistent(hash, heads, pool, free, chains)
    ensures free == [] <==> forall n :: 0 <= n < |pool| ==> Chained(chains, n)
    ensures free == [] <==> Size(Stored(hash, heads, pool, free, chains)) == |pool|
    ensures Represents(hash, Stored(hash, heads, pool, free, chains), m) ==> |free| == |pool| - |m|
  {
    forall n | 0 <= n < |pool| ensures n in free <==> !Chained(chains, n) {
      ChainsPartitionThePool(hash, heads, pool, free, chains, n);
    }
    hide Chained, Hashed, Linked;
    assert free != [] ==> 0 <= free[0] < |pool| && free[0] in free;
  }

  lemma BucketFacts(hash: Key -> nat, heads: seq<int>, pool: seq<Node>, free: seq<int>, chains: seq<seq<int>>, b: nat)
    requires Consistent(hash, heads, pool, free, chains) && b < |heads|
    ensures |chains| == |heads| && heads[b] == At(chains[b], 0) && Within(free, |pool|)
    ensures |Stored(hash, heads, pool, free, chains)[b]| == |chains[b]|
    ensures var chain, bucket := chains[b], Stored(hash, heads, pool, free, chains)[b];
      forall i :: 0 <= i < |chain| ==>
        && 0 <= chain[i] < |pool| && pool[chain[i]].next == At(chain, i + 1)
        && bucket[i] == Entry(pool[chain[i]].key, pool[chain[i]].value)
  {
    hide Slot, PowerOfTwo, Hashed, Distinct, Size, At;
    assert Links(heads[b], pool, chains[b]);
    assert Stored(hash, heads, pool, free, chains)[b] == Entries(pool, chains[b]);
  }

  /** Appending to bucket b, with the resulting heads and nodes as the code leaves them. */
  lemma AppendKeeps(hash: Key -> nat, heads: seq<int>, pool: seq<Node>, free: seq<int>, chains: seq<seq<int>>,
                    b: nat, key: Key, value: Value, heads': seq<int>, pool': seq<Node>)
    requires Consistent(hash, heads, pool, free, chains) && free != [] && b == Slot(hash, key, |heads|)
    requires var n, chain := free[|free| - 1], chains[b];
      && 0 <= n < |pool| && Within(chain, |pool|)
      && heads' == (if chain == [] then heads[b := n] else heads) && pool' == AppendPool(pool, chain, n, key, value)
    ensures var k := |free| - 1;
      && Consistent(hash, heads', pool', free[..k], chains[b := chains[b] + [free[k]]])
      && Stored(hash, heads', pool', free[..k], chains[b := chains[b] + [free[k]]])
         == Inserted(hash, Stored(hash, heads, pool, free, chains), key, value)
  {
    AppendKeepsWired(hash, heads, pool, free, chains, b, key, value);
    SizeUpdate(Contents(pool, chains), b, Entries(pool, chains[b]) + [Entry(key, value)]);
    hide Wired, Size, PowerOfTwo, Slot, AppendPool, Entries;
  }

  /** Taking the i-th node out of bucket b, with the resulting heads and nodes as the code leaves them. */
  lemma UnlinkKeeps(hash: Key -> nat, heads: seq<int>, pool: seq<Node>, free: seq<int>, chains: seq<seq<int>>, b: nat,
                    i: nat, rest: seq<int>, heads': seq<int>, pool': seq<Node>)
    requires Consistent(hash, heads, pool, free, chains) && b < |heads| && Skips(chains[b], i, rest)
    requires Within(chains[b], |pool|) && heads' == if i == 0 then heads[b := pool[chains[b][i]].next] else heads
    requires pool' == UnlinkPool(pool, chains[b], i)
    ensures var chain, bucket := chains[b], Stored(hash, heads, pool, free, chains)[b];
      && |bucket| == |chain| && Consistent(hash, heads', pool', free + [chain[i]], chains[b := rest])
      && Stored(hash, heads', pool', free + [chain[i]], chains[b := rest])
         == Stored(hash, heads, pool, free, chains)[b := bucket[..i] + bucket[i + 1..]]
  {
    UnlinkKeepsWired(hash, heads, pool, free, chains, b, i, rest);
    var bucket := Entries(pool, chains[b]);
    SizeUpdate(Contents(pool, chains), b, bucket[..i] + bucket[i + 1..]);
    assert |bucket[..i] + bucket[i + 1..]| == |bucket| - 1;
    hide Wired, Size, PowerOfTwo, Slot, UnlinkPool, Entries, Skips;
  }

  lemma WriteKeeps(hash: Key -> nat, heads: seq<int>, pool: seq<Node>, free: seq<int>, chains: seq<seq<int>>,
                   b: nat, i: nat, value: Value)
    requires Consistent(hash, heads, pool, free, chains) && b < |heads| && i < |chains[b]| && 0 <= chains[b][i] < |pool|
    ensures var n, bucket := chains[b][i], Stored(hash, heads, pool, free, chains)[b];
      var pool' := pool[n := pool[n].(value := value)];
      && |bucket| == |chains[b]| && Consistent(hash, heads, pool', free, chains)
      && Stored(hash, heads, pool', free, chains)
         == Stored(hash, heads, pool, free, chains)[b := bucket[i := Entry(bucket[i].key, value)]]
  {
    WriteKeepsWired(hash, heads, pool, free, chains, b, i, value);
    var bucket := Entries(pool, chains[b]);
    SizeUpdate(Contents(pool, chains), b, bucket[i := Entry(bucket[i].key, value)]);
    hide Wired, Size, PowerOfTwo, Slot, Entries;
  }

  // ----- The map itself -------------------------------------------------------------------------

  const NO_NODE := -1
  const DEFAULT: Value := 0

  class FixedSizedChainingHashMap {
    const hash: Key -> nat
    var buckets: seq<int>
    var nodesPool: seq<Node>
    /** A stack, its top at the end. */
    var freeNodes: seq<int>
    ghost var chains: seq<seq<int>>

    ghost predicate Valid()
      reads this
    {
      Consistent(hash, buckets, nodesPool, freeNodes, chains)
    }

    ghost function View(): (table: Table)
      reads this
      requires Valid()
      ensures |table| == |buckets| && PowerOfTwo(|table|)
    {
      Stored(hash, buckets, nodesPool, freeNodes, chains)
    }

    /** `n` is the node of the key's first match. */
    ghost predicate Refers(n: int, key: Key)
      reads this
      requires Valid()
    {
      var b := Slot(hash, key, |buckets|);
      var i := First(View()[b], key);
      0 <= n < |nodesPool| && i < |chains[b]| && chains[b][i] == n
    }

    constructor (hash: Key -> nat, initBuckets: nat)
      requires PowerOfTwo(initBuckets)
      ensures Valid()
      ensures this.hash == hash && |buckets| == initBuckets && |nodesPool| == 16 * initBuckets
      ensures Represents(hash, View(), map[])
    {
      this.hash := hash;
      buckets := seq(initBuckets, _ => NO_NODE);
      nodesPool := seq(initBuckets * 16, _ => Node(0, 0, NO_NODE));
      freeNodes := [];
      chains := seq(initBuckets, _ => []);
      new;
      for i := 0 to |nodesPool|
        invariant freeNodes == seq(i, j => j)
        invariant buckets == seq(initBuckets, _ => NO_NODE) && chains == seq(initBuckets, _ => [])
        invariant |nodesPool| == 16 * initBuckets
      {
        freeNodes := freeNodes + [i];
      }
      FreshWired(hash, buckets, nodesPool, freeNodes, chains);
      hide Consistent, Represents;
    }

    /** Takes a node from the pool, fills it, and links it behind the bucket's last node. */
    method AppendNode(index: nat, last: int, key: Key, value: Value) returns (n: int)
      requires Valid() && freeNodes != [] && index < |buckets| && index == Slot(hash, key, |buckets|)
      requires last == if chains[index] == [] then NO_NODE else chains[index][|chains[index]| - 1]
      modifies this
      ensures Valid() && View() == Inserted(hash, old(View()), key, value)
      ensures chains == old(chains)[index := old(chains)[index] + [n]] && 0 <= n < |nodesPool|
      ensures freeNodes == old(freeNodes)[..|old(freeNodes)| - 1]
    {
      hide Consistent, Stored, Slot, PowerOfTwo, Inserted;
      ghost var heads0, pool0, free0, chains0 := buckets, nodesPool, freeNodes, chains;
      ghost var chain := chains[index];
      BucketFacts(hash, heads0, pool0, free0, chains0, index);
      n := freeNodes[|freeNodes| - 1];
      freeNodes := freeNodes[..|freeNodes| - 1];
      nodesPool := nodesPool[n := Node(key, value, NO_NODE)];
      if buckets[index] == NO_NODE {
        buckets := buckets[index := n];
      } else {
        nodesPool := nodesPool[last := nodesPool[last].(next := n)];
      }
      chains := chains[index := chain + [n]];
      AppendKeeps(hash, heads0, pool0, free0, chains0, index, key, value, buckets, nodesPool);
    }

    /** operator[]: the node whose value is referred to, or NO_NODE for the exception. */
    method Index(key: Key) returns (n: int)
      requires Valid()
      modifies this
      ensures Valid()
      ensures n == NO_NODE <==> LookupIn(hash, old(View()), key) == None && old(freeNodes) == []
      ensures View() ==
        if n != NO_NODE && LookupIn(hash, old(View()), key) == None then Inserted(hash, old(View()), key, 0)
        else old(View())
      ensures n != NO_NODE ==> Refers(n, key)
    {
      hide Consistent, Stored, PowerOfTwo, First, At;
      var index := Masked(hash(key), |buckets|);
      ghost var i, chain, bucket := 0, chains[index], View()[index];
      BucketFacts(hash, buckets, nodesPool, freeNodes, chains, index);
      var node, previous := buckets[index], NO_NODE;
      AtIs(chain, 0);
      while node != NO_NODE
        invariant 0 <= i <= |chain| && node == if i < |chain| then chain[i] else NO_NODE
        invariant previous == if i == 0 then NO_NODE else chain[i - 1]
        invariant forall j :: 0 <= j < i ==> bucket[j].key != key
        decreases |chain| - i
        modifies {}
      {
        if nodesPool[node].key == key {
          assert First(bucket, key) == i;
          return node;
        }
        previous := node;
        node := nodesPool[node].next;
        i := i + 1;
        AtIs(chain, i);
      }
      assert First(bucket, key) == |bucket|;
      if |freeNodes| == 0 {
        return NO_NODE;
      }
      n := AppendNode(index, previous, key, DEFAULT);
      FirstAppended(bucket, key, DEFAULT);
    }

    /** The write through the reference that operator[] or find returned. */
    method Write(n: int, value: Value, ghost key: Key)
      requires Valid() && Refers(n, key)
      modifies this
      ensures Valid() && View() == Assigned(hash, old(View()), key, value, true)
    {
      hide Consistent, Stored, PowerOfTwo, First, At, Slot;
      ghost var b := Slot(hash, key, |buckets|);
      BucketFacts(hash, buckets, nodesPool, freeNodes, chains, b);
      WriteKeeps(hash, buckets, nodesPool, freeNodes, chains, b, First(View()[b], key), value);
      nodesPool := nodesPool[n := nodesPool[n].(value := value)];
    }

    /** `map[key] = value`: operator[], then the write; false stands for the exception. */
    method Put(key: Key, value: Value) returns (ok: bool)
      requires Valid()
      modifies this
      ensures Valid() && View() == Assigned(hash, old(View()), key, value, old(freeNodes) == [])
      ensures ok <==> LookupIn(hash, old(View()), key) != None || old(freeNodes) != []
    {
      AssignAfterIndex(hash, View(), key, value);
      hide *;
      var n := Index(key);
      if n == NO_NODE {
        return false;
      }
      Write(n, value, key);
      return true;
    }

    method Insert(key: Key, value: Value) returns (ok: bool)
      requires Valid()
      modifies this
      ensures Valid()
      ensures ok <==> old(freeNodes) != []
      ensures View() == if ok then Inserted(hash, old(View()), key, value) else old(View())
    {
      hide Consistent, Stored, PowerOfTwo, At, Inserted;
      var index := Masked(hash(key), |buckets|);
      if |freeNodes| == 0 {
        return false;
      }
      ghost var i, chain := 0, chains[index];
      BucketFacts(hash, buckets, nodesPool, freeNodes, chains, index);
      var node := buckets[index];
      AtIs(chain, 0);
      if node != NO_NODE {
        AtIs(chain, 1);
        while nodesPool[node].next != NO_NODE
          invariant 0 <= i < |chain| && node == chain[i]
          invariant At(chain, i + 1) == if i + 1 < |chain| then chain[i + 1] else NO_NODE
          decreases |chain| - i
          modifies {}
        {
          node := nodesPool[node].next;
          i := i + 1;
          AtIs(chain, i + 1);
        }
      }
      var n := AppendNode(index, node, key, value);
      return true;
    }

    method Contains(key: Key) returns (found: bool)
      requires Valid()
      ensures found <==> LookupIn(hash, View(), key) != None
    {
      hide Consistent, Stored, PowerOfTwo, First, At;
      var index := Masked(hash(key), |buckets|);
      ghost var i, chain, bucket := 0, chains[index], View()[index];
      BucketFacts(hash, buckets, nodesPool, freeNodes, chains, index);
      var node := buckets[index];
      AtIs(chain, 0);
      while node != NO_NODE
        invariant 0 <= i <= |chain| && node == if i < |chain| then chain[i] else NO_NODE
        invariant forall j :: 0 <= j < i ==> bucket[j].key != key
        decreases |chain| - i
      {
        if nodesPool[node].key == key {
          assert First(bucket, key) == i;
          return true;
        }
        node := nodesPool[node].next;
        i := i + 1;
        AtIs(chain, i);
      }
      assert First(bucket, key) == |bucket|;
      return false;
    }

    /** The first match, or NO_NODE. */
    method Find(key: Key) returns (n: int)
      requires Valid()
      ensures n == NO_NODE <==> LookupIn(hash, View(), key) == None
      ensures n != NO_NODE ==> Refers(n, key) && LookupIn(hash, View(), key) == Some(nodesPool[n].value)
    {
      hide Consistent, Stored, PowerOfTwo, First, At;
      var index := Masked(hash(key), |buckets|);
      ghost var i, chain, bucket := 0, chains[index], View()[index];
      BucketFacts(hash, buckets, nodesPool, freeNodes, chains, index);
      var node := buckets[index];
      AtIs(chain, 0);
      while node != NO_NODE
        invariant 0 <= i <= |chain| && node == if i < |chain| then chain[i] else NO_NODE
        invariant forall j :: 0 <= j < i ==> bucket[j].key != key
        decreases |chain| - i
      {
        if nodesPool[node].key == key {
          assert First(bucket, key) == i;
          return node;
        }
        node := nodesPool[node].next;
        i := i + 1;
        AtIs(chain, i);
      }
      assert First(bucket, key) == |bucket|;
      return NO_NODE;
    }

    method Erase(key: Key) returns (erased: bool)
      requires Valid()
      modifies this
      ensures Valid() && View() == Erased(hash, old(View()), key)
      ensures erased <==> LookupIn(hash, old(View()), key) != None
      ensures |freeNodes| == |old(freeNodes)| + if erased then 1 else 0
    {
      hide Consistent, Stored, PowerOfTwo, First, At;
      var index := Masked(hash(key), |buckets|);
      ghost var i, chain, bucket := 0, chains[index], View()[index];
      BucketFacts(hash, buckets, nodesPool, freeNodes, chains, index);
      var node, prev := buckets[index], NO_NODE;
      AtIs(chain, 0);
      while node != NO_NODE && nodesPool[node].key != key
        invariant 0 <= i <= |chain| && node == if i < |chain| then chain[i] else NO_NODE
        invariant prev == if i == 0 then NO_NODE else chain[i - 1]
        invariant forall j :: 0 <= j < i ==> bucket[j].key != key
        decreases |chain| - i
        modifies {}
      {
        prev := node;
        node := nodesPool[node].next;
        i := i + 1;
        AtIs(chain, i);
      }
      assert First(bucket, key) == i;
      if node == NO_NODE {
        return false;
      }
      ghost var heads0, pool0, free0, chains0 := buckets, nodesPool, freeNodes, chains;
      if prev == NO_NODE {
        buckets := buckets[index := nodesPool[node].next];
      } else {
        nodesPool := nodesPool[prev := nodesPool[prev].(next := nodesPool[node].next)];
      }
      freeNodes := freeNodes + [node];
      ghost var rest := chain[..i] + chain[i + 1..];
      chains := chains[index := rest];
      UnlinkKeeps(hash, heads0, pool0, free0, chains0, index, i, rest, buckets, nodesPool);
      return true;
    }
  }
}
