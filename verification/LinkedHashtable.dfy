/** The linked hash table: bucket chains and a circular insertion-order list through the
    same nodes, and fail-fast iterators over the list. */
module LinkedHashtable {
  import opened Options
  import opened Sealing

  /** Key bytes; entries carry a pointer-sized datum. */
  type Key = seq<int>
  type Data = int

  const NULL: Data := 0

  /** What hashtable_put does not refuse. */
  predicate Storable(key: Key, data: Data) { key != [] && data != NULL }

  class Node {
    var key: Key
    var data: Data
    var hash: nat
    var next: Node?     // in the bucket chain
    var lprev: Node?    // in the circular list
    var lnext: Node?

    constructor (key: Key, data: Data)
      ensures this.key == key && this.data == data
    {
      this.key := key;
      this.data := data;
      hash := 0;
      next, lprev, lnext := null, null, null;
    }

    /** The list head: a circle of one. */
    constructor Head()
      ensures lprev == this && lnext == this
    {
      lprev := this;
      lnext := this;
    }
  }

  // ----- the circular list -----

  function After(i: int, n: int): int { if i + 1 == n then 0 else i + 1 }
  function Before(i: int, n: int): int { if i == 0 then n - 1 else i - 1 }

  ghost predicate Distinct<T>(s: seq<T>) {
    forall i, j :: 0 <= i < j < |s| ==> s[i] != s[j]
  }

  /** r is the whole circle, linked both ways. */
  ghost predicate Ring(r: seq<Node>)
    reads r`lnext, r`lprev
  {
    && |r| > 0 && Distinct(r)
    && (forall i {:trigger r[i].lnext} :: 0 <= i < |r| ==> r[i].lnext == r[After(i, |r|)])
    && (forall i {:trigger r[i].lprev} :: 0 <= i < |r| ==> r[i].lprev == r[Before(i, |r|)])
  }

  /** Linking n in before the head, as the last of the circle. */
  method LinkLast(head: Node, n: Node, ghost r: seq<Node>)
    requires Ring(r) && r[0] == head && n !in r
    modifies r`lnext, r`lprev, n`lnext, n`lprev
    ensures Ring(r + [n])
  {
    ghost var last := |r| - 1;
    assert After(last, |r|) == 0;
    n.lprev := head.lprev;
    n.lnext := head;
    head.lprev.lnext := n;
    head.lprev := n;
    ghost var w := r + [n];
    assert forall i :: 0 <= i < |r| ==> w[i] == r[i];
    DistinctAppended(r, n);
  }

  lemma DistinctAppended(r: seq<Node>, n: Node)
    requires Distinct(r) && n !in r
    ensures Distinct(r + [n])
  {
  }

  lemma DistinctReplaced(r: seq<Node>, k: nat, n: Node)
    requires Distinct(r) && k < |r| && n !in r
    ensures Distinct(r[k := n])
  {
  }

  /** Putting n in the place of the node at k. */
  method SpliceOver(was: Node, n: Node, ghost r: seq<Node>, ghost k: nat)
    requires Ring(r) && 0 < k < |r| && r[k] == was && n !in r
    modifies r`lnext, r`lprev, n`lnext, n`lprev
    ensures Ring(r[k := n])
  {
    DistinctReplaced(r, k, n);
    assert was.lprev == r[k - 1] && was.lnext == r[After(k, |r|)];
    n.lprev := was.lprev;
    n.lnext := was.lnext;
    n.lprev.lnext := n;
    n.lnext.lprev := n;
    ghost var w := r[k := n];
    forall i | 0 <= i < |w|
      ensures w[i].lnext == w[After(i, |w|)] && w[i].lprev == w[Before(i, |w|)]
    {
      assert i != k ==> w[i] == r[i];
      assert i != k && i + 1 != k ==> w[i].lnext == old(r[i].lnext);
      assert i != k && i != After(k, |r|) ==> w[i].lprev == old(r[i].lprev);
    }
  }

  ghost function Without<T>(s: seq<T>, k: nat): seq<T>
    requires k < |s|
  {
    s[..k] + s[k + 1..]
  }

  /** Taking the node at k out of the circle; its own links stay as they were. */
  method Unlink(n: Node, ghost r: seq<Node>, ghost k: nat)
    requires Ring(r) && 0 < k < |r| && r[k] == n
    modifies r`lnext, r`lprev
    ensures Ring(Without(r, k)) && n.lnext == old(n.lnext)
  {
    assert After(k - 1, |r|) == k;
    n.lprev.lnext := n.lnext;
    n.lnext.lprev := n.lprev;
    ghost var w := Without(r, k);
    DistinctWithout(r, k);
    forall i | 0 <= i < |w|
      ensures w[i].lnext == w[After(i, |w|)] && w[i].lprev == w[Before(i, |w|)]
    {
      ghost var j := if i < k then i else i + 1;
      assert w[i] == r[j];
      assert j + 1 == k ==> r[j].lnext == old(r[k].lnext);
      assert j == After(k, |r|) ==> r[j].lprev == old(r[k].lprev);
      assert j + 1 != k ==> r[j].lnext == old(r[j].lnext);
      assert j != After(k, |r|) ==> r[j].lprev == old(r[j].lprev);
    }
  }

  lemma DistinctWithout(r: seq<Node>, k: nat)
    requires Distinct(r) && k < |r|
    ensures Distinct(Without(r, k))
  {
    var w := Without(r, k);
    assert forall i :: 0 <= i < |w| ==> w[i] == r[if i < k then i else i + 1];
  }

  // ----- the bucket chains -----

  /** c is the chain that starts at `first` and ends in null. */
  ghost predicate Chain(c: seq<Node>, first: Node?)
    reads c`next
  {
    && Distinct(c)
    && first == Link(c, 0)
    && (forall i {:trigger c[i].next} :: 0 <= i < |c| ==> c[i].next == Link(c, i + 1))
  }

  ghost function Link(c: seq<Node>, i: nat): Node? { if i < |c| then c[i] else null }

  /** All buckets at once. */
  ghost predicate Chains(chains: seq<seq<Node>>, buckets: array<Node?>)
    reads buckets, set b, i | 0 <= b < |chains| && 0 <= i < |chains[b]| :: chains[b][i]`next
  {
    |chains| == buckets.Length && forall b :: 0 <= b < |chains| ==> Chain(chains[b], buckets[b])
  }

  lemma ChainNext(c: seq<Node>, first: Node?, i: nat)
    requires Chain(c, first) && i < |c|
    ensures c[i].next == Link(c, i + 1)
  {
  }

  /** No other bucket than b has a node of chain b. */
  ghost predicate Apart(chains: seq<seq<Node>>, b: nat)
    requires b < |chains|
  {
    forall b', i' :: 0 <= b' < |chains| && b' != b && 0 <= i' < |chains[b']| ==> chains[b'][i'] !in chains[b]
  }

  ghost predicate Unchained(chains: seq<seq<Node>>, n: Node) {
    forall b :: 0 <= b < |chains| ==> n !in chains[b]
  }

  /** Storing through the pointer to the link: the bucket itself or the predecessor's next. */
  method StoreLink(buckets: array<Node?>, b: nat, prev: Node?, target: Node?)
    requires b < buckets.Length
    modifies buckets, (if prev == null then {} else {prev})`next
    ensures buckets[..] == if prev == null then old(buckets[..])[b := target] else old(buckets[..])
    ensures prev != null ==> prev.next == target
  {
    if prev == null {
      buckets[b] := target;
    } else {
      prev.next := target;
    }
  }

  method PushChain(buckets: array<Node?>, b: nat, n: Node, ghost chains: seq<seq<Node>>)
    requires Chains(chains, buckets) && b < buckets.Length && Unchained(chains, n)
    modifies buckets, n`next
    ensures Chains(chains[b := [n] + chains[b]], buckets)
  {
    ghost var c := chains[b];
    assert buckets[b] == Link(c, 0);
    forall j | 0 <= j < |c| ensures c[j].next == Link(c, j + 1) {
      ChainNext(c, buckets[b], j);
    }
    n.next := buckets[b];
    buckets[b] := n;
    ghost var w := [n] + c;
    forall j | 0 <= j < |w| ensures w[j].next == Link(w, j + 1) {
      if j > 0 { assert w[j] == c[j - 1] && c[j - 1].next == old(c[j - 1].next); }
    }
    assert Chain(w, n);
    forall b' | 0 <= b' < |chains| && b' != b ensures Chain(chains[b'], buckets[b']) {
      assert old(Chain(chains[b'], buckets[b']));
      assert forall j :: 0 <= j < |chains[b']| ==> chains[b'][j].next == old(chains[b'][j].next);
    }
  }

  method ReplaceInChain(buckets: array<Node?>, b: nat, prev: Node?, was: Node, n: Node,
                              ghost chains: seq<seq<Node>>, ghost i: nat)
    requires Chains(chains, buckets) && b < buckets.Length && Apart(chains, b) && Unchained(chains, n)
    requires i < |chains[b]| && chains[b][i] == was && (prev == if i == 0 then null else chains[b][i - 1])
    modifies buckets, n`next, (if prev == null then {} else {prev})`next
    ensures Chains(chains[b := chains[b][i := n]], buckets)
  {
    ghost var c := chains[b];
    assert buckets[b] == Link(c, 0);
    forall j | 0 <= j < |c| ensures c[j].next == Link(c, j + 1) {
      ChainNext(c, buckets[b], j);
    }
    n.next := was.next;
    StoreLink(buckets, b, prev, n);
    ghost var w := c[i := n];
    forall j | 0 <= j < |w| ensures w[j].next == Link(w, j + 1) {
      assert j != i && j + 1 != i ==> c[j].next == old(c[j].next);
      assert j == i ==> n.next == old(c[i].next);
    }
    assert Chain(w, buckets[b]);
    forall b' | 0 <= b' < |chains| && b' != b ensures Chain(chains[b'], buckets[b']) {
      assert old(Chain(chains[b'], buckets[b']));
      assert forall j :: 0 <= j < |chains[b']| ==> chains[b'][j].next == old(chains[b'][j].next);
    }
  }

  lemma CutLinks(c: seq<Node>, i: nat, first: Node?)
    requires Distinct(c) && i < |c| && first == Link(c, if i == 0 then 1 else 0)
    requires forall k :: 0 <= k < |c| && k + 1 != i ==> c[k].next == Link(c, k + 1)
    requires i > 0 ==> c[i - 1].next == Link(c, i + 1)
    ensures Chain(Without(c, i), first)
  {
    var w := Without(c, i);
    forall j | 0 <= j < |w| ensures w[j].next == Link(w, j + 1) {
      assert w[j] == c[if j < i then j else j + 1];
    }
  }

  method CutFromChain(buckets: array<Node?>, b: nat, prev: Node?, was: Node,
                            ghost chains: seq<seq<Node>>, ghost i: nat)
    requires Chains(chains, buckets) && b < buckets.Length && Apart(chains, b)
    requires i < |chains[b]| && chains[b][i] == was && (prev == if i == 0 then null else chains[b][i - 1])
    modifies buckets, (if prev == null then {} else {prev})`next
    ensures Chains(chains[b := Without(chains[b], i)], buckets)
  {
    ghost var c := chains[b];
    assert buckets[b] == Link(c, 0);
    forall j | 0 <= j < |c| ensures c[j].next == Link(c, j + 1) {
      ChainNext(c, buckets[b], j);
    }
    StoreLink(buckets, b, prev, was.next);
    forall k | 0 <= k < |c| && k + 1 != i ensures c[k].next == Link(c, k + 1) {
      assert c[k].next == old(c[k].next);
    }
    CutLinks(c, i, buckets[b]);
    forall b' | 0 <= b' < |chains| && b' != b ensures Chain(chains[b'], buckets[b']) {
      assert old(Chain(chains[b'], buckets[b']));
      assert forall j :: 0 <= j < |chains[b']| ==> chains[b'][j].next == old(chains[b'][j].next);
    }
  }

  /** The chains hold exactly the nodes of the list, each in its home bucket. */
  ghost predicate Shared(order: seq<Node>, chains: seq<seq<Node>>, home: map<Node, nat>) {
    && (forall n :: n in order ==> n in home && home[n] < |chains| && n in chains[home[n]])
    && (forall b, i :: 0 <= b < |chains| && 0 <= i < |chains[b]| ==>
          chains[b][i] in order && chains[b][i] in home && home[chains[b][i]] == b)
  }

  lemma SharedApart(order: seq<Node>, chains: seq<seq<Node>>, home: map<Node, nat>, b: nat)
    requires Shared(order, chains, home) && b < |chains|
    ensures Apart(chains, b)
  {
  }

  lemma SharedFresh(order: seq<Node>, chains: seq<seq<Node>>, home: map<Node, nat>, n: Node)
    requires Shared(order, chains, home) && n !in order
    ensures Unchained(chains, n)
  {
  }

  lemma SharedAdd(order: seq<Node>, chains: seq<seq<Node>>, home: map<Node, nat>, n: Node, b: nat)
    requires Shared(order, chains, home) && n !in order && b < |chains|
    ensures Shared(order + [n], chains[b := [n] + chains[b]], home[n := b])
  {
    var chains' := chains[b := [n] + chains[b]];
    assert chains'[b][0] == n;
    forall m | m in order ensures m in chains'[home[m]] {
      assert m in chains[home[m]];
    }
  }

  lemma SharedReplace(order: seq<Node>, k: nat, chains: seq<seq<Node>>, b: nat, i: nat, home: map<Node, nat>, n: Node)
    requires Shared(order, chains, home) && n !in order && k < |order| && b < |chains| && i < |chains[b]|
    requires chains[b][i] == order[k] && Distinct(order) && Distinct(chains[b])
    ensures Shared(order[k := n], chains[b := chains[b][i := n]], home[n := b])
  {
    var order', chains', home' := order[k := n], chains[b := chains[b][i := n]], home[n := b];
    assert chains'[b][i] == n && order'[k] == n;
    forall m | m in order' && m != n ensures m in home' && m in chains'[home'[m]] {
      var j :| 0 <= j < |order| && j != k && order[j] == m;
      var t :| 0 <= t < |chains[home[m]]| && chains[home[m]][t] == m;
      assert chains'[home[m]][t] == m;
    }
    forall c, t | 0 <= c < |chains'| && 0 <= t < |chains'[c]|
      ensures chains'[c][t] in order' && chains'[c][t] in home' && home'[chains'[c][t]] == c
    {
      var m := chains'[c][t];
      if m != n {
        assert m == chains[c][t] && m in order;
        var j :| 0 <= j < |order| && order[j] == m;
        assert order'[j] == m;
      }
    }
  }

  lemma SharedRemove(order: seq<Node>, k: nat, chains: seq<seq<Node>>, b: nat, i: nat, home: map<Node, nat>)
    requires Shared(order, chains, home) && k < |order| && b < |chains| && i < |chains[b]|
    requires chains[b][i] == order[k] && Distinct(order) && Distinct(chains[b])
    ensures Shared(Without(order, k), chains[b := Without(chains[b], i)], home)
  {
    var order', c' := Without(order, k), Without(chains[b], i);
    var chains' := chains[b := c'];
    assert forall j :: 0 <= j < |order'| ==> order'[j] == order[if j < k then j else j + 1];
    assert forall t :: 0 <= t < |c'| ==> c'[t] == chains[b][if t < i then t else t + 1];
    forall m | m in order' ensures m in home && home[m] < |chains'| && m in chains'[home[m]] {
      var j :| 0 <= j < |order'| && order'[j] == m;
      var t :| 0 <= t < |chains[home[m]]| && chains[home[m]][t] == m;
      if home[m] == b { assert c'[if t < i then t else t - 1] == m; }
    }
    forall c, t | 0 <= c < |chains'| && 0 <= t < |chains'[c]|
      ensures chains'[c][t] in order' && chains'[c][t] in home && home[chains'[c][t]] == c
    {
      var m := chains'[c][t];
      var u := if c == b && t >= i then t + 1 else t;
      assert m == chains[c][u] && m != order[k];
      var j :| 0 <= j < |order| && order[j] == m;
      assert order'[if j < k then j else j - 1] == m;
    }
  }

  // ----- chains and list together -----

  lemma HeadFirst(head: Node, order: seq<Node>, n: Node)
    ensures [head] + order + [n] == [head] + (order + [n])
  {
  }

  lemma HeadFirstReplaced(head: Node, order: seq<Node>, k: nat, n: Node)
    requires k < |order|
    ensures ([head] + order)[k + 1] == order[k] && ([head] + order)[k + 1 := n] == [head] + order[k := n]
  {
  }

  lemma HeadFirstWithout(head: Node, order: seq<Node>, k: nat)
    requires k < |order|
    ensures ([head] + order)[k + 1] == order[k] && Without([head] + order, k + 1) == [head] + Without(order, k)
  {
  }

  lemma LinkListed(c: seq<Node>, i: nat, was: Node, prev: Node?, order: seq<Node>)
    requires IsLink(c, i, was, prev) && forall m :: m in c ==> m in order
    ensures prev != null ==> prev in order
  {
    assert prev != null ==> c[i - 1] == prev;
  }

  method LinkIn(head: Node, buckets: array<Node?>, b: nat, n: Node, ghost order: seq<Node>,
                ghost chains: seq<seq<Node>>)
    requires Ring([head] + order) && Chains(chains, buckets) && b < buckets.Length
    requires n != head && n !in order && Unchained(chains, n)
    modifies buckets, n`next, n`lnext, n`lprev, head`lnext, head`lprev, order`lnext, order`lprev
    ensures Ring([head] + (order + [n])) && Chains(chains[b := [n] + chains[b]], buckets)
  {
    HeadFirst(head, order, n);
    PushChain(buckets, b, n, chains);
    LinkLast(head, n, [head] + order);
  }

  method SwapIn(head: Node, buckets: array<Node?>, b: nat, prev: Node?, was: Node, n: Node,
                ghost order: seq<Node>, ghost k: nat, ghost chains: seq<seq<Node>>, ghost i: nat)
    requires Ring([head] + order) && Chains(chains, buckets) && b < buckets.Length
    requires n != head && n !in order && Unchained(chains, n) && Apart(chains, b)
    requires k < |order| && order[k] == was && IsLink(chains[b], i, was, prev)
    requires forall m :: m in chains[b] ==> m in order
    modifies buckets, n`next, n`lnext, n`lprev, head`lnext, head`lprev, order`lnext, order`lprev, order`next
    ensures Ring([head] + order[k := n]) && Chains(chains[b := chains[b][i := n]], buckets)
  {
    HeadFirstReplaced(head, order, k, n);
    LinkListed(chains[b], i, was, prev, order);
    SpliceOver(was, n, [head] + order, k + 1);
    ReplaceInChain(buckets, b, prev, was, n, chains, i);
  }

  method CutOut(head: Node, buckets: array<Node?>, b: nat, prev: Node?, was: Node,
                ghost order: seq<Node>, ghost k: nat, ghost chains: seq<seq<Node>>, ghost i: nat)
    requires Ring([head] + order) && Chains(chains, buckets) && b < buckets.Length && Apart(chains, b)
    requires k < |order| && order[k] == was && IsLink(chains[b], i, was, prev)
    requires forall m :: m in chains[b] ==> m in order
    modifies buckets, head`lnext, head`lprev, order`lnext, order`lprev, order`next
    ensures Ring([head] + Without(order, k)) && Chains(chains[b := Without(chains[b], i)], buckets)
    ensures was.lnext == old(was.lnext)
  {
    HeadFirstWithout(head, order, k);
    LinkListed(chains[b], i, was, prev, order);
    CutFromChain(buckets, b, prev, was, chains, i);
    Unlink(was, [head] + order, k + 1);
  }

  /** What an entry says. */
  datatype Item = Item(key: Key, data: Data, hash: nat)

  ghost predicate Faithful(order: seq<Node>, items: map<Node, Item>)
    reads order`key, order`data, order`hash
  {
    forall n :: n in order ==> n in items && items[n] == Item(n.key, n.data, n.hash)
  }

  /** Distinct keys; every entry carries the hash of its key and lives in its bucket. */
  ghost predicate Keyed(order: seq<Node>, items: map<Node, Item>, home: map<Node, nat>, hashCode: Key -> nat,
                        capacity: nat) {
    && capacity > 0
    && (forall n :: n in order ==> n in items && items[n].hash == hashCode(items[n].key))
    && (forall n :: n in order ==> n in home && n in items && home[n] == items[n].hash % capacity)
    && (forall i, j :: 0 <= i < j < |order| ==>
        order[i] in items && order[j] in items && items[order[i]].key != items[order[j]].key)
  }

  lemma KeyedAdd(order: seq<Node>, items: map<Node, Item>, home: map<Node, nat>, hashCode: Key -> nat, capacity: nat,
                       n: Node, item: Item)
    requires Keyed(order, items, home, hashCode, capacity) && n !in order
    requires item.hash == hashCode(item.key) && forall m :: m in order ==> items[m].key != item.key
    ensures Keyed(order + [n], items[n := item], home[n := item.hash % capacity], hashCode, capacity)
  {
    var order' := order + [n];
    assert forall i :: 0 <= i < |order| ==> order'[i] == order[i] && order[i] in order;
  }

  lemma FaithfulAdd(order: seq<Node>, items: map<Node, Item>, n: Node)
    requires Faithful(order, items) && n !in order
    ensures Faithful(order + [n], items[n := Item(n.key, n.data, n.hash)])
  {
  }

  lemma KeyedReplace(order: seq<Node>, items: map<Node, Item>, home: map<Node, nat>, hashCode: Key -> nat,
                     capacity: nat,       k: nat, n: Node, item: Item)
    requires Keyed(order, items, home, hashCode, capacity) && n !in order && k < |order|
    requires item.key == items[order[k]].key && item.hash == items[order[k]].hash
    ensures Keyed(order[k := n], items[n := item], home[n := home[order[k]]], hashCode, capacity)
  {
    var order' := order[k := n];
    assert forall i :: 0 <= i < |order| && i != k ==> order'[i] == order[i] && order[i] in order;
    assert order[k] in order;
  }

  lemma FaithfulReplace(order: seq<Node>, items: map<Node, Item>, k: nat, n: Node)
    requires Faithful(order, items) && n !in order && k < |order|
    ensures Faithful(order[k := n], items[n := Item(n.key, n.data, n.hash)])
  {
    forall m | m in order[k := n] && m != n ensures m in order {
      var j :| 0 <= j < |order| && order[k := n][j] == m;
    }
  }

  /** The nodes of a table: in list order, by bucket, with home buckets and contents. */
  datatype View = View(order: seq<Node>, chains: seq<seq<Node>>, home: map<Node, nat>, items: map<Node, Item>)

  /** The chains and the list agree and the keys are in order. Sealed, so that
      proofs about links do not see it. */
  ghost predicate Coherent(v: View, hashCode: Key -> nat, capacity: nat) {
    forall i {:trigger Unsealed(Coherence, i)} :: Unsealed(Coherence, i) ==>
      |v.chains| == capacity && Shared(v.order, v.chains, v.home) && Keyed(v.order, v.items, v.home, hashCode, capacity)
  }

  lemma LookInside(v: View, hashCode: Key -> nat, capacity: nat)
    requires Coherent(v, hashCode, capacity)
    ensures |v.chains| == capacity && Shared(v.order, v.chains, v.home)
            && Keyed(v.order, v.items, v.home, hashCode, capacity)
  {
    assert Unsealed(Coherence, 0);
  }

  /** The nodes are linked, chained and filled as v says; sealed too. */
  ghost predicate Linked(v: View, head: Node, buckets: array<Node?>)
    reads buckets, head, v.order, set b, i | 0 <= b < |v.chains| && 0 <= i < |v.chains[b]| :: v.chains[b][i]
  {
    forall i {:trigger Unsealed(Linkage, i)} :: Unsealed(Linkage, i) ==>
      head !in v.order && Ring([head] + v.order) && Chains(v.chains, buckets) && Faithful(v.order, v.items)
  }

  lemma FollowLinks(v: View, head: Node, buckets: array<Node?>)
    requires Linked(v, head, buckets)
    ensures head !in v.order && Ring([head] + v.order) && Chains(v.chains, buckets) && Faithful(v.order, v.items)
  {
    assert Unsealed(Linkage, 0);
  }

  ghost function Association(items: map<Node, Item>, n: Node): (Key, Data) {
    if n in items then (items[n].key, items[n].data) else ([], 0)
  }

  /** The table as an insertion-ordered list of associations. */
  ghost function Listing(v: View): (s: seq<(Key, Data)>)
    ensures |s| == |v.order|
  {
    seq(|v.order|, i requires 0 <= i < |v.order| => Association(v.items, v.order[i]))
  }

  class Hashtable {
    const capacity: nat
    const hashCode: Key -> nat
    const head: Node
    const buckets: array<Node?>
    var count: nat
    var modCount: nat
    ghost var view: View

    function Bucket(hash: nat): (b: nat)
      requires capacity > 0
      ensures b < capacity
    {
      hash % capacity
    }

    ghost predicate Valid()
      reads this, buckets, head, view.order,
            set b, i | 0 <= b < |view.chains| && 0 <= i < |view.chains[b]| :: view.chains[b][i]
    {
      && buckets.Length == capacity > 0 && count == |view.order|
      && Linked(view, head, buckets) && Coherent(view, hashCode, capacity)
    }

    constructor (cap: nat, hash: Key -> nat)
      ensures Valid() && view.order == [] && hashCode == hash && capacity == (if cap == 0 then 128 else cap)
      ensures fresh(buckets) && fresh(head) && modCount == 0
    {
      capacity := if cap == 0 then 128 else cap;
      hashCode := hash;
      head := new Node.Head();
      buckets := new Node?[if cap == 0 then 128 else cap](_ => null);
      count := 0;
      modCount := 0;
      view := View([], seq(if cap == 0 then 128 else cap, _ => []), map[], map[]);
    }

    /** hashtable_get_entry. The pointer to the link that leads to the entry is given as the
        entry's predecessor in its chain, null for the bucket itself. */
    method GetEntry(key: Key) returns (node: Node?, prev: Node?, ghost i: nat)
      requires Valid()
      ensures node == null ==> forall n :: n in view.order ==> n in view.items && view.items[n].key != key
      ensures node != null ==> node in view.order && node in view.items && view.items[node].key == key
      ensures node != null ==> node.hash == view.items[node].hash == hashCode(key) && node.data == view.items[node].data
      ensures node != null ==> && Bucket(hashCode(key)) < |view.chains|
                               && IsLink(view.chains[Bucket(hashCode(key))], i, node, prev)
    {
      LookInside(view, hashCode, capacity);
      FollowLinks(view, head, buckets);
      var hash := hashCode(key);
      var idx := Bucket(hash);
      ghost var c := view.chains[idx];
      node, prev := buckets[idx], null;
      i := 0;
      while node != null
        invariant 0 <= i <= |c| && node == Link(c, i) && (prev == if i == 0 then null else c[i - 1])
        invariant forall j :: 0 <= j < i ==> c[j].key != key
        decreases |c| - i
      {
        assert node in view.order;
        if node.hash == hash && node.key == key {
          return;
        }
        ChainNext(c, buckets[idx], i);
        prev := node;
        node := node.next;
        i := i + 1;
      }
      forall n | n in view.order ensures view.items[n].key != key {
        assert n in view.chains[view.home[n]];
      }
    }

    /** hashtable_add: a new key goes to the front of its chain and the end of the list. */
    method Add(n: Node)
      requires Valid() && n !in view.order && n != head
      requires forall m :: m in view.order ==> m in view.items && view.items[m].key != n.key
      modifies this`view, this`count, buckets, head, view.order, n
      ensures Valid() && view.order == old(view.order) + [n]
      ensures view.items == old(view.items)[n := Item(n.key, n.data, n.hash)] && n.key == old(n.key)
              && n.data == old(n.data)
    {
      FollowLinks(view, head, buckets);
      var hash := hashCode(n.key);
      var idx := Bucket(hash);
      CoherentAdd(view, hashCode, capacity, n, Item(n.key, n.data, hash));
      n.hash := hash;
      LinkIn(head, buckets, idx, n, view.order, view.chains);
      FaithfulAdd(view.order, view.items, n);
      count := count + 1;
      view := Added(view, n, Item(n.key, n.data, hash), idx);
    }

    /** The replacing branch of hashtable_put: n takes the place of the entry of its key in
        the chain and in the list. */
    method Replace(was: Node, prev: Node?, n: Node, ghost i: nat, ghost k: nat)
      requires Valid() && n !in view.order && n != head
      requires k < |view.order| && view.order[k] == was && was in view.items && view.items[was].key == n.key
      requires var b := Bucket(hashCode(n.key)); b < |view.chains| && IsLink(view.chains[b], i, was, prev)
      modifies this`view, buckets, head, view.order, n
      ensures Valid() && view.order == old(view.order)[k := n]
      ensures view.items == old(view.items)[n := Item(n.key, n.data, n.hash)] && n.key == old(n.key)
              && n.data == old(n.data)
    {
      FollowLinks(view, head, buckets);
      var idx := Bucket(was.hash);
      RingDistinct(head, view.order);
      CoherentReplace(view, hashCode, capacity, k, i, n, Item(n.key, n.data, was.hash));
      n.hash := was.hash;
      SwapIn(head, buckets, idx, prev, was, n, view.order, k, view.chains, i);
      FaithfulReplace(view.order, view.items, k, n);
      view := Replaced(view, k, idx, i, n, Item(n.key, n.data, n.hash));
    }

    /** The unlinking in hashtable_remove. */
    method Cut(was: Node, prev: Node?, idx: nat, ghost i: nat, ghost k: nat)
      requires Valid() && k < |view.order| && view.order[k] == was && was in view.items
      requires idx == Bucket(hashCode(view.items[was].key)) < |view.chains| && idx < |view.chains|
               && IsLink(view.chains[idx], i, was, prev)
      modifies this`view, this`count, buckets, head, view.order
      ensures Valid() && view.order == Without(old(view.order), k) && view.items == old(view.items)
      ensures was.lnext == old(was.lnext) && was.data == old(was.data) && was.key == old(was.key)
    {
      FollowLinks(view, head, buckets);
      RingDistinct(head, view.order);
      CoherentRemove(view, hashCode, capacity, k, i);
      CutOut(head, buckets, idx, prev, was, view.order, k, view.chains, i);
      assert forall m :: m in Without(view.order, k) ==> m in view.order;
      count := count - 1;
      view := Removed(view, k, idx, i);
    }

    // ----- the public operations -----

    /** hashtable_put: a new key is appended, an old one keeps its place. Entries with an
        empty key or without data are refused. */
    method Put(n: Node) returns (ok: bool)
      requires Valid() && n !in view.order && n != head
      modifies this`view, this`count, this`modCount, buckets, head, view.order, n
      ensures Valid() && ok == (n.key != [] && n.data != NULL)
      ensures n.key == old(n.key) && n.data == old(n.data)
      ensures Listing(view) == if ok then PutSpec(old(Listing(view)), n.key, n.data) else old(Listing(view))
      ensures modCount == old(modCount) + (if ok then 1 else 0) && (!ok ==> view == old(view))
      ensures forall k :: 0 <= k < |view.order| ==> view.order[k] == n || view.order[k] in old(view.order)
    {
      if n.key == [] || n.data == NULL { return false; }
      Insert(n);
      modCount := modCount + 1;
      return true;
    }

    method Insert(n: Node)
      requires Valid() && n !in view.order && n != head
      modifies this`view, this`count, buckets, head, view.order, n
      ensures Valid() && n.key == old(n.key) && n.data == old(n.data)
      ensures Listing(view) == PutSpec(old(Listing(view)), n.key, n.data)
      ensures forall k :: 0 <= k < |view.order| ==> view.order[k] == n || view.order[k] in old(view.order)
    {
      var was, prev, i := GetEntry(n.key);
      if was != null {
        PutOver(was, prev, n, i);
      } else {
        PutNew(n);
      }
    }

    method PutOver(was: Node, prev: Node?, n: Node, ghost i: nat)
      requires Valid() && n !in view.order && n != head && was in view.order && was in view.items
      requires view.items[was].key == n.key && was.hash == view.items[was].hash == hashCode(n.key)
      requires Bucket(hashCode(n.key)) < |view.chains| && IsLink(view.chains[Bucket(hashCode(n.key))], i, was, prev)
      modifies this`view, buckets, head, view.order, n
      ensures Valid() && n.key == old(n.key) && n.data == old(n.data)
      ensures Listing(view) == PutSpec(old(Listing(view)), n.key, n.data) && |view.order| == |old(view.order)|
      ensures forall k :: 0 <= k < |view.order| ==> view.order[k] == n || view.order[k] in old(view.order)
    {
      DistinctContents(view, hashCode, capacity);
      ghost var k := Place(view, was);
      ListingReplace(view, k, n, Item(n.key, n.data, was.hash));
      Replace(was, prev, n, i, k);
    }

    method PutNew(n: Node)
      requires Valid() && n !in view.order && n != head
      requires forall m :: m in view.order ==> m in view.items && view.items[m].key != n.key
      modifies this`view, this`count, buckets, head, view.order, n
      ensures Valid() && n.key == old(n.key) && n.data == old(n.data)
      ensures Listing(view) == PutSpec(old(Listing(view)), n.key, n.data)
      ensures forall k :: 0 <= k < |view.order| ==> view.order[k] == n || view.order[k] in old(view.order)
    {
      ListingAdd(view, n, Item(n.key, n.data, hashCode(n.key)));
      Add(n);
    }

    /** hashtable_get and hashtable_exist. */
    method Get(key: Key) returns (r: Option<Data>)
      requires Valid()
      ensures r == GetSpec(Listing(view), key)
    {
      var node, prev, i := GetEntry(key);
      if node == null {
        NoPlace(view, key);
        return None;
      }
      DistinctContents(view, hashCode, capacity);
      ghost var k := Place(view, node);
      return Some(node.data);
    }

    /** hashtable_remove: the entry of the key leaves the chain and the list. */
    method Remove(key: Key) returns (r: Option<Data>)
      requires Valid()
      modifies this`view, this`count, this`modCount, buckets, head, view.order
      ensures Valid() && r == GetSpec(old(Listing(view)), key)
      ensures Listing(view) == RemoveSpec(old(Listing(view)), key)
      ensures modCount == old(modCount) + (if r.Some? then 1 else 0)
      ensures r == None ==> view == old(view)
      ensures r.Some? ==> IndexOf(old(Listing(view)), key) < |old(view.order)|
                          && view.order == Without(old(view.order), IndexOf(old(Listing(view)), key))
    {
      var was, prev, i := GetEntry(key);
      if was == null {
        NoPlace(view, key);
        return None;
      }
      TakeOut(was, prev, i);
      modCount := modCount + 1;
      return Some(was.data);
    }

    method TakeOut(was: Node, prev: Node?, ghost i: nat)
      requires Valid() && was in view.order && was in view.items && was.hash == hashCode(view.items[was].key)
      requires Bucket(was.hash) < |view.chains| && IsLink(view.chains[Bucket(was.hash)], i, was, prev)
      modifies this`view, this`count, buckets, head, view.order
      ensures Valid() && was.data == old(was.data)
      ensures var key := old(view.items)[was].key; var k := IndexOf(old(Listing(view)), key);
              k < |old(view.order)| && view.order == Without(old(view.order), k)
              && GetSpec(old(Listing(view)), key) == Some(old(view.items)[was].data)
              && Listing(view) == RemoveSpec(old(Listing(view)), key)
    {
      ghost var v := view;
      ghost var k := PlaceToRemove(v, hashCode, capacity, was);
      Cut(was, prev, Bucket(was.hash), i, k);
      ListingRemove(v, view, k);
    }

    /** hashtable_clear: the data of every entry is released once, in list order. */
    method Clear() returns (released: seq<Data>)
      requires Valid()
      modifies this`view, this`count, this`modCount, buckets, head
      ensures Valid() && Listing(view) == []
      ensures released == DataOf(old(Listing(view)))
      ensures modCount == old(modCount) + (if old(Listing(view)) == [] then 0 else 1)
      ensures modCount == old(modCount) ==> view == old(view)
    {
      released := [];
      if count == 0 {
        assert Listing(view) == [];
        return;
      }
      released := WalkList();
      forall b | 0 <= b < buckets.Length { buckets[b] := null; }
      head.lnext := head;
      head.lprev := head;
      count := 0;
      modCount := modCount + 1;
      view := View([], seq(capacity, _ => []), map[], map[]);
    }

    /** The loop of hashtable_clear_i over the circular list. */
    method WalkList() returns (released: seq<Data>)
      requires Valid()
      ensures released == DataOf(Listing(view))
    {
      FollowLinks(view, head, buckets);
      ghost var r := [head] + view.order;
      released := [];
      var entry := head.lnext;
      ghost var k := 0;
      assert r[0].lnext == entry;
      while entry != head
        invariant 0 <= k <= |view.order| && entry == r[After(k, |r|)]
        invariant released == DataOf(Listing(view))[..k]
        decreases |view.order| - k
      {
        assert k < |view.order| && entry == view.order[k] == r[k + 1];
        assert view.order[k] in view.order;
        var cur := entry;
        entry := entry.lnext;
        released := released + [cur.data];
        k := k + 1;
      }
      assert k == |view.order|;
    }
  }

  ghost function Replaced(v: View, k: nat, b: nat, i: nat, n: Node, item: Item): View
    requires k < |v.order| && b < |v.chains| && i < |v.chains[b]|
  {
    View(v.order[k := n], v.chains[b := v.chains[b][i := n]], v.home[n := b], v.items[n := item])
  }

  ghost function Removed(v: View, k: nat, b: nat, i: nat): View
    requires k < |v.order| && b < |v.chains| && i < |v.chains[b]|
  {
    View(Without(v.order, k), v.chains[b := Without(v.chains[b], i)], v.home, v.items)
  }

  lemma CoherentReplace(v: View, hashCode: Key -> nat, capacity: nat, k: nat, i: nat, n: Node, item: Item)
    requires Coherent(v, hashCode, capacity) && capacity > 0 && n !in v.order && k < |v.order| && Distinct(v.order)
    requires v.order[k] in v.items && v.items[v.order[k]].key == item.key && v.items[v.order[k]].hash == item.hash
    requires |v.chains| == capacity
    requires var c := v.chains[hashCode(item.key) % capacity]; i < |c| && c[i] == v.order[k] && Distinct(c)
    ensures item.hash == hashCode(item.key) && Unchained(v.chains, n) && Apart(v.chains, item.hash % capacity)
    ensures forall m :: m in v.chains[item.hash % capacity] ==> m in v.order
    ensures Coherent(Replaced(v, k, item.hash % capacity, i, n, item), hashCode, capacity)
  {
    LookInside(v, hashCode, capacity);
    var b := item.hash % capacity;
    assert v.order[k] in v.order;
    SharedFresh(v.order, v.chains, v.home, n);
    SharedApart(v.order, v.chains, v.home, b);
    SharedReplace(v.order, k, v.chains, b, i, v.home, n);
    KeyedReplace(v.order, v.items, v.home, hashCode, capacity, k, n, item);
  }

  lemma CoherentRemove(v: View, hashCode: Key -> nat, capacity: nat, k: nat, i: nat)
    requires Coherent(v, hashCode, capacity) && capacity > 0 && k < |v.order| && Distinct(v.order)
    requires v.order[k] in v.items && |v.chains| == capacity
    requires var c := v.chains[hashCode(v.items[v.order[k]].key) % capacity];
             i < |c| && c[i] == v.order[k] && Distinct(c)
    ensures Apart(v.chains, hashCode(v.items[v.order[k]].key) % capacity)
    ensures forall m :: m in v.chains[hashCode(v.items[v.order[k]].key) % capacity] ==> m in v.order
    ensures Coherent(Removed(v, k, hashCode(v.items[v.order[k]].key) % capacity, i), hashCode, capacity)
  {
    LookInside(v, hashCode, capacity);
    var b := hashCode(v.items[v.order[k]].key) % capacity;
    assert v.order[k] in v.order;
    SharedApart(v.order, v.chains, v.home, b);
    SharedRemove(v.order, k, v.chains, b, i, v.home);
    KeyedRemove(v.order, v.items, v.home, hashCode, capacity, k);
  }

  lemma KeyedRemove(order: seq<Node>, items: map<Node, Item>, home: map<Node, nat>, hashCode: Key -> nat,
                    capacity: nat, k: nat)
    requires Keyed(order, items, home, hashCode, capacity) && k < |order|
    ensures Keyed(Without(order, k), items, home, hashCode, capacity)
  {
    var w := Without(order, k);
    assert forall j :: 0 <= j < |w| ==> w[j] == order[if j < k then j else j + 1];
    assert forall m :: m in w ==> m in order;
  }

  // ----- the table as an insertion-ordered map -----

  /** The place of a key, the length if it has none. */
  function IndexOf(s: seq<(Key, Data)>, key: Key): (i: nat)
    ensures i <= |s| && (i < |s| ==> s[i].0 == key) && forall j :: 0 <= j < i ==> s[j].0 != key
  {
    if s == [] || s[0].0 == key then 0 else 1 + IndexOf(s[1..], key)
  }

  function PutSpec(s: seq<(Key, Data)>, key: Key, data: Data): seq<(Key, Data)> {
    var i := IndexOf(s, key);
    if i < |s| then s[i := (key, data)] else s + [(key, data)]
  }

  ghost function RemoveSpec(s: seq<(Key, Data)>, key: Key): seq<(Key, Data)> {
    var i := IndexOf(s, key);
    if i < |s| then Without(s, i) else s
  }

  function GetSpec(s: seq<(Key, Data)>, key: Key): Option<Data> {
    var i := IndexOf(s, key);
    if i < |s| then Some(s[i].1) else None
  }

  ghost function DataOf(s: seq<(Key, Data)>): (d: seq<Data>)
    ensures |d| == |s|
  {
    seq(|s|, i requires 0 <= i < |s| => s[i].1)
  }

  ghost predicate DistinctKeys(s: seq<(Key, Data)>) {
    forall i, j :: 0 <= i < j < |s| ==> s[i].0 != s[j].0
  }

  lemma DistinctContents(v: View, hashCode: Key -> nat, capacity: nat)
    requires Coherent(v, hashCode, capacity)
    ensures DistinctKeys(Listing(v))
    ensures forall n :: n in v.order ==> n in v.items && v.items[n].hash == hashCode(v.items[n].key)
  {
    LookInside(v, hashCode, capacity);
  }

  /** The place of a node in the list is the place of its key in the listing. */
  lemma Place(v: View, n: Node) returns (k: nat)
    requires n in v.order && n in v.items && DistinctKeys(Listing(v))
    ensures k < |v.order| && v.order[k] == n && k == IndexOf(Listing(v), v.items[n].key)
    ensures GetSpec(Listing(v), v.items[n].key) == Some(v.items[n].data)
  {
    k :| 0 <= k < |v.order| && v.order[k] == n;
    var i := IndexOf(Listing(v), v.items[n].key);
    assert Listing(v)[k] == (v.items[n].key, v.items[n].data);
  }

  lemma NoPlace(v: View, key: Key)
    requires forall n :: n in v.order ==> n in v.items && v.items[n].key != key
    ensures IndexOf(Listing(v), key) == |v.order|
  {
    forall j | 0 <= j < |v.order| ensures Listing(v)[j].0 != key {
      assert v.order[j] in v.order;
    }
  }

  lemma ListingAdd(v: View, n: Node, item: Item)
    requires n !in v.order && forall m :: m in v.order ==> m in v.items && v.items[m].key != item.key
    ensures forall w: View :: w.order == v.order + [n] && w.items == v.items[n := item] ==>
              Listing(w) == PutSpec(Listing(v), item.key, item.data)
  {
    NoPlace(v, item.key);
    forall w: View | w.order == v.order + [n] && w.items == v.items[n := item]
      ensures Listing(w) == Listing(v) + [(item.key, item.data)]
    {
      forall i | 0 <= i < |v.order| ensures Listing(w)[i] == Listing(v)[i] { assert v.order[i] in v.order; }
    }
  }

  lemma ListingReplace(v: View, k: nat, n: Node, item: Item)
    requires n !in v.order && k < |v.order| && k == IndexOf(Listing(v), item.key)
    ensures forall w: View :: w.order == v.order[k := n] && w.items == v.items[n := item] ==>
              Listing(w) == PutSpec(Listing(v), item.key, item.data)
  {
    forall w: View | w.order == v.order[k := n] && w.items == v.items[n := item]
      ensures Listing(w) == Listing(v)[k := (item.key, item.data)]
    {
      forall i | 0 <= i < |v.order| && i != k ensures Listing(w)[i] == Listing(v)[i] { assert v.order[i] in v.order; }
    }
  }

  lemma ListingRemove(v: View, w: View, k: nat)
    requires k < |v.order| && w.order == Without(v.order, k) && w.items == v.items
    ensures Listing(w) == Without(Listing(v), k)
  {
  }

  lemma PlaceToRemove(v: View, hashCode: Key -> nat, capacity: nat, n: Node) returns (k: nat)
    requires Coherent(v, hashCode, capacity) && n in v.order && n in v.items
    ensures k < |v.order| && v.order[k] == n && k == IndexOf(Listing(v), v.items[n].key)
    ensures GetSpec(Listing(v), v.items[n].key) == Some(v.items[n].data)
    ensures RemoveSpec(Listing(v), v.items[n].key) == Without(Listing(v), k)
  {
    DistinctContents(v, hashCode, capacity);
    k := Place(v, n);
  }

  ghost function Added(v: View, n: Node, item: Item, b: nat): View
    requires b < |v.chains|
  {
    View(v.order + [n], v.chains[b := [n] + v.chains[b]], v.home[n := b], v.items[n := item])
  }

  lemma CoherentAdd(v: View, hashCode: Key -> nat, capacity: nat, n: Node, item: Item)
    requires Coherent(v, hashCode, capacity) && capacity > 0 && n !in v.order && item.hash == hashCode(item.key)
    requires forall m :: m in v.order ==> m in v.items && v.items[m].key != item.key
    ensures |v.chains| == capacity && Unchained(v.chains, n)
    ensures Coherent(Added(v, n, item, item.hash % capacity), hashCode, capacity)
  {
    LookInside(v, hashCode, capacity);
    SharedFresh(v.order, v.chains, v.home, n);
    SharedAdd(v.order, v.chains, v.home, n, item.hash % capacity);
    KeyedAdd(v.order, v.items, v.home, hashCode, capacity, n, item);
  }

  /** prev is the predecessor of c[i] == node. */
  ghost predicate IsLink(c: seq<Node>, i: nat, node: Node, prev: Node?) {
    i < |c| && c[i] == node && (prev == if i == 0 then null else c[i - 1])
  }

  lemma RingDistinct(head: Node, order: seq<Node>)
    requires Ring([head] + order)
    ensures Distinct(order)
  {
    var r := [head] + order;
    assert forall i :: 0 <= i < |order| ==> order[i] == r[i + 1];
  }

  /** s lists the associations of m, each key once. */
  ghost predicate Lists(s: seq<(Key, Data)>, m: map<Key, Data>) {
    && DistinctKeys(s)
    && (forall k :: k in m <==> IndexOf(s, k) < |s|)
    && (forall k :: k in m ==> m[k] == s[IndexOf(s, k)].1)
  }

  lemma IndexUnique(s: seq<(Key, Data)>, i: nat)
    requires DistinctKeys(s) && i < |s|
    ensures IndexOf(s, s[i].0) == i
  {
    var j := IndexOf(s, s[i].0);
  }

  lemma PutIndex(s: seq<(Key, Data)>, key: Key, data: Data, q: Key)
    requires DistinctKeys(s)
    ensures var t := PutSpec(s, key, data); var i, j := IndexOf(s, q), IndexOf(t, q);
            if q == key then j == i < |t| && t[j].1 == data
            else if i < |s| then j == i < |t| && t[j].1 == s[i].1 else j == |t|
  {
    var t, k := PutSpec(s, key, data), IndexOf(s, key);
    assert forall i :: 0 <= i < |s| ==> t[i].0 == s[i].0;
    assert t[k] == (key, data) && DistinctKeys(t);
    var i, j := IndexOf(s, q), IndexOf(t, q);
    if q == key { IndexUnique(t, k); } else if i < |s| { IndexUnique(t, i); }
  }

  /** A put updates the map; old keys keep their places and a new key comes last. */
  lemma PutRefinesMap(s: seq<(Key, Data)>, m: map<Key, Data>, key: Key, data: Data)
    requires Lists(s, m)
    ensures var t := PutSpec(s, key, data);
            && Lists(t, m[key := data])
            && (forall i :: 0 <= i < |s| ==> t[i].0 == s[i].0)
            && |t| == |s| + (if key in m then 0 else 1)
  {
    var t := PutSpec(s, key, data);
    assert forall i :: 0 <= i < |s| ==> t[i].0 == s[i].0;
    forall q ensures q in m[key := data] <==> IndexOf(t, q) < |t|
             ensures q in m[key := data] ==> m[key := data][q] == t[IndexOf(t, q)].1
    {
      PutIndex(s, key, data, q);
    }
  }

  lemma RemoveDistinct(s: seq<(Key, Data)>, key: Key)
    requires DistinctKeys(s)
    ensures DistinctKeys(RemoveSpec(s, key))
  {
    var t, k := RemoveSpec(s, key), IndexOf(s, key);
    if k < |s| {
      assert forall u :: 0 <= u < |t| ==> t[u] == s[if u < k then u else u + 1];
    }
  }

  lemma RemoveIndex(s: seq<(Key, Data)>, key: Key, q: Key)
    requires DistinctKeys(s)
    ensures var t := RemoveSpec(s, key); var i, j := IndexOf(s, q), IndexOf(t, q);
            DistinctKeys(t) && if q == key || i == |s| then j == |t| else j < |t| && t[j] == s[i]
  {
    var k, i := IndexOf(s, key), IndexOf(s, q);
    RemoveDistinct(s, key);
    if k < |s| {
      var t := Without(s, k);
      if q == key || i == |s| {
        assert forall u :: 0 <= u < |t| ==> t[u] == s[if u < k then u else u + 1];
      } else {
        var p := if i < k then i else i - 1;
        assert t[p] == s[i];
        IndexUnique(t, p);
      }
    }
  }

  /** A removal takes the key out of the map and leaves the order of the rest. */
  lemma RemoveRefinesMap(s: seq<(Key, Data)>, m: map<Key, Data>, key: Key)
    requires Lists(s, m)
    ensures Lists(RemoveSpec(s, key), m - {key})
    ensures |RemoveSpec(s, key)| == |s| - (if key in m then 1 else 0)
  {
    var t := RemoveSpec(s, key);
    forall q ensures q in m - {key} <==> IndexOf(t, q) < |t|
             ensures q in m - {key} ==> m[q] == t[IndexOf(t, q)].1
    {
      RemoveIndex(s, key, q);
    }
    RemoveIndex(s, key, key);
  }

  lemma GetRefinesMap(s: seq<(Key, Data)>, m: map<Key, Data>, key: Key)
    requires Lists(s, m)
    ensures GetSpec(s, key) == if key in m then Some(m[key]) else None
  {
  }

  /** The count is the size of the map. */
  lemma {:induction false} CountIsMapSize(s: seq<(Key, Data)>, m: map<Key, Data>)
    requires Lists(s, m)
    ensures |s| == |m|
    decreases |s|
  {
    if s == [] {
      assert m == map[] by { forall k ensures k !in m { assert IndexOf(s, k) == 0; } }
    } else {
      var key := s[0].0;
      IndexUnique(s, 0);
      RemoveRefinesMap(s, m, key);
      CountIsMapSize(RemoveSpec(s, key), m - {key});
      assert m.Keys == (m - {key}).Keys + {key};
      assert |m.Keys| == |(m - {key}).Keys| + 1;
    }
  }

  // ----- iterators -----

  class Iterator {
    const table: Hashtable
    var current: Node?
    var next: Node
    var expected: nat
    ghost var pos: nat  // how many entries before the next one

    /** As long as no other change was counted, the iterator stands before entry `pos`. */
    ghost predicate Valid()
      reads this, table
    {
      && expected <= table.modCount
      && (expected == table.modCount ==>
            && pos <= |table.view.order|
            && next == (if pos < |table.view.order| then table.view.order[pos] else table.head)
            && (current == null || (pos > 0 && current == table.view.order[pos - 1])))
    }

    constructor (t: Hashtable)
      requires t.Valid()
      ensures Valid() && table == t && expected == t.modCount && pos == 0
    {
      table := t;
      current := null;
      FollowLinks(t.view, t.head, t.buckets);
      assert ([t.head] + t.view.order)[0].lnext == t.head.lnext;
      next := t.head.lnext;
      expected := t.modCount;
      pos := 0;
    }

    method HasNext() returns (b: bool)
      requires table.Valid() && Valid()
      ensures expected == table.modCount ==> b == (pos < |table.view.order|)
    {
      FollowLinks(table.view, table.head, table.buckets);
      b := next != table.head;
    }

    /** 1 with the next entry, 0 at the end, -1 if the table was changed behind its back. */
    method Next() returns (rc: int, key: Key, data: Data)
      requires table.Valid() && Valid()
      modifies this
      ensures Valid() && expected == old(expected)
      ensures rc == if old(expected) != table.modCount then -1 else if old(pos) == |table.view.order| then 0 else 1
      ensures rc == 1 ==> pos == old(pos) + 1 && current != null && (key, data) == Listing(table.view)[old(pos)]
      ensures rc != 1 ==> pos == old(pos) && current == old(current) && next == old(next)
    {
      key, data := [], 0;
      if expected != table.modCount {
        return -1, key, data;
      }
      FollowLinks(table.view, table.head, table.buckets);
      if next == table.head {
        return 0, key, data;
      }
      ghost var r := [table.head] + table.view.order;
      assert r[pos + 1] == next && next.lnext == r[After(pos + 1, |r|)];
      assert table.view.order[pos] in table.view.order;
      current := next;
      next := next.lnext;
      pos := pos + 1;
      return 1, current.key, current.data;
    }

    /** Removes the entry last returned; the iterator stays in step with the table. */
    method Remove() returns (rc: int)
      requires table.Valid() && Valid()
      modifies this, table`view, table`count, table`modCount, table.buckets, table.head, table.view.order
      ensures table.Valid() && Valid()
      ensures rc == if old(current) == null || old(expected) != old(table.modCount) then -1 else 1
      ensures rc == -1 ==> table.view == old(table.view) && table.modCount == old(table.modCount)
      ensures rc == -1 ==> pos == old(pos) && current == old(current) && expected == old(expected)
      ensures rc == 1 ==> && current == null && pos == old(pos) - 1
                          && expected == table.modCount == old(table.modCount) + 1
      ensures rc == 1 ==> Listing(table.view) == Without(old(Listing(table.view)), pos)
      ensures rc == 1 ==> table.view.order == Without(old(table.view.order), pos)
    {
      if current == null || expected != table.modCount {
        return -1;
      }
      TakeOut(current);
      current := null;
      expected := expected + 1;
      pos := pos - 1;
      return 1;
    }

    /** The entry last returned leaves the table; the one behind it comes to its place. */
    method TakeOut(node: Node)
      requires table.Valid() && Valid() && node == current && expected == table.modCount
      modifies table`view, table`count, table`modCount, table.buckets, table.head, table.view.order
      ensures table.Valid() && table.modCount == old(table.modCount) + 1 && pos > 0
      ensures pos - 1 < old(|table.view.order|) && table.view.order == Without(old(table.view.order), pos - 1)
      ensures Listing(table.view) == Without(old(Listing(table.view)), pos - 1)
      ensures |table.view.order| == old(|table.view.order|) - 1
      ensures next == if pos - 1 < |table.view.order| then table.view.order[pos - 1] else table.head
    {
      ghost var before := table.view.order;
      Standing();
      var r := table.Remove(node.key);
      GapClosed(before, pos - 1);
    }

    /** The entry last returned stands before the position, also in the listing. */
    lemma Standing()
      requires table.Valid() && Valid() && current != null && expected == table.modCount
      ensures 0 < pos <= |table.view.order| && IndexOf(Listing(table.view), current.key) == pos - 1
      ensures GetSpec(Listing(table.view), current.key).Some?
      ensures RemoveSpec(Listing(table.view), current.key) == Without(Listing(table.view), pos - 1)
    {
      FollowLinks(table.view, table.head, table.buckets);
      KeyAt(table.view, table.hashCode, table.capacity, pos - 1);
    }
  }

  lemma GapClosed(order: seq<Node>, k: nat)
    requires k < |order|
    ensures |Without(order, k)| == |order| - 1
    ensures k + 1 < |order| ==> Without(order, k)[k] == order[k + 1]
  {
  }

  lemma KeyAt(v: View, hashCode: Key -> nat, capacity: nat, k: nat)
    requires Coherent(v, hashCode, capacity) && k < |v.order| && Faithful(v.order, v.items)
    ensures IndexOf(Listing(v), v.order[k].key) == k
  {
    DistinctContents(v, hashCode, capacity);
    assert v.order[k] in v.order;
    assert Listing(v)[k].0 == v.order[k].key;
    IndexUnique(Listing(v), k);
  }

  /** An undisturbed pass meets every entry exactly once, in insertion order. */
  method VisitAll(t: Hashtable) returns (visited: seq<(Key, Data)>)
    requires t.Valid()
    ensures visited == Listing(t.view)
  {
    var it := new Iterator(t);
    visited := [];
    while true
      invariant t.Valid() && it.Valid() && it.table == t && it.expected == t.modCount
      invariant it.pos <= |t.view.order| && visited == Listing(t.view)[..it.pos]
      decreases |t.view.order| - it.pos
    {
      var more := it.HasNext();
      if !more { break; }
      NextVisited(Listing(t.view), it.pos);
      var rc, key, data := it.Next();
      visited := visited + [(key, data)];
    }
  }

  lemma NextVisited(s: seq<(Key, Data)>, k: nat)
    requires k < |s|
    ensures s[..k + 1] == s[..k] + [s[k]]
  {
  }

  method DrainOne(it: Iterator) returns (key: Key, data: Data)
    requires it.table.Valid() && it.Valid() && it.expected == it.table.modCount && it.pos == 0 < |it.table.view.order|
    modifies it, it.table`view, it.table`count, it.table`modCount, it.table.buckets, it.table.head, it.table.view.order
    ensures it.table.Valid() && it.Valid() && it.expected == it.table.modCount && it.pos == 0
    ensures [(key, data)] + Listing(it.table.view) == old(Listing(it.table.view))
    ensures it.table.view.order == old(it.table.view.order)[1..]
  {
    var rc;
    rc, key, data := it.Next();
    rc := it.Remove();
  }

  /** u is what is left of s when some of its front is gone. */
  ghost predicate Suffix(u: seq<Node>, s: seq<Node>) { |u| <= |s| && u == s[|s| - |u|..] }

  lemma SuffixIn(u: seq<Node>, s: seq<Node>)
    requires Suffix(u, s)
    ensures forall n :: n in u ==> n in s
    ensures u != [] ==> Suffix(u[1..], s)
  {
  }

  lemma Regroup<T>(a: seq<T>, x: T, b: seq<T>, c: seq<T>)
    requires [x] + b == c
    ensures (a + [x]) + b == a + c
  {
  }

  /** So does a pass that removes each entry through the iterator, and it empties the table. */
  method DrainAll(t: Hashtable) returns (visited: seq<(Key, Data)>)
    requires t.Valid()
    modifies t`view, t`count, t`modCount, t.buckets, t.head, t.view.order
    ensures t.Valid() && Listing(t.view) == []
    ensures visited == old(Listing(t.view))
  {
    var it := new Iterator(t);
    visited := [];
    while true
      invariant t.Valid() && it.Valid() && it.table == t && it.expected == t.modCount && it.pos == 0
      invariant Suffix(t.view.order, old(t.view.order))
      invariant visited + Listing(t.view) == old(Listing(t.view))
      decreases |t.view.order|
    {
      var more := it.HasNext();
      if !more { break; }
      SuffixIn(t.view.order, old(t.view.order));
      ghost var before := Listing(t.view);
      var key, data := DrainOne(it);
      Regroup(visited, (key, data), Listing(t.view), before);
      visited := visited + [(key, data)];
    }
  }

  // ----- whole runs -----

  /** An iterator: how many entries it has behind it, whether it may remove the last of them,
      and the count of changes it expects. */
  datatype Cursor = Cursor(pos: nat, current: bool, expected: nat)

  /** A table with its iterators, as values. */
  datatype Book = Book(list: seq<(Key, Data)>, mods: nat, cursors: seq<Cursor>)

  datatype TableOp =
    | DoPut(key: Key, data: Data) | DoRemove(key: Key) | DoClear
    | DoIterate | DoNext(j: nat) | DoDrop(j: nat)  // a new iterator; next and remove on the j-th

  ghost predicate Sound(c: Cursor, list: seq<(Key, Data)>, mods: nat) {
    c.expected <= mods && (c.expected == mods ==> c.pos <= |list| && (c.current ==> c.pos > 0))
  }

  ghost predicate BookValid(b: Book) {
    forall j :: 0 <= j < |b.cursors| ==> Sound(b.cursors[j], b.list, b.mods)
  }

  ghost predicate InStep(b: Book, j: nat)
    requires j < |b.cursors|
  {
    b.cursors[j].expected == b.mods
  }

  /** The operations that change the table. */
  ghost predicate Changes(b: Book, op: TableOp) {
    match op
    case DoPut(key, data) => Storable(key, data)
    case DoRemove(key) => IndexOf(b.list, key) < |b.list|
    case DoClear => b.list != []
    case DoIterate => false
    case DoNext(_) => false
    case DoDrop(j) => j < |b.cursors| && b.cursors[j].current && InStep(b, j)
  }

  /** What an operation on an iterator returns; 0 for the others. */
  ghost function Result(b: Book, op: TableOp): int {
    match op
    case DoNext(j) =>
      if j >= |b.cursors| then 0 else if !InStep(b, j) then -1 else if b.cursors[j].pos == |b.list| then 0 else 1
    case DoDrop(j) => if j >= |b.cursors| then 0 else if Changes(b, op) then 1 else -1
    case _ => 0
  }

  ghost function Step(b: Book, op: TableOp): (c: Book)
    requires BookValid(b)
    ensures BookValid(c)
  {
    var mods := if Changes(b, op) then b.mods + 1 else b.mods;
    match op
    case DoPut(key, data) => Book(if Storable(key, data) then PutSpec(b.list, key, data) else b.list, mods, b.cursors)
    case DoRemove(key) => Book(RemoveSpec(b.list, key), mods, b.cursors)
    case DoClear => Book([], mods, b.cursors)
    case DoIterate => b.(cursors := b.cursors + [Cursor(0, false, b.mods)])
    case DoNext(j) =>
      if Result(b, op) != 1 then b
      else b.(cursors := b.cursors[j := Cursor(b.cursors[j].pos + 1, true, b.mods)])
    case DoDrop(j) =>
      if Result(b, op) != 1 then b
      else
        var k := b.cursors[j].pos - 1;
        Book(Without(b.list, k), mods, b.cursors[j := Cursor(k, false, mods)])
  }

  ghost function Run(b: Book, ops: seq<TableOp>): (c: Book)
    requires BookValid(b)
    ensures BookValid(c)
  {
    if ops == [] then b else Step(Run(b, ops[..|ops| - 1]), ops[|ops| - 1])
  }

  /** The i-th operation of a run changes the table, and is not a removal by iterator j. */
  ghost predicate Disturbs(b: Book, ops: seq<TableOp>, j: nat, i: int)
    requires BookValid(b)
  {
    0 <= i < |ops| && Changes(Run(b, ops[..i]), ops[i]) && ops[i] != DoDrop(j)
  }

  ghost predicate Disturbed(b: Book, ops: seq<TableOp>, j: nat)
    requires BookValid(b)
  {
    exists i :: Disturbs(b, ops, j, i)
  }

  lemma DisturbedLast(b: Book, ops: seq<TableOp>, j: nat)
    requires BookValid(b) && ops != []
    ensures var n := |ops| - 1;
            Disturbed(b, ops, j) <==>
              Disturbed(b, ops[..n], j) || (Changes(Run(b, ops[..n]), ops[n]) && ops[n] != DoDrop(j))
  {
    var n := |ops| - 1;
    if Disturbed(b, ops, j) {
      var i :| Disturbs(b, ops, j, i);
      if i < n {
        assert ops[..n][..i] == ops[..i];
        assert Disturbs(b, ops[..n], j, i);
      }
    }
    if Disturbed(b, ops[..n], j) {
      var i :| Disturbs(b, ops[..n], j, i);
      assert ops[..n][..i] == ops[..i];
      assert Disturbs(b, ops, j, i);
    }
    if Changes(Run(b, ops[..n]), ops[n]) && ops[n] != DoDrop(j) { assert Disturbs(b, ops, j, n); }
  }

  /** Over every run that starts with an iterator in step, the iterator is in step at the end
      exactly if all changes of the run were its own removals. */
  lemma {:induction false} ConflictExactly(b: Book, ops: seq<TableOp>, j: nat)
    requires BookValid(b) && j < |b.cursors| && InStep(b, j)
    ensures j < |Run(b, ops).cursors| && Run(b, ops).mods >= b.mods
    ensures InStep(Run(b, ops), j) <==> !Disturbed(b, ops, j)
  {
    if ops != [] {
      var n := |ops| - 1;
      ConflictExactly(b, ops[..n], j);
      CursorStep(Run(b, ops[..n]), ops[n], j);
      DisturbedLast(b, ops, j);
    }
  }

  lemma CursorStep(b: Book, op: TableOp, j: nat)
    requires BookValid(b) && j < |b.cursors|
    ensures var c := Step(b, op);
            && j < |c.cursors| && c.mods >= b.mods
            && (InStep(c, j) <==> InStep(b, j) && (Changes(b, op) ==> op == DoDrop(j)))
  {
  }

  /** After a change made elsewhere the next call of next and of remove report a conflict, and
      only then, as far as there is an entry to remove. */
  lemma ChangesAreNoticed(b: Book, ops: seq<TableOp>, j: nat)
    requires BookValid(b) && j < |b.cursors| && InStep(b, j)
    ensures var c := Run(b, ops);
            && j < |c.cursors| && (Result(c, DoNext(j)) == -1 <==> Disturbed(b, ops, j))
            && (Result(c, DoDrop(j)) == -1 <==> Disturbed(b, ops, j) || !c.cursors[j].current)
  {
    ConflictExactly(b, ops, j);
  }

  ghost function MapStep(b: Book, m: map<Key, Data>, op: TableOp): map<Key, Data>
    requires BookValid(b)
  {
    match op
    case DoPut(key, data) => if key != [] && data != NULL then m[key := data] else m
    case DoRemove(key) => m - {key}
    case DoClear => map[]
    case DoDrop(j) => if Changes(b, op) then m - {b.list[b.cursors[j].pos - 1].0} else m
    case _ => m
  }

  ghost function MapRun(b: Book, m: map<Key, Data>, ops: seq<TableOp>): map<Key, Data>
    requires BookValid(b)
  {
    if ops == [] then m
    else MapStep(Run(b, ops[..|ops| - 1]), MapRun(b, m, ops[..|ops| - 1]), ops[|ops| - 1])
  }

  /** After any run the listing is that of the map the same run leads to. */
  lemma {:induction false} RunRefinesMap(b: Book, m: map<Key, Data>, ops: seq<TableOp>)
    requires BookValid(b) && Lists(b.list, m)
    ensures Lists(Run(b, ops).list, MapRun(b, m, ops)) && |Run(b, ops).list| == |MapRun(b, m, ops)|
  {
    if ops != [] {
      var before := ops[..|ops| - 1];
      RunRefinesMap(b, m, before);
      StepRefinesMap(Run(b, before), MapRun(b, m, before), ops[|ops| - 1]);
    }
    CountIsMapSize(Run(b, ops).list, MapRun(b, m, ops));
  }

  lemma StepRefinesMap(b: Book, m: map<Key, Data>, op: TableOp)
    requires BookValid(b) && Lists(b.list, m)
    ensures Lists(Step(b, op).list, MapStep(b, m, op))
  {
    match op
    case DoPut(key, data) => PutRefinesMap(b.list, m, key, data);
    case DoRemove(key) => RemoveRefinesMap(b.list, m, key);
    case DoDrop(j) =>
      if Changes(b, op) {
        var k := b.cursors[j].pos - 1;
        IndexUnique(b.list, k);
        RemoveRefinesMap(b.list, m, b.list[k].0);
      }
    case _ =>
  }

  // ----- the same runs of the linked table -----

  ghost predicate AllValid(t: Hashtable, its: seq<Iterator>)
    reads t, its, set it | it in its :: it.table
  {
    && (forall j :: 0 <= j < |its| ==> its[j].table == t && its[j].Valid())
    && (forall i, j :: 0 <= i < j < |its| ==> its[i] != its[j])
  }

  ghost function CursorOf(it: Iterator): Cursor
    reads it
  {
    Cursor(it.pos, it.current != null, it.expected)
  }

  ghost function CursorsOf(its: seq<Iterator>): (cs: seq<Cursor>)
    reads its
    ensures |cs| == |its| && forall j :: 0 <= j < |its| ==> cs[j] == CursorOf(its[j])
  {
    if its == [] then [] else CursorsOf(its[..|its| - 1]) + [CursorOf(its[|its| - 1])]
  }

  ghost function BookOf(t: Hashtable, its: seq<Iterator>): Book
    reads t, its
  {
    Book(Listing(t.view), t.modCount, CursorsOf(its))
  }

  lemma BookIsValid(t: Hashtable, its: seq<Iterator>)
    requires AllValid(t, its)
    ensures BookValid(BookOf(t, its))
  {
  }

  /** Cursors of untouched iterators stay sound when the table counts a change or has none. */
  lemma StillValid(t: Hashtable, its: seq<Iterator>, cs: seq<Cursor>, mods: nat)
    requires |cs| == |its| && mods <= t.modCount
    requires forall j :: 0 <= j < |its| ==> its[j].table == t && CursorOf(its[j]) == cs[j] && cs[j].expected <= mods
    requires forall i, j :: 0 <= i < j < |its| ==> its[i] != its[j]
    requires mods == t.modCount ==> forall j :: 0 <= j < |its| ==> its[j].Valid()
    ensures AllValid(t, its) && CursorsOf(its) == cs
  {
  }

  method PerformPut(t: Hashtable, ghost its: seq<Iterator>, key: Key, data: Data)
    requires t.Valid() && AllValid(t, its)
    modifies t`view, t`count, t`modCount, t.buckets, t.head, t.view.order
    ensures t.Valid() && AllValid(t, its)
    ensures old(BookValid(BookOf(t, its))) && BookOf(t, its) == Step(old(BookOf(t, its)), DoPut(key, data))
    ensures forall k :: 0 <= k < |t.view.order| ==> t.view.order[k] in old(t.view.order) || fresh(t.view.order[k])
  {
    BookIsValid(t, its);
    ghost var b := BookOf(t, its);
    PutFresh(t, key, data);
    StillValid(t, its, b.cursors, b.mods);
  }

  method PutFresh(t: Hashtable, key: Key, data: Data)
    requires t.Valid()
    modifies t`view, t`count, t`modCount, t.buckets, t.head, t.view.order
    ensures t.Valid() && t.modCount == old(t.modCount) + (if Storable(key, data) then 1 else 0)
    ensures !Storable(key, data) ==> t.view == old(t.view)
    ensures Listing(t.view) ==
            if Storable(key, data) then PutSpec(old(Listing(t.view)), key, data) else old(Listing(t.view))
    ensures forall k :: 0 <= k < |t.view.order| ==> t.view.order[k] in old(t.view.order) || fresh(t.view.order[k])
  {
    var n := new Node(key, data);
    var _ := t.Put(n);
  }

  method PerformRemove(t: Hashtable, ghost its: seq<Iterator>, key: Key)
    requires t.Valid() && AllValid(t, its)
    modifies t`view, t`count, t`modCount, t.buckets, t.head, t.view.order
    ensures t.Valid() && AllValid(t, its)
    ensures old(BookValid(BookOf(t, its))) && BookOf(t, its) == Step(old(BookOf(t, its)), DoRemove(key))
    ensures forall k :: 0 <= k < |t.view.order| ==> t.view.order[k] in old(t.view.order)
  {
    BookIsValid(t, its);
    ghost var b := BookOf(t, its);
    var _ := t.Remove(key);
    StillValid(t, its, b.cursors, b.mods);
  }

  method PerformClear(t: Hashtable, ghost its: seq<Iterator>)
    requires t.Valid() && AllValid(t, its)
    modifies t`view, t`count, t`modCount, t.buckets, t.head
    ensures t.Valid() && AllValid(t, its)
    ensures old(BookValid(BookOf(t, its))) && BookOf(t, its) == Step(old(BookOf(t, its)), DoClear)
    ensures forall k :: 0 <= k < |t.view.order| ==> t.view.order[k] in old(t.view.order)
  {
    BookIsValid(t, its);
    ghost var b := BookOf(t, its);
    var _ := t.Clear();
    StillValid(t, its, b.cursors, b.mods);
  }

  method PerformNext(t: Hashtable, its: seq<Iterator>, j: nat) returns (rc: int)
    requires t.Valid() && AllValid(t, its) && j < |its|
    modifies its[j]
    ensures AllValid(t, its)
    ensures old(BookValid(BookOf(t, its))) && BookOf(t, its) == Step(old(BookOf(t, its)), DoNext(j))
    ensures rc == Result(old(BookOf(t, its)), DoNext(j))
  {
    BookIsValid(t, its);
    ghost var b := BookOf(t, its);
    rc := NextOn(t, its, j);
    NextInBook(b, BookOf(t, its), j, rc);
  }

  method NextOn(t: Hashtable, its: seq<Iterator>, j: nat) returns (rc: int)
    requires t.Valid() && AllValid(t, its) && j < |its|
    modifies its[j]
    ensures AllValid(t, its)
    ensures rc == if old(its[j].expected) != t.modCount then -1 else if old(its[j].pos) == |t.view.order| then 0 else 1
    ensures CursorsOf(its) == old(CursorsOf(its))[j := CursorOf(its[j])]
    ensures CursorOf(its[j]) == if rc == 1 then Cursor(old(its[j].pos) + 1, true, t.modCount) else old(CursorOf(its[j]))
  {
    var key, data;
    rc, key, data := its[j].Next();
  }

  lemma NextInBook(b: Book, c: Book, j: nat, rc: int)
    requires BookValid(b) && j < |b.cursors| && rc == Result(b, DoNext(j)) && c.list == b.list && c.mods == b.mods
    requires rc == 1 ==> c.cursors == b.cursors[j := Cursor(b.cursors[j].pos + 1, true, b.mods)]
    requires rc != 1 ==> c.cursors == b.cursors[j := b.cursors[j]]
    ensures c == Step(b, DoNext(j))
  {
  }

  method PerformDrop(t: Hashtable, its: seq<Iterator>, j: nat) returns (rc: int)
    requires t.Valid() && AllValid(t, its) && j < |its|
    modifies its[j], t`view, t`count, t`modCount, t.buckets, t.head, t.view.order
    ensures t.Valid() && AllValid(t, its)
    ensures old(BookValid(BookOf(t, its))) && BookOf(t, its) == Step(old(BookOf(t, its)), DoDrop(j))
    ensures rc == Result(old(BookOf(t, its)), DoDrop(j))
    ensures forall k :: 0 <= k < |t.view.order| ==> t.view.order[k] in old(t.view.order)
  {
    BookIsValid(t, its);
    ghost var b := BookOf(t, its);
    rc := DropOn(t, its, j);
    DropInBook(b, BookOf(t, its), j, rc);
  }

  /** Removal through one iterator, as the others see it. */
  method DropOn(t: Hashtable, its: seq<Iterator>, j: nat) returns (rc: int)
    requires t.Valid() && AllValid(t, its) && j < |its|
    modifies its[j], t`view, t`count, t`modCount, t.buckets, t.head, t.view.order
    ensures t.Valid() && AllValid(t, its)
    ensures rc == if old(its[j].current) == null || old(its[j].expected) != old(t.modCount) then -1 else 1
    ensures CursorsOf(its) == old(CursorsOf(its))[j := CursorOf(its[j])]
    ensures rc == -1 ==> && t.view == old(t.view) && t.modCount == old(t.modCount)
                         && CursorOf(its[j]) == old(CursorOf(its[j]))
    ensures rc == 1 ==> 0 < old(its[j].pos) <= |old(Listing(t.view))| && t.modCount == old(t.modCount) + 1
                        && CursorOf(its[j]) == Cursor(old(its[j].pos) - 1, false, t.modCount)
                        && Listing(t.view) == Without(old(Listing(t.view)), old(its[j].pos) - 1)
    ensures forall k :: 0 <= k < |t.view.order| ==> t.view.order[k] in old(t.view.order)
  {
    rc := its[j].Remove();
  }

  lemma DropInBook(b: Book, c: Book, j: nat, rc: int)
    requires BookValid(b) && j < |b.cursors| && rc == Result(b, DoDrop(j))
    requires rc == -1 ==> c == b
    requires rc == 1 ==> c == Book(Without(b.list, b.cursors[j].pos - 1), b.mods + 1,
                                   b.cursors[j := Cursor(b.cursors[j].pos - 1, false, b.mods + 1)])
    ensures c == Step(b, DoDrop(j))
  {
  }

  /** Every operation does to the linked nodes and the iterators what it does to the book. */
  method Perform(t: Hashtable, its: seq<Iterator>, op: TableOp) returns (rc: int, its': seq<Iterator>)
    requires t.Valid() && AllValid(t, its)
    modifies t`view, t`count, t`modCount, t.buckets, t.head, t.view.order, its
    ensures t.Valid() && AllValid(t, its') && its <= its' && forall j :: |its| <= j < |its'| ==> fresh(its'[j])
    ensures old(BookValid(BookOf(t, its))) && BookOf(t, its') == Step(old(BookOf(t, its)), op)
    ensures rc == Result(old(BookOf(t, its)), op)
    ensures forall k :: 0 <= k < |t.view.order| ==> t.view.order[k] in old(t.view.order) || fresh(t.view.order[k])
  {
    BookIsValid(t, its);
    rc, its' := 0, its;
    match op {
      case DoPut(key, data) => PerformPut(t, its, key, data);
      case DoRemove(key) => PerformRemove(t, its, key);
      case DoClear => PerformClear(t, its);
      case DoIterate =>
        var it := new Iterator(t);
        its' := its + [it];
      case DoNext(j) =>
        if j < |its| { rc := PerformNext(t, its, j); }
      case DoDrop(j) =>
        if j < |its| { rc := PerformDrop(t, its, j); }
    }
  }

  ghost function Results(b: Book, ops: seq<TableOp>): seq<int>
    requires BookValid(b)
  {
    if ops == [] then [] else Results(b, ops[..|ops| - 1]) + [Result(Run(b, ops[..|ops| - 1]), ops[|ops| - 1])]
  }

  /** Every run of a table and its iterators keeps the invariants, lists what the book says and
      returns the results it says. */
  method Drive(t: Hashtable, its: seq<Iterator>, ops: seq<TableOp>) returns (results: seq<int>, its': seq<Iterator>)
    requires t.Valid() && AllValid(t, its)
    modifies t`view, t`count, t`modCount, t.buckets, t.head, t.view.order, its
    ensures t.Valid() && AllValid(t, its') && t.count == |Listing(t.view)|
    ensures old(BookValid(BookOf(t, its))) && BookOf(t, its') == Run(old(BookOf(t, its)), ops)
    ensures results == Results(old(BookOf(t, its)), ops)
  {
    BookIsValid(t, its);
    results, its' := [], its;
    ghost var b := BookOf(t, its);
    for i := 0 to |ops|
      invariant t.Valid() && AllValid(t, its') && BookOf(t, its') == Run(b, ops[..i]) && results == Results(b, ops[..i])
      invariant its <= its' && forall j :: |its| <= j < |its'| ==> fresh(its'[j])
      invariant forall k :: 0 <= k < |t.view.order| ==> t.view.order[k] in old(t.view.order) || fresh(t.view.order[k])
    {
      assert ops[..i + 1][..i] == ops[..i];
      var rc;
      rc, its' := Perform(t, its', ops[i]);
      results := results + [rc];
    }
    assert ops[..|ops|] == ops;
  }
}
