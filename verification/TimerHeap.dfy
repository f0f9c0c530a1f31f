/** The timer heap: a binary min-heap of timer entries with a parallel id table that is
    both the inverse index of the heap and a free list threaded through negative values. */
module TimerHeap {
  import opened Sealing
  import opened TimeVals

  const EINVAL := 22
  const INT32_MAX := 0x7fff_ffff

  class Entry {
    var timerId: int
    var value: TimeVal
    const hasCallback: bool

    constructor (cb: bool)
      ensures timerId == -1 && hasCallback == cb
    {
      timerId := -1;
      value := TimeVal(0, 0);
      hasCallback := cb;
    }
  }

  /** What a heap slot holds: an entry with its id and expiry. */
  datatype Slot = Slot(entry: Entry, id: int, value: TimeVal)

  // ----- the heap order -----

  function Parent(s: int): int { if s == 0 then 0 else (s - 1) / 2 }

  ghost predicate Ordered(v: seq<Slot>) {
    forall s :: 1 <= s < |v| ==> Lte(v[Parent(s)].value, v[s].value)
  }

  /** The children of slot k respect the parent of k. */
  ghost predicate Bridged(v: seq<Slot>, k: int) {
    forall s :: 1 <= s < |v| && Parent(s) == k && 1 <= k ==> Lte(v[Parent(k)].value, v[s].value)
  }

  /** Ordered but for slot k against its parent. */
  ghost predicate OrderedUp(v: seq<Slot>, k: int) {
    Bridged(v, k) && forall s :: 1 <= s < |v| && s != k ==> Lte(v[Parent(s)].value, v[s].value)
  }

  /** Ordered but for slot k against its children. */
  ghost predicate OrderedDown(v: seq<Slot>, k: int) {
    Bridged(v, k) && forall s :: 1 <= s < |v| && Parent(s) != k ==> Lte(v[Parent(s)].value, v[s].value)
  }

  lemma {:induction false} RootIsEarliest(v: seq<Slot>, s: nat)
    requires Ordered(v) && s < |v|
    ensures Lte(v[0].value, v[s].value)
    decreases s
  {
    if s > 0 {
      RootIsEarliest(v, Parent(s));
    }
  }

  ghost function Swapped(v: seq<Slot>, i: nat, j: nat): (w: seq<Slot>)
    requires i < |v| && j < |v|
    ensures |w| == |v| && multiset(w) == multiset(v)
  {
    v[i := v[j]][j := v[i]]
  }

  lemma ClimbStep(v: seq<Slot>, k: nat)
    requires 0 < k < |v| && OrderedUp(v, k) && Lt(v[k].value, v[Parent(k)].value)
    ensures OrderedUp(Swapped(v, k, Parent(k)), Parent(k))
  {
  }

  lemma SinkStep(v: seq<Slot>, k: nat, c: nat)
    requires k < |v| && 0 < c < |v| && Parent(c) == k && OrderedDown(v, k)
    requires forall s :: 1 <= s < |v| && Parent(s) == k ==> Lte(v[c].value, v[s].value)
    requires Lt(v[c].value, v[k].value)
    ensures OrderedDown(Swapped(v, k, c), c)
  {
  }

  // ----- the arrays -----

  /** The arrays agree with v but for slot k: every other slot is in the heap array and is
      recorded under its id; no id occurs twice; ids of no slot keep what `base` has. */
  ghost predicate Holds(heap: seq<Entry?>, ids: seq<int>, v: seq<Slot>, k: int, base: seq<int>, live: set<int>) {
    && |heap| == |ids| == |base| && |v| <= |heap|
    && (forall s :: 0 <= s < |v| && s != k ==> heap[s] == v[s].entry)
    && (forall s :: 0 <= s < |v| ==> 1 <= v[s].id < |ids| && v[s].id in live)
    && (forall s :: 0 <= s < |v| && s != k ==> ids[v[s].id] == s)
    && (0 <= k < |v| ==> forall s :: 0 <= s < |v| && s != k ==> v[s].id != v[k].id)
    && (forall i :: 0 <= i < |ids| && i !in live ==> ids[i] == base[i])
  }

  /** Copying the entry of slot c into slot k moves the gap to c. */
  lemma MoveGap(heap: seq<Entry?>, ids: seq<int>, v: seq<Slot>, k: nat, c: nat, base: seq<int>, live: set<int>)
    requires k < |v| && c < |v| && k != c && Holds(heap, ids, v, k, base, live)
    ensures Holds(heap[k := v[c].entry], ids[v[c].id := k], Swapped(v, k, c), c, base, live)
  {
  }

  lemma FillGap(heap: seq<Entry?>, ids: seq<int>, v: seq<Slot>, k: nat, base: seq<int>, live: set<int>)
    requires k < |v| && Holds(heap, ids, v, k, base, live)
    ensures Holds(heap[k := v[k].entry], ids[v[k].id := k], v, -1, base, live)
  {
  }

  // ----- the free list -----

  /** `free` is the chain that starts at `head` and ends in the length of the table. */
  ghost predicate Chain(ids: seq<int>, free: seq<int>, head: int) {
    && head == (if free == [] then |ids| else free[0])
    && (forall k :: 0 <= k < |free| ==> 1 <= free[k] < |ids|)
    && (forall k :: 0 <= k < |free| ==> ids[free[k]] == -(if k + 1 < |free| then free[k + 1] else |ids|))
    && (forall j, k :: 0 <= j < k < |free| ==> free[j] != free[k])
  }

  /** The ids 1, 2, ... split into those on the chain and the `live` ones. */
  ghost predicate Table(ids: seq<int>, free: seq<int>, head: int, live: set<int>) {
    && Chain(ids, free, head)
    && (forall i :: 1 <= i < |ids| ==> (i in free <==> i !in live))
    && (forall i :: i in live ==> 1 <= i < |ids|)
  }

  ghost function LiveIds(v: seq<Slot>): set<int> { set s | 0 <= s < |v| :: v[s].id }

  lemma PopTable(ids: seq<int>, free: seq<int>, live: set<int>)
    requires free != [] && Table(ids, free, free[0], live)
    ensures Table(ids, free[1..], -ids[free[0]], live + {free[0]})
  {
    assert free == [free[0]] + free[1..];
    assert ids[free[0]] == -(if 1 < |free| then free[1] else |ids|);
  }

  lemma PushTable(ids: seq<int>, free: seq<int>, head: int, live: set<int>, id: int)
    requires Table(ids, free, head, live) && id in live
    ensures Table(ids[id := -head], [id] + free, id, live - {id})
  {
    var free' := [id] + free;
    assert forall k :: 1 <= k < |free'| ==> free'[k] == free[k - 1];
    forall i ensures i in free' <==> i == id || i in free {
      if i in free { var k :| 0 <= k < |free| && free[k] == i; assert free'[k + 1] == i; }
      assert free'[0] == id;
    }
  }

  /** The ids a table of n entries gains by doubling. */
  ghost function UpperHalf(n: nat): seq<int> { seq(n, i => n + i) }

  lemma GrowTable(ids: seq<int>, ids': seq<int>, free: seq<int>, head: int, live: set<int>)
    requires |ids'| == 2 * |ids| && ids'[..|ids|] == ids
    requires forall j :: |ids| <= j < |ids'| ==> ids'[j] == -(j + 1)
    requires Table(ids, free, head, live) && |ids| > 0
    ensures Table(ids', free + UpperHalf(|ids|), head, live)
  {
    var n := |ids|;
    var free' := free + UpperHalf(n);
    forall j | 0 <= j < n ensures ids'[j] == ids[j] { assert ids'[..n][j] == ids'[j]; }
    assert forall k :: 0 <= k < |free| ==> free'[k] == free[k];
    assert forall k :: |free| <= k < |free'| ==> free'[k] == n + k - |free|;
    forall i | n <= i < 2 * n ensures i in free' { assert free'[|free| + i - n] == i; }
  }

  lemma SameMembers(w: seq<Slot>, u: seq<Slot>)
    requires multiset(w) == multiset(u)
    ensures LiveIds(w) == LiveIds(u)
    ensures forall x :: x in w <==> x in u
  {
    forall x ensures x in w <==> x in u {
      assert x in w <==> x in multiset(w);
      assert x in u <==> x in multiset(u);
    }
    forall i | i in LiveIds(w) ensures i in LiveIds(u) {
      var s :| 0 <= s < |w| && w[s].id == i;
      assert w[s] in u;
    }
    forall i | i in LiveIds(u) ensures i in LiveIds(w) {
      var s :| 0 <= s < |u| && u[s].id == i;
      assert u[s] in w;
    }
  }

  // ----- taking a slot out -----

  /** The heap without slot k: the last slot takes its place. */
  ghost function Without(v: seq<Slot>, k: nat): (w: seq<Slot>)
    requires k < |v|
    ensures |w| == |v| - 1 && multiset(w) == multiset(v) - multiset{v[k]}
  {
    var n := |v| - 1;
    assert v == v[..n] + [v[n]];
    if k == n then v[..n] else
      assert multiset(v[..n][k := v[n]]) == multiset(v[..n]) - multiset{v[k]} + multiset{v[n]};
      v[..n][k := v[n]]
  }

  /** The order with the filled gap k still to be repaired: it goes down unless it is earlier
      than its parent, and then it goes up. */
  ghost predicate OrderedBut(v: seq<Slot>, k: nat) {
    && k <= |v|
    && (k == |v| ==> Ordered(v))
    && (k < |v| && Gte(v[k].value, v[Parent(k)].value) ==> OrderedDown(v, k))
    && (k < |v| && !Gte(v[k].value, v[Parent(k)].value) ==> OrderedUp(v, k))
  }

  lemma OrderWithout(v: seq<Slot>, k: nat)
    requires k < |v| && Ordered(v)
    ensures OrderedBut(Without(v, k), k)
  {
    var w := Without(v, k);
    if k < |v| - 1 {
      assert forall s :: 0 <= s < |w| && s != k ==> w[s] == v[s];
      assert Bridged(w, k) by {
        forall s | 1 <= s < |w| && Parent(s) == k && 1 <= k ensures Lte(w[Parent(k)].value, w[s].value) {
          assert Lte(v[Parent(k)].value, v[k].value) && Lte(v[Parent(s)].value, v[s].value);
        }
      }
    }
  }

  class TimerHeap {
    var maxSize: nat
    var curSize: nat
    var maxPerPoll: nat
    var heap: array<Entry?>
    var timerIds: array<int>
    var freelist: int
    ghost var slots: seq<Slot>   // the heap, by slot
    ghost var free: seq<int>     // the ids on the free list, in order

    /** The entries of v carry the ids and expiries v says. */
    static ghost predicate Faithful(v: seq<Slot>)
      reads set s | s in v :: s.entry
    {
      forall s :: 0 <= s < |v| ==> v[s].entry.timerId == v[s].id && v[s].entry.value == v[s].value
    }

    /** copy_node */
    method CopyNode(slot: nat, moved: Entry)
      requires slot < heap.Length && 0 <= moved.timerId < timerIds.Length
      modifies heap, timerIds
      ensures heap[..] == old(heap[..])[slot := moved]
      ensures timerIds[..] == old(timerIds[..])[moved.timerId := slot]
    {
      heap[slot] := moved;
      timerIds[moved.timerId] := slot;
    }

    /** A copy_node in the middle of a reheap: the entry of slot c fills the gap at k. */
    method MoveNode(k: nat, c: nat, e: Entry, ghost v: seq<Slot>, ghost base: seq<int>, ghost live: set<int>)
      returns (ghost w: seq<Slot>)
      requires k < |v| && c < |v| && k != c && v[c].entry == e && Faithful(v)
      requires Holds(heap[..], timerIds[..], v, k, base, live)
      modifies heap, timerIds
      ensures w == Swapped(v, k, c) && Faithful(w)
      ensures Holds(heap[..], timerIds[..], w, c, base, live)
    {
      MoveGap(heap[..], timerIds[..], v, k, c, base, live);
      CopyNode(k, e);
      w := Swapped(v, k, c);
    }

    /** The last copy_node of a reheap. */
    method PlaceNode(k: nat, e: Entry, ghost v: seq<Slot>, ghost base: seq<int>, ghost live: set<int>)
      requires k < |v| && v[k].entry == e && Faithful(v)
      requires Holds(heap[..], timerIds[..], v, k, base, live)
      modifies heap, timerIds
      ensures Holds(heap[..], timerIds[..], v, -1, base, live)
    {
      FillGap(heap[..], timerIds[..], v, k, base, live);
      CopyNode(k, e);
    }

    lemma HeapAt(v: seq<Slot>, k: int, s: nat, base: seq<int>, live: set<int>)
      requires s < |v| && s != k && Holds(heap[..], timerIds[..], v, k, base, live)
      ensures s < heap.Length && heap[s] == v[s].entry
    {
      assert heap[..][s] == v[s].entry;
    }

    /** reheap_up: the entry for slot k climbs until its parent is no later. `v0` is the
        heap with that entry in place; the array may hold anything at k. */
    method ReheapUp(moved: Entry, k: nat, ghost v0: seq<Slot>, ghost base: seq<int>, ghost live: set<int>)
      returns (ghost v: seq<Slot>)
      requires k < |v0| && v0[k].entry == moved && Faithful(v0)
      requires Holds(heap[..], timerIds[..], v0, k, base, live) && OrderedUp(v0, k)
      modifies heap, timerIds
      ensures |v| == |v0| && multiset(v) == multiset(v0) && Ordered(v) && Faithful(v)
      ensures Holds(heap[..], timerIds[..], v, -1, base, live)
    {
      v := v0;
      var slot, parent := k, Parent(k);
      while slot > 0
        invariant 0 <= slot < |v| && parent == Parent(slot) && |v| == |v0| && multiset(v) == multiset(v0)
        invariant v[slot] == v0[k] && Faithful(v)
        invariant Holds(heap[..], timerIds[..], v, slot, base, live) && OrderedUp(v, slot)
      {
        HeapAt(v, slot, parent, base, live);
        var above := heap[parent];
        if !Lt(moved.value, above.value) { break; }
        ClimbStep(v, slot);
        v := MoveNode(slot, parent, above, v, base, live);
        slot := parent;
        parent := Parent(slot);
      }
      PlaceNode(slot, moved, v, base, live);
    }

    /** The earlier of the two children of slot k. */
    method EarlierChild(k: nat, ghost v: seq<Slot>, ghost base: seq<int>, ghost live: set<int>) returns (c: nat)
      requires |v| == curSize && 2 * k + 1 < curSize && Faithful(v)
      requires Holds(heap[..], timerIds[..], v, k, base, live)
      ensures k < c < curSize <= heap.Length && Parent(c) == k && heap[c] == v[c].entry
      ensures forall s :: 1 <= s < |v| && Parent(s) == k ==> Lte(v[c].value, v[s].value)
    {
      c := 2 * k + 1;
      HeapAt(v, k, c, base, live);
      if c + 1 < curSize {
        HeapAt(v, k, c + 1, base, live);
        if Lt(heap[c + 1].value, heap[c].value) {
          c := c + 1;
        }
      }
    }

    /** reheap_down: the entry for slot k sinks until its children are no earlier. */
    method ReheapDown(moved: Entry, k: nat, ghost v0: seq<Slot>, ghost base: seq<int>, ghost live: set<int>)
      returns (ghost v: seq<Slot>)
      requires k < |v0| == curSize && v0[k].entry == moved && Faithful(v0)
      requires Holds(heap[..], timerIds[..], v0, k, base, live) && OrderedDown(v0, k)
      modifies heap, timerIds
      ensures |v| == |v0| && multiset(v) == multiset(v0) && Ordered(v) && Faithful(v)
      ensures Holds(heap[..], timerIds[..], v, -1, base, live)
    {
      v := v0;
      var slot := k;
      while 2 * slot + 1 < curSize
        invariant 0 <= slot < |v| && |v| == |v0| == curSize && multiset(v) == multiset(v0)
        invariant v[slot] == v0[k] && Faithful(v)
        invariant Holds(heap[..], timerIds[..], v, slot, base, live) && OrderedDown(v, slot)
        decreases curSize - slot
      {
        var child := EarlierChild(slot, v, base, live);
        var below := heap[child];
        if !Lt(below.value, moved.value) { break; }
        SinkStep(v, slot, child);
        v := MoveNode(slot, child, below, v, base, live);
        slot := child;
      }
      PlaceNode(slot, moved, v, base, live);
    }

    // ----- the invariant and the operations -----

    ghost predicate Valid()
      reads this, heap, timerIds, set s | s in slots :: s.entry
    {
      && heap.Length == timerIds.Length == maxSize
      && |slots| == curSize && curSize + 1 < maxSize
      && Faithful(slots) && Ordered(slots) && AllNormal(slots)
      && Holds(heap[..], timerIds[..], slots, -1, timerIds[..], LiveIds(slots))
      && Table(timerIds[..], free, freelist, LiveIds(slots)) && |free| + curSize == maxSize - 1
    }

    /** timer_heap_create */
    constructor (size: nat)
      ensures Valid() && slots == [] && maxPerPoll == 64 && fresh(heap) && fresh(timerIds)
    {
      var max := size + 2;
      maxSize := max;
      curSize := 0;
      maxPerPoll := 64;
      freelist := 1;
      heap := new Entry?[max](_ => null);
      var ids: array<int> := new int[max];
      for i := 0 to max
        invariant forall j :: 0 <= j < i ==> ids[j] == -(j + 1)
      {
        ids[i] := -(i + 1);
      }
      timerIds := ids;
      slots := [];
      free := seq(max - 1, i => i + 1);
      new;
      forall i | 1 <= i < maxSize ensures i in free { assert free[i - 1] == i; }
    }

    /** pop_freelist: the id taken is not live. */
    method PopFreelist(ghost live: set<int>) returns (id: int)
      requires Table(timerIds[..], free, freelist, live) && free != []
      modifies this`freelist, this`free
      ensures free == old(free)[1..] && id == old(free)[0] && id !in live
      ensures Table(timerIds[..], free, freelist, live + {id})
    {
      PopTable(timerIds[..], free, live);
      id := freelist;
      freelist := -timerIds[freelist];
      free := free[1..];
    }

    /** push_freelist */
    method PushFreelist(id: int, ghost live: set<int>)
      requires Table(timerIds[..], free, freelist, live) && id in live
      modifies this`freelist, this`free, timerIds
      ensures free == [id] + old(free) && timerIds[..] == old(timerIds[..])[id := -old(freelist)]
      ensures Table(timerIds[..], free, freelist, live - {id})
    {
      PushTable(timerIds[..], free, freelist, live, id);
      timerIds[id] := -freelist;
      freelist := id;
      free := [id] + free;
    }

    /** grow_heap, which runs with one id taken off the free list and not yet placed. */
    method GrowHeap(ghost live: set<int>)
      requires heap.Length == timerIds.Length == maxSize > 0
      requires Table(timerIds[..], free, freelist, live)
      modifies this`heap, this`timerIds, this`maxSize, this`free
      ensures maxSize == 2 * old(maxSize) && heap.Length == timerIds.Length == maxSize && fresh(heap) && fresh(timerIds)
      ensures heap[..old(maxSize)] == old(heap[..]) && timerIds[..old(maxSize)] == old(timerIds[..])
      ensures Table(timerIds[..], free, freelist, live) && |free| == |old(free)| + old(maxSize)
    {
      var newSize := maxSize * 2;
      var newHeap := Enlarged<Entry?>(heap, newSize, null);
      var newIds := Enlarged(timerIds, newSize, 0);
      for i := maxSize to newSize
        modifies newIds
        invariant newIds[..maxSize] == timerIds[..]
        invariant forall j :: maxSize <= j < i ==> newIds[j] == -(j + 1)
      {
        newIds[i] := -(i + 1);
      }
      GrowTable(timerIds[..], newIds[..], free, freelist, live);
      free := free + UpperHalf(maxSize);
      heap := newHeap;
      timerIds := newIds;
      maxSize := newSize;
    }

    /** schedule_entry: takes an id, stores the expiry, and lets the entry climb in. The
        failure branch for a full heap is never reached. */
    method ScheduleEntry(entry: Entry, futureTime: TimeVal) returns (status: int)
      requires Valid() && entry.timerId < 1 && Normal(futureTime)
      modifies this, heap, timerIds, entry
      ensures Valid() && status == 0
      ensures entry.timerId >= 1 && entry.timerId !in old(LiveIds(slots))
      ensures multiset(slots) == old(multiset(slots)) + multiset{Slot(entry, entry.timerId, futureTime)}
      ensures (heap == old(heap) || fresh(heap)) && (timerIds == old(timerIds) || fresh(timerIds))
      ensures maxPerPoll == old(maxPerPoll)
    {
      if curSize >= maxSize {
        return -1;
      }
      var id := TakeId(entry, futureTime);
      InsertNode(entry, Slot(entry, id, futureTime));
      status := 0;
    }

    /** The entry gets its id and its expiry, and the heap room for it. */
    method TakeId(entry: Entry, futureTime: TimeVal) returns (id: int)
      requires Valid() && entry.timerId < 1
      modifies this`heap, this`timerIds, this`maxSize, this`free, this`freelist, entry
      ensures heap.Length == timerIds.Length == maxSize && |slots| == curSize && curSize + 2 < maxSize
      ensures id >= 1 && id !in LiveIds(slots) && entry.timerId == id && entry.value == futureTime
      ensures Faithful(slots) && Ordered(slots) && AllNormal(slots) && |free| + curSize == maxSize - 2
      ensures Holds(heap[..], timerIds[..], slots, -1, timerIds[..], LiveIds(slots))
      ensures Table(timerIds[..], free, freelist, LiveIds(slots) + {id})
      ensures (heap == old(heap) || fresh(heap)) && (timerIds == old(timerIds) || fresh(timerIds))
    {
      NotScheduled(entry);
      id := PopFreelist(LiveIds(slots));
      entry.timerId := id;
      entry.value := futureTime;
      MakeRoom(LiveIds(slots) + {id});
    }

    lemma NotScheduled(entry: Entry)
      requires Valid() && entry.timerId < 1
      ensures forall s :: 0 <= s < |slots| ==> slots[s].entry != entry
    {
    }

    /** The growing done by insert_node. */
    method MakeRoom(ghost live: set<int>)
      requires heap.Length == timerIds.Length == maxSize && |slots| == curSize && curSize + 1 < maxSize
      requires Holds(heap[..], timerIds[..], slots, -1, timerIds[..], LiveIds(slots))
      requires Table(timerIds[..], free, freelist, live) && |free| + curSize == maxSize - 2
      modifies this`heap, this`timerIds, this`maxSize, this`free
      ensures heap.Length == timerIds.Length == maxSize && curSize + 2 < maxSize
      ensures Holds(heap[..], timerIds[..], slots, -1, timerIds[..], LiveIds(slots))
      ensures Table(timerIds[..], free, freelist, live) && |free| + curSize == maxSize - 2
      ensures (heap == old(heap) || fresh(heap)) && (timerIds == old(timerIds) || fresh(timerIds))
    {
      if curSize + 2 >= maxSize {
        GrowHeap(live);
        HoldsEnlarged(old(heap[..]), old(timerIds[..]), heap[..], timerIds[..], slots);
      }
    }

    /** The rest of insert_node: the entry climbs in from the first slot after the last. */
    method InsertNode(entry: Entry, ghost slot: Slot)
      requires heap.Length == timerIds.Length == maxSize && |slots| == curSize && curSize + 2 < maxSize
      requires slot.entry == entry && entry.timerId == slot.id && entry.value == slot.value && Normal(slot.value)
      requires Faithful(slots) && Ordered(slots) && AllNormal(slots)
      requires Holds(heap[..], timerIds[..], slots, -1, timerIds[..], LiveIds(slots))
      requires slot.id !in LiveIds(slots) && |free| + curSize == maxSize - 2
      requires Table(timerIds[..], free, freelist, LiveIds(slots) + {slot.id})
      modifies this`slots, this`curSize, heap, timerIds
      ensures Valid() && multiset(slots) == old(multiset(slots)) + multiset{slot}
    {
      ghost var base, v0 := timerIds[..], slots + [slot];
      OpenGap(heap[..], base, slots, slot);
      ghost var v := ReheapUp(entry, curSize, v0, base, LiveIds(v0));
      CloseGap(heap[..], base, timerIds[..], free, freelist, v0, v);
      slots := v;
      curSize := curSize + 1;
    }

    /** All of the invariant that is left while slot k waits to be filled. */
    ghost predicate ValidBut(k: nat)
      reads this, heap, timerIds, set s | s in slots :: s.entry
    {
      && heap.Length == timerIds.Length == maxSize && |slots| == curSize && curSize + 1 < maxSize
      && Faithful(slots) && AllNormal(slots) && |free| + curSize == maxSize - 1
      && Holds(heap[..], timerIds[..], slots, k, timerIds[..], LiveIds(slots))
      && Table(timerIds[..], free, freelist, LiveIds(slots))
    }

    /** remove_node: gives the id back and fills the slot with the last entry, which then
        moves down or up as its expiry demands. */
    method RemoveNode(slot: nat) returns (removed: Entry)
      requires Valid() && slot < curSize
      modifies this`freelist, this`free, this`slots, this`curSize, heap, timerIds, slots[slot].entry
      ensures Valid() && removed == old(slots)[slot].entry
      ensures removed.timerId == -1 && removed.value == old(removed.value)
      ensures multiset(slots) == old(multiset(slots)) - multiset{old(slots)[slot]}
    {
      ghost var before := slots;
      removed := Detach(slot);
      assert multiset(slots) == multiset(before) - multiset{before[slot]};
      FillOrClose(slot);
    }

    method FillOrClose(slot: nat)
      requires ValidBut(slot) && slot <= curSize && (slot < curSize ==> heap[curSize] == slots[slot].entry)
      requires OrderedBut(slots, slot)
      modifies this`slots, heap, timerIds
      ensures Valid() && multiset(slots) == old(multiset(slots))
    {
      if slot < curSize {
        Refill(slot);
      } else {
        NoGapLeft(slot);
      }
    }

    lemma NoGapLeft(k: nat)
      requires ValidBut(k) && k >= curSize && Ordered(slots)
      ensures Valid()
    {
    }

    method Detach(slot: nat) returns (removed: Entry)
      requires Valid() && slot < curSize
      modifies this`freelist, this`free, this`slots, this`curSize, timerIds, slots[slot].entry
      ensures ValidBut(slot) && slot <= curSize && OrderedBut(slots, slot) && removed == old(slots)[slot].entry
      ensures multiset(slots) == old(multiset(slots)) - multiset{old(slots)[slot]}
      ensures removed.timerId == -1 && removed.value == old(removed.value)
      ensures slot < curSize ==> heap[curSize] == slots[slot].entry
    {
      OrderWithout(slots, slot);
      removed := Unhook(slot);
    }

    /** The last entry is due for the slot, the id goes back to the list. */
    method Unhook(slot: nat) returns (removed: Entry)
      requires Valid() && slot < curSize
      modifies this`freelist, this`free, this`slots, this`curSize, timerIds, slots[slot].entry
      ensures ValidBut(slot) && slots == Without(old(slots), slot) && removed == old(slots)[slot].entry
      ensures removed.timerId == -1 && removed.value == old(removed.value)
      ensures slot < curSize ==> heap[curSize] == slots[slot].entry
    {
      ghost var v := slots;
      removed := heap[slot];
      assert heap[..][slot] == removed == v[slot].entry;
      assert heap[..][curSize - 1] == v[curSize - 1].entry;
      DistinctEntries(v, slot);
      PushFreelist(removed.timerId, LiveIds(slots));
      HoldsWithout(heap[..], old(timerIds[..]), timerIds[..], v, slot);
      curSize := curSize - 1;
      removed.timerId := -1;
      slots := Without(v, slot);
    }

    lemma DistinctEntries(v: seq<Slot>, k: nat)
      requires k < |v| && Faithful(v) && Holds(heap[..], timerIds[..], v, -1, timerIds[..], LiveIds(v)) && AllNormal(v)
      ensures forall s :: 0 <= s < |Without(v, k)| ==> Without(v, k)[s] in v && Without(v, k)[s].entry != v[k].entry
      ensures AllNormal(Without(v, k))
    {
      forall s | 0 <= s < |Without(v, k)| ensures Without(v, k)[s] in v && Without(v, k)[s].entry != v[k].entry {
        var t := if s == k then |v| - 1 else s;
        assert Without(v, k)[s] == v[t] && t != k;
        assert timerIds[..][v[t].id] == t && timerIds[..][v[k].id] == k;
      }
    }

    /** The second half of remove_node, with the last entry due for the freed slot. */
    method Refill(slot: nat)
      requires ValidBut(slot) && slot < curSize && heap[curSize] == slots[slot].entry
      requires OrderedBut(slots, slot)
      modifies this`slots, heap, timerIds
      ensures Valid() && multiset(slots) == old(multiset(slots))
    {
      ghost var base, w := timerIds[..], slots;
      var moved := heap[curSize];
      PlaceNode(slot, moved, w, base, LiveIds(w));
      ghost var v := Reheap(moved, slot, w, base, LiveIds(w));
      CloseGap(heap[..], base, timerIds[..], free, freelist, w, v);
      slots := v;
    }

    method Reheap(moved: Entry, slot: nat, ghost w: seq<Slot>, ghost base: seq<int>, ghost live: set<int>)
      returns (ghost v: seq<Slot>)
      requires slot < |w| == curSize && w[slot].entry == moved && Faithful(w)
      requires OrderedBut(w, slot)
      requires Holds(heap[..], timerIds[..], w, -1, base, live)
      modifies heap, timerIds
      ensures |v| == |w| && multiset(v) == multiset(w) && Ordered(v) && Faithful(v)
      ensures Holds(heap[..], timerIds[..], v, -1, base, live)
    {
      var parent := Parent(slot);
      HeapAt(w, -1, parent, base, live);
      Reopen(heap[..], timerIds[..], w, slot, base, live);
      if Gte(moved.value, heap[parent].value) {
        v := ReheapDown(moved, slot, w, base, live);
      } else {
        v := ReheapUp(moved, slot, w, base, live);
      }
    }

    // ----- the public operations -----

    ghost predicate Scheduled(entry: Entry)
      reads this
    {
      exists s :: 0 <= s < |slots| && slots[s].entry == entry
    }

    /** timer_heap_schedule; `now` is the clock. */
    method Schedule(entry: Entry, delay: TimeVal, now: TimeVal) returns (status: int)
      requires Valid()
      modifies this, heap, timerIds, entry
      ensures Valid() && maxPerPoll == old(maxPerPoll)
      ensures status == if entry.hasCallback && old(entry.timerId) < 1 then 0 else EINVAL
      ensures status != 0 ==> && slots == old(slots) && entry.timerId == old(entry.timerId)
                              && entry.value == old(entry.value)
      ensures status == 0 ==> entry.timerId >= 1 && entry.timerId !in old(LiveIds(slots))
      ensures status == 0 ==> Normal(entry.value) && Ms(entry.value) == Ms(now) + Ms(delay)
      ensures status == 0 ==>
                multiset(slots) == old(multiset(slots)) + multiset{Slot(entry, entry.timerId, entry.value)}
      ensures (heap == old(heap) || fresh(heap)) && (timerIds == old(timerIds) || fresh(timerIds))
    {
      if !entry.hasCallback || entry.timerId >= 1 {
        return EINVAL;
      }
      var expires := Normalize(TimeVal(now.sec + delay.sec, now.msec + delay.msec));
      status := ScheduleEntry(entry, expires);
      assert Slot(entry, entry.timerId, expires) in multiset(slots);
    }

    /** timer_heap_cancel. Entries carry -1 unless they are in the heap, so the off-by-one
        range check is never put to the test. */
    method Cancel(entry: Entry) returns (count: int)
      requires Valid() && (entry.timerId < 0 || Scheduled(entry))
      modifies this, heap, timerIds, entry
      ensures Valid() && entry.timerId == -1 && maxPerPoll == old(maxPerPoll)
      ensures count == if old(Scheduled(entry)) then 1 else 0
      ensures count == 0 ==> slots == old(slots)
      ensures count == 1 ==>
                multiset(slots) == old(multiset(slots)) - multiset{Slot(entry, old(entry.timerId), old(entry.value))}
      ensures heap == old(heap) && timerIds == old(timerIds)
    {
      if entry.timerId < 0 || entry.timerId > maxSize {
        NotScheduled(entry);
        entry.timerId := -1;
        return 0;
      }
      ghost var s :| 0 <= s < |slots| && slots[s].entry == entry;
      assert timerIds[..][slots[s].id] == s && heap[..][s] == entry;
      var slot := timerIds[entry.timerId];
      if slot < 0 || entry != heap[slot] {
        assert false;  // a stale id: the source drops it, but no entry ever holds one
      }
      var _ := RemoveNode(slot);
      return 1;
    }

    /** Idle entries are in no slot. */
    lemma NotIn(entry: Entry)
      requires Valid() && entry.timerId < 1
      ensures entry !in Entries(slots)
    {
    }

    lemma RootInHeap()
      requires Valid() && curSize > 0
      ensures heap[0] == slots[0].entry && slots[0].entry.value == slots[0].value && slots[0].entry.timerId >= 1
    {
      assert heap[..][0] == slots[0].entry;
    }

    /** The loop of timer_heap_poll. The k-th callback performs callbacks[k] on the heap, any
        schedules and cancels of any entries. What fires is due and each time the next on the
        agenda, and none that is due is left unless the limit was reached; with callbacks that
        leave the heap alone the timers fire in order and none is lost. */
    method FireDue(now: TimeVal, callbacks: seq<seq<HeapOp>>, ghost es: set<Entry>, ghost a: Agenda)
      returns (count: nat, ghost fired: seq<Slot>)
      requires Valid() && Managed(this, es) && AllKnown(callbacks, es) && Agrees(slots, a)
      modifies this, heap, timerIds, es
      ensures Valid() && Managed(this, es) && count == |fired| <= maxPerPoll == old(maxPerPoll)
      ensures (heap == old(heap) || fresh(heap)) && (timerIds == old(timerIds) || fresh(timerIds))
      ensures AllDue(fired, now)
      ensures count < maxPerPoll ==> forall s :: 0 <= s < |slots| ==> !Lte(slots[s].value, now)
      ensures Quiet(callbacks) ==> Fired(fired, slots, now, old(multiset(slots)))
      ensures FiresRight(a, callbacks, fired) && Agrees(slots, AfterFires(a, callbacks, fired))
    {
      if curSize > 0 { RootInHeap(); }
      count, fired := FireLoop(now, callbacks, es, a);
      assert Unsealed(Upkeep, 0);
      if curSize > 0 && count < maxPerPoll { NoneDue(slots, now); }
    }

    method FireLoop(now: TimeVal, callbacks: seq<seq<HeapOp>>, ghost es: set<Entry>, ghost a: Agenda)
      returns (count: nat, ghost fired: seq<Slot>)
      requires Kept(es, a) && AllKnown(callbacks, es) && (curSize > 0 ==> RootFound())
      modifies this, heap, timerIds, es
      ensures count == |fired| <= maxPerPoll == old(maxPerPoll)
      ensures FiresRight(a, callbacks, fired) && Kept(es, AfterFires(a, callbacks, fired))
      ensures (heap == old(heap) || fresh(heap)) && (timerIds == old(timerIds) || fresh(timerIds))
      ensures AllDue(fired, now)
      ensures curSize > 0 && count < maxPerPoll ==> slots != [] && !Lte(slots[0].value, now)
      ensures Quiet(callbacks) ==> Fired(fired, slots, now, old(multiset(slots)))
    {
      count, fired := 0, [];
      ghost var total := multiset(slots);
      while curSize > 0 && Lte(heap[0].value, now) && count < maxPerPoll
        invariant count == |fired| <= maxPerPoll == old(maxPerPoll)
        invariant FiresRight(a, callbacks, fired) && Kept(es, AfterFires(a, callbacks, fired))
        invariant (heap == old(heap) || fresh(heap)) && (timerIds == old(timerIds) || fresh(timerIds))
        invariant curSize > 0 ==> RootFound()
        invariant AllDue(fired, now)
        invariant Quiet(callbacks) ==> Fired(fired, slots, now, total)
        decreases maxPerPoll - count
      {
        CallbackKnown(callbacks, count, es);
        FiresOn(a, callbacks, fired, slots[0]);
        ghost var v := slots;
        FireOne(Callback(callbacks, count), es, AfterFires(a, callbacks, fired));
        if Quiet(callbacks) { FireStep(fired, v, slots, now, total); }
        fired := fired + [v[0]];
        count := count + 1;
      }
    }

    ghost predicate RootFound()
      reads this, heap, set s | s in slots :: s.entry
    {
      && heap.Length > 0 && slots != [] && slots[0] in slots && heap[0] == slots[0].entry
      && slots[0].entry.value == slots[0].value && Normal(slots[0].value)
    }

    /** The invariant and the care for the entries, sealed. */
    ghost predicate Kept(es: set<Entry>, a: Agenda)
      reads this, heap, timerIds, es, set s | s in slots :: s.entry
    {
      forall i {:trigger Unsealed(Upkeep, i)} :: Unsealed(Upkeep, i) ==>
        Valid() && Managed(this, es) && Agrees(slots, a)
    }

    /** One round: the earliest timer leaves the heap and its callback runs. */
    method FireOne(callback: seq<HeapOp>, ghost es: set<Entry>, ghost a: Agenda)
      requires Kept(es, a) && curSize > 0 && slots != []
      requires forall o :: o in callback ==> o.entry in es
      modifies this, heap, timerIds, es
      ensures Kept(es, PlannedAll(a - {old(slots)[0].entry}, callback)) && IsNext(a, old(slots)[0])
      ensures maxPerPoll == old(maxPerPoll) && Ordered(old(slots))
      ensures callback == [] ==> multiset(slots) == old(multiset(slots)) - multiset{old(slots)[0]}
      ensures (heap == old(heap) || fresh(heap)) && (timerIds == old(timerIds) || fresh(timerIds))
      ensures curSize > 0 ==> RootFound()
    {
      assert Unsealed(Upkeep, 0);
      ghost var root := slots[0];
      NextIsRoot(slots, a);
      var node := FireRoot(es, a);
      if callback != [] { PerformAll(this, es, callback, a - {root.entry}); }
      if curSize > 0 { RootInHeap(); }
    }

    method FireRoot(ghost es: set<Entry>, ghost a: Agenda) returns (node: Entry)
      requires Valid() && Managed(this, es) && curSize > 0 && Agrees(slots, a)
      modifies this`freelist, this`free, this`slots, this`curSize, heap, timerIds, es
      ensures Valid() && Managed(this, es) && Ordered(old(slots)) && old(slots) != []
      ensures multiset(slots) == old(multiset(slots)) - multiset{old(slots)[0]}
      ensures Agrees(slots, a - {old(slots)[0].entry})
    {
      ghost var before := slots;
      assert before[0] in before;
      assert before[0].entry in Entries(before);
      node := RemoveNode(0);
      NotIn(node);
      AgreesTaken(before, slots, before[0], a);
    }

    /** timer_heap_poll: fires what is due and reports the delay until the next timer. */
    method Poll(now: TimeVal, callbacks: seq<seq<HeapOp>>, ghost es: set<Entry>, ghost a: Agenda)
      returns (count: nat, nextDelay: TimeVal, ghost fired: seq<Slot>)
      requires Valid() && Normal(now) && Managed(this, es) && AllKnown(callbacks, es) && Agrees(slots, a)
      modifies this, heap, timerIds, es
      ensures Valid() && Managed(this, es) && count == |fired| <= maxPerPoll == old(maxPerPoll)
      ensures (heap == old(heap) || fresh(heap)) && (timerIds == old(timerIds) || fresh(timerIds))
      ensures AllDue(fired, now)
      ensures Quiet(callbacks) ==> Fired(fired, slots, now, old(multiset(slots)))
      ensures FiresRight(a, callbacks, fired) && Agrees(slots, AfterFires(a, callbacks, fired))
      ensures count < maxPerPoll ==> forall s :: 0 <= s < |slots| ==> Ms(slots[s].value) > Ms(now)
      ensures slots == [] ==> nextDelay == TimeVal(0x7fff_ffff, 0x7fff_ffff)
      ensures slots != [] ==> Normal(nextDelay) && IsDelayToNext(nextDelay, slots, now)
    {
      fired := [];
      if curSize == 0 {
        NothingFired(slots, a, callbacks, now);
        return 0, TimeVal(INT32_MAX, INT32_MAX), [];
      }
      count, fired := FireByTotal(now, callbacks, es, a);
      nextDelay := DelayToNext(now);
    }

    /** What is due, by total milliseconds. */
    method FireByTotal(now: TimeVal, callbacks: seq<seq<HeapOp>>, ghost es: set<Entry>, ghost a: Agenda)
      returns (count: nat, ghost fired: seq<Slot>)
      requires Valid() && Normal(now) && Managed(this, es) && AllKnown(callbacks, es) && Agrees(slots, a)
      modifies this, heap, timerIds, es
      ensures Valid() && Managed(this, es) && count == |fired| <= maxPerPoll == old(maxPerPoll)
      ensures (heap == old(heap) || fresh(heap)) && (timerIds == old(timerIds) || fresh(timerIds))
      ensures AllDue(fired, now) && (Quiet(callbacks) ==> Fired(fired, slots, now, old(multiset(slots))))
      ensures FiresRight(a, callbacks, fired) && Agrees(slots, AfterFires(a, callbacks, fired))
      ensures count < maxPerPoll ==> forall s :: 0 <= s < |slots| ==> Ms(slots[s].value) > Ms(now)
    {
      count, fired := FireDue(now, callbacks, es, a);
      if count < maxPerPoll { LateByTotal(slots, now); }
    }

    /** The end of timer_heap_poll. */
    method DelayToNext(now: TimeVal) returns (nextDelay: TimeVal)
      requires Valid()
      ensures slots == [] ==> nextDelay == TimeVal(0x7fff_ffff, 0x7fff_ffff)
      ensures slots != [] ==> Normal(nextDelay) && IsDelayToNext(nextDelay, slots, now)
    {
      if curSize == 0 {
        return TimeVal(INT32_MAX, INT32_MAX);
      }
      RootInHeap();
      nextDelay := Remaining(heap[0].value, now);
      DelayIsToRoot(nextDelay, slots, now);
    }
  }

  ghost predicate AllDue(fired: seq<Slot>, now: TimeVal) {
    forall f :: 0 <= f < |fired| ==> Normal(fired[f].value) && Lte(fired[f].value, now)
  }

  /** What a poll may have fired so far: due timers, in order, none later than a timer
      still waiting; together with those, the timers there were. */
  ghost predicate Fired(fired: seq<Slot>, v: seq<Slot>, now: TimeVal, total: multiset<Slot>) {
    && multiset(v) + multiset(fired) == total
    && (forall f :: 0 <= f < |fired| ==> Lte(fired[f].value, now))
    && (forall f, g :: 0 <= f < g < |fired| ==> Lte(fired[f].value, fired[g].value))
    && (forall f, s :: 0 <= f < |fired| && 0 <= s < |v| ==> Lte(fired[f].value, v[s].value))
  }

  /** The delay is exactly max(0, earliest - now) in milliseconds. */
  ghost predicate IsDelayToNext(d: TimeVal, v: seq<Slot>, now: TimeVal) {
    && (exists s :: 0 <= s < |v| && Ms(d) == Max(0, Ms(v[s].value) - Ms(now)))
    && (forall s :: 0 <= s < |v| ==> Ms(d) <= Max(0, Ms(v[s].value) - Ms(now)))
  }

  function Max(a: int, b: int): int { if a > b then a else b }

  method Remaining(first: TimeVal, now: TimeVal) returns (d: TimeVal)
    ensures Normal(d) && Ms(d) == Max(0, Ms(first) - Ms(now))
  {
    d := Normalize(TimeVal(first.sec - now.sec, first.msec - now.msec));
    if d.sec < 0 || d.msec < 0 {
      d := TimeVal(0, 0);
    }
  }

  lemma DelayIsToRoot(d: TimeVal, v: seq<Slot>, now: TimeVal)
    requires |v| > 0 && Ordered(v) && AllNormal(v) && Ms(d) == Max(0, Ms(v[0].value) - Ms(now))
    ensures IsDelayToNext(d, v, now)
  {
    EarliestByTotal(v);
  }

  lemma EarliestByTotal(v: seq<Slot>)
    requires Ordered(v) && AllNormal(v)
    ensures forall s :: 0 <= s < |v| ==> Ms(v[0].value) <= Ms(v[s].value)
  {
    forall s | 0 <= s < |v| ensures Ms(v[0].value) <= Ms(v[s].value) {
      RootIsEarliest(v, s);
      ComparisonIsByTotal(v[0].value, v[s].value);
    }
  }

  lemma DueByTotal(v: seq<Slot>, now: TimeVal)
    requires AllNormal(v) && Normal(now)
    ensures forall s :: 0 <= s < |v| ==> (Lte(v[s].value, now) <==> Ms(v[s].value) <= Ms(now))
  {
    forall s | 0 <= s < |v| ensures Lte(v[s].value, now) <==> Ms(v[s].value) <= Ms(now) {
      ComparisonIsByTotal(v[s].value, now);
    }
  }

  lemma LateByTotal(v: seq<Slot>, now: TimeVal)
    requires AllNormal(v) && Normal(now) && forall s :: 0 <= s < |v| ==> !Lte(v[s].value, now)
    ensures forall s :: 0 <= s < |v| ==> Ms(v[s].value) > Ms(now)
  {
    DueByTotal(v, now);
  }

  lemma NothingFired(v: seq<Slot>, a: Agenda, callbacks: seq<seq<HeapOp>>, now: TimeVal)
    requires v == []
    ensures FiresRight(a, callbacks, []) && AfterFires(a, callbacks, []) == a
    ensures Fired([], v, now, multiset(v)) && AllDue([], now)
  {
  }

  lemma FireStep(fired: seq<Slot>, v: seq<Slot>, w: seq<Slot>, now: TimeVal, total: multiset<Slot>)
    requires Fired(fired, v, now, total) && |v| > 0 && Ordered(v) && Lte(v[0].value, now)
    requires multiset(w) == multiset(v) - multiset{v[0]}
    ensures Fired(fired + [v[0]], w, now, total)
  {
    forall s | 0 <= s < |w| ensures Lte(v[0].value, w[s].value) && w[s] in v {
      assert w[s] in multiset(w);
      assert w[s] in multiset(v);
      var t :| 0 <= t < |v| && v[t] == w[s];
      RootIsEarliest(v, t);
    }
    assert v[0] in multiset(v);
  }

  lemma NoneDue(v: seq<Slot>, now: TimeVal)
    requires Ordered(v) && |v| > 0 && !Lte(v[0].value, now)
    ensures forall s :: 0 <= s < |v| ==> !Lte(v[s].value, now)
  {
    forall s | 0 <= s < |v| ensures !Lte(v[s].value, now) {
      RootIsEarliest(v, s);
    }
  }

  lemma Reopen(heap: seq<Entry?>, ids: seq<int>, v: seq<Slot>, k: nat, base: seq<int>, live: set<int>)
    requires k < |v| && Holds(heap, ids, v, -1, base, live)
    ensures Holds(heap, ids, v, k, base, live)
  {
    assert ids[v[k].id] == k;
  }

  ghost predicate AllNormal(v: seq<Slot>) {
    forall s :: 0 <= s < |v| ==> Normal(v[s].value)
  }

  /** realloc */
  method Enlarged<T>(a: array<T>, n: nat, fill: T) returns (b: array<T>)
    requires a.Length <= n
    ensures fresh(b) && b.Length == n && b[..a.Length] == a[..]
  {
    b := new T[n](_ => fill);
    for i := 0 to a.Length
      invariant b[..i] == a[..i]
    {
      b[i] := a[i];
    }
  }

  lemma HoldsEnlarged(h: seq<Entry?>, ids: seq<int>, h': seq<Entry?>, ids': seq<int>, v: seq<Slot>)
    requires |h| == |ids| <= |h'| == |ids'| && h'[..|h|] == h && ids'[..|ids|] == ids
    requires Holds(h, ids, v, -1, ids, LiveIds(v))
    ensures Holds(h', ids', v, -1, ids', LiveIds(v))
  {
    forall j | 0 <= j < |h| ensures h'[j] == h[j] && ids'[j] == ids[j] {
      assert h'[..|h|][j] == h'[j] && ids'[..|ids|][j] == ids'[j];
    }
  }

  lemma OpenGap(heap: seq<Entry?>, ids: seq<int>, v: seq<Slot>, slot: Slot)
    requires |v| < |heap| && Ordered(v) && Holds(heap, ids, v, -1, ids, LiveIds(v))
    requires 1 <= slot.id < |ids| && slot.id !in LiveIds(v)
    ensures Holds(heap, ids, v + [slot], |v|, ids, LiveIds(v + [slot])) && OrderedUp(v + [slot], |v|)
    ensures LiveIds(v + [slot]) == LiveIds(v) + {slot.id}
  {
    var w := v + [slot];
    assert forall s :: 0 <= s < |v| ==> w[s] == v[s] && v[s].id in LiveIds(v);
    forall i | i in LiveIds(v) + {slot.id} ensures i in LiveIds(w) {
      if i == slot.id { assert w[|v|].id == i; } else { var s :| 0 <= s < |v| && v[s].id == i; assert w[s].id == i; }
    }
  }

  /** After a reheap the table is whole again: only live ids were rewritten. */
  lemma CloseGap(heap: seq<Entry?>, base: seq<int>, ids: seq<int>, free: seq<int>, head: int, v0: seq<Slot>,
                 v: seq<Slot>)
    requires Table(base, free, head, LiveIds(v0)) && multiset(v) == multiset(v0)
    requires Holds(heap, ids, v, -1, base, LiveIds(v0))
    ensures Holds(heap, ids, v, -1, ids, LiveIds(v)) && Table(ids, free, head, LiveIds(v))
    ensures AllNormal(v0) ==> AllNormal(v)
  {
    SameMembers(v, v0);
    forall s | 0 <= s < |v| && AllNormal(v0) ensures Normal(v[s].value) {
      assert v[s] in v0;
    }
  }

  /** With the id of slot k back on the free list, k is the only gap. */
  lemma HoldsWithout(heap: seq<Entry?>, ids: seq<int>, ids': seq<int>, v: seq<Slot>, k: nat)
    requires k < |v| && Holds(heap, ids, v, -1, ids, LiveIds(v))
    requires |ids'| == |ids| && forall i :: 0 <= i < |ids| && i != v[k].id ==> ids'[i] == ids[i]
    ensures Holds(heap, ids', Without(v, k), k, ids', LiveIds(Without(v, k)))
    ensures LiveIds(Without(v, k)) == LiveIds(v) - {v[k].id}
  {
    var w, n := Without(v, k), |v| - 1;
    assert forall s :: 0 <= s < n && s != k ==> w[s] == v[s];
    assert k < n ==> w[k] == v[n];
    forall i | i in LiveIds(w) ensures i in LiveIds(v) - {v[k].id} {
      var s :| 0 <= s < n && w[s].id == i;
      assert v[if s == k then n else s].id == i;
      assert ids[v[k].id] == k && ids[v[if s == k then n else s].id] == if s == k then n else s;
    }
    forall i | i in LiveIds(v) - {v[k].id} ensures i in LiveIds(w) {
      var s :| 0 <= s < |v| && v[s].id == i;
      assert w[if s == n then k else s].id == i;
    }
  }

  // ----- whole runs -----

  ghost function Entries(v: seq<Slot>): set<Entry> { set x | x in v :: x.entry }

  /** Which entries are scheduled, and when each is due, in milliseconds. */
  type Agenda = map<Entry, int>

  ghost predicate Agrees(v: seq<Slot>, a: Agenda) {
    && (forall x :: x in v ==> x.entry in a && a[x.entry] == Ms(x.value))
    && (forall e :: e in a ==> e in Entries(v))
  }

  /** What an operation does to the agenda. */
  ghost function Planned(a: Agenda, op: HeapOp): Agenda {
    match op
    case DoSchedule(e, delay, now) => if e.hasCallback && e !in a then a[e := Ms(now) + Ms(delay)] else a
    case DoCancel(e) => a - {e}
  }

  ghost function PlannedAll(a: Agenda, ops: seq<HeapOp>): Agenda {
    if ops == [] then a else Planned(PlannedAll(a, ops[..|ops| - 1]), ops[|ops| - 1])
  }

  /** The slot is due no later than any entry of the agenda. */
  ghost predicate IsNext(a: Agenda, x: Slot) {
    x.entry in a && a[x.entry] == Ms(x.value) && forall e :: e in a ==> a[x.entry] <= a[e]
  }

  /** The agenda after timers fired: each left it, and its callback changed it. */
  ghost function AfterFires(a: Agenda, callbacks: seq<seq<HeapOp>>, fired: seq<Slot>): Agenda {
    if fired == [] then a
    else
      var n := |fired| - 1;
      PlannedAll(AfterFires(a, callbacks, fired[..n]) - {fired[n].entry}, Callback(callbacks, n))
  }

  /** Whatever the callbacks do, each timer that fires is the next on the agenda of that moment. */
  ghost predicate FiresRight(a: Agenda, callbacks: seq<seq<HeapOp>>, fired: seq<Slot>) {
    fired == [] ||
    (var n := |fired| - 1;
     FiresRight(a, callbacks, fired[..n]) && IsNext(AfterFires(a, callbacks, fired[..n]), fired[n]))
  }

  lemma FiresOn(a: Agenda, callbacks: seq<seq<HeapOp>>, fired: seq<Slot>, x: Slot)
    ensures var b := AfterFires(a, callbacks, fired);
            && AfterFires(a, callbacks, fired + [x])
               == PlannedAll(b - {x.entry}, Callback(callbacks, |fired|))
            && (FiresRight(a, callbacks, fired + [x]) <==> FiresRight(a, callbacks, fired) && IsNext(b, x))
  {
    assert (fired + [x])[..|fired|] == fired;
  }

  lemma NextIsRoot(v: seq<Slot>, a: Agenda)
    requires v != [] && Ordered(v) && AllNormal(v) && Agrees(v, a)
    ensures IsNext(a, v[0])
  {
    EarliestByTotal(v);
    assert v[0] in v;
    forall e | e in a ensures a[v[0].entry] <= a[e] {
      var x :| x in v && x.entry == e;
      var s :| 0 <= s < |v| && v[s] == x;
    }
  }

  lemma AgreesAdded(v: seq<Slot>, w: seq<Slot>, slot: Slot, a: Agenda)
    requires Agrees(v, a) && multiset(w) == multiset(v) + multiset{slot} && slot.entry !in Entries(v)
    ensures Agrees(w, a[slot.entry := Ms(slot.value)]) && Entries(w) == Entries(v) + {slot.entry}
  {
    EntriesAdded(v, w, slot);
    forall x | x in w ensures x in v || x == slot {
      assert x in multiset(w);
    }
    forall x | x in v ensures x.entry != slot.entry {
      assert x.entry in Entries(v);
    }
  }

  lemma AgreesTaken(v: seq<Slot>, w: seq<Slot>, slot: Slot, a: Agenda)
    requires Agrees(v, a) && multiset(w) == multiset(v) - multiset{slot} && slot.entry !in Entries(w)
    ensures Agrees(w, a - {slot.entry}) && Entries(w) == Entries(v) - {slot.entry}
  {
    EntriesTaken(v, w, slot);
    forall x | x in w ensures x in v && x.entry != slot.entry {
      assert x in multiset(w);
      assert x in multiset(v);
      assert x.entry in Entries(w);
    }
  }

  /** Every entry is idle or in the heap, and the heap holds no others. */
  ghost predicate Managed(h: TimerHeap, es: set<Entry>)
    reads h, es
  {
    Entries(h.slots) <= es && forall e :: e in es ==> e.timerId == -1 || e in Entries(h.slots)
  }

  /** `now` is what the operation reads from the clock. */
  datatype HeapOp = DoSchedule(entry: Entry, delay: TimeVal, now: TimeVal) | DoCancel(entry: Entry)

  datatype TimerOp = DoOp(op: HeapOp) | DoPoll(now: TimeVal, callbacks: seq<seq<HeapOp>>)

  ghost predicate AllKnown(callbacks: seq<seq<HeapOp>>, es: set<Entry>) {
    forall c, o :: c in callbacks && o in c ==> o.entry in es
  }

  /** The callbacks leave the heap alone. */
  ghost predicate Quiet(callbacks: seq<seq<HeapOp>>) { forall c :: c in callbacks ==> c == [] }

  /** What the k-th callback does. */
  function Callback(callbacks: seq<seq<HeapOp>>, k: nat): seq<HeapOp> {
    if k < |callbacks| then callbacks[k] else []
  }

  lemma CallbackKnown(callbacks: seq<seq<HeapOp>>, k: nat, es: set<Entry>)
    requires AllKnown(callbacks, es)
    ensures forall o :: o in Callback(callbacks, k) ==> o.entry in es
    ensures Quiet(callbacks) ==> Callback(callbacks, k) == []
  {
    if k < |callbacks| { assert callbacks[k] in callbacks; }
  }

  ghost predicate Known(op: TimerOp, es: set<Entry>) {
    if op.DoOp? then op.op.entry in es else Normal(op.now) && AllKnown(op.callbacks, es)
  }

  /** The agenda after an operation on which the timers `fs` fired. */
  ghost function AgendaStep(a: Agenda, op: TimerOp, fs: seq<Slot>): Agenda {
    if op.DoOp? then Planned(a, op.op) else AfterFires(a, op.callbacks, fs)
  }

  /** A poll fires what is due, earliest first, and stops at the limit or when nothing is. */
  ghost predicate StepRight(a: Agenda, op: TimerOp, fs: seq<Slot>, limit: nat) {
    match op
    case DoOp(_) => fs == []
    case DoPoll(now, callbacks) =>
      && |fs| <= limit && FiresRight(a, callbacks, fs)
      && (forall f :: 0 <= f < |fs| ==> Ms(fs[f].value) <= Ms(now))
      && (|fs| < limit ==> forall e :: e in AgendaStep(a, op, fs) ==> AgendaStep(a, op, fs)[e] > Ms(now))
  }

  ghost function AgendaAfter(a: Agenda, ops: seq<TimerOp>, fired: seq<seq<Slot>>): Agenda
    requires |fired| == |ops|
  {
    if ops == [] then a
    else
      var n := |ops| - 1;
      AgendaStep(AgendaAfter(a, ops[..n], fired[..n]), ops[n], fired[n])
  }

  ghost predicate Plays(a: Agenda, ops: seq<TimerOp>, fired: seq<seq<Slot>>, limit: nat)
    requires |fired| == |ops|
  {
    ops == [] ||
    (var n := |ops| - 1;
     Plays(a, ops[..n], fired[..n], limit) && StepRight(AgendaAfter(a, ops[..n], fired[..n]), ops[n], fired[n], limit))
  }

  lemma PlaysOn(a: Agenda, ops: seq<TimerOp>, i: nat, fired: seq<seq<Slot>>, fs: seq<Slot>, limit: nat)
    requires i < |ops| && |fired| == i && Plays(a, ops[..i], fired, limit)
    requires StepRight(AgendaAfter(a, ops[..i], fired), ops[i], fs, limit)
    ensures Plays(a, ops[..i + 1], fired + [fs], limit)
    ensures AgendaAfter(a, ops[..i + 1], fired + [fs]) == AgendaStep(AgendaAfter(a, ops[..i], fired), ops[i], fs)
  {
    assert ops[..i + 1][..i] == ops[..i] && (fired + [fs])[..i] == fired;
  }

  /** Any run keeps the invariant (heap order, inverse index, the partition of the ids) and does
      to the heap what it does to the agenda. Callbacks may schedule and cancel any entries. */
  method Drive(h: TimerHeap, es: set<Entry>, ops: seq<TimerOp>, ghost a: Agenda) returns (ghost fired: seq<seq<Slot>>)
    requires h.Valid() && Managed(h, es) && forall i :: 0 <= i < |ops| ==> Known(ops[i], es)
    requires Agrees(h.slots, a)
    modifies h, h.heap, h.timerIds, es
    ensures h.Valid() && Managed(h, es) && h.maxPerPoll == old(h.maxPerPoll)
    ensures |fired| == |ops| && Plays(a, ops, fired, h.maxPerPoll) && Agrees(h.slots, AgendaAfter(a, ops, fired))
  {
    fired := [];
    for i := 0 to |ops|
      invariant h.Valid() && Managed(h, es) && h.maxPerPoll == old(h.maxPerPoll)
      invariant (h.heap == old(h.heap) || fresh(h.heap)) && (h.timerIds == old(h.timerIds) || fresh(h.timerIds))
      invariant |fired| == i && Plays(a, ops[..i], fired, h.maxPerPoll)
      invariant Agrees(h.slots, AgendaAfter(a, ops[..i], fired))
    {
      ghost var fs := DriveOne(h, es, ops[i], AgendaAfter(a, ops[..i], fired));
      PlaysOn(a, ops, i, fired, fs, h.maxPerPoll);
      fired := fired + [fs];
    }
    assert ops[..|ops|] == ops;
  }

  method DriveOne(h: TimerHeap, ghost es: set<Entry>, op: TimerOp, ghost a: Agenda) returns (ghost fs: seq<Slot>)
    requires h.Valid() && Managed(h, es) && Known(op, es) && Agrees(h.slots, a)
    modifies h, h.heap, h.timerIds, es
    ensures h.Valid() && Managed(h, es) && h.maxPerPoll == old(h.maxPerPoll)
    ensures (h.heap == old(h.heap) || fresh(h.heap)) && (h.timerIds == old(h.timerIds) || fresh(h.timerIds))
    ensures StepRight(a, op, fs, h.maxPerPoll) && Agrees(h.slots, AgendaStep(a, op, fs))
  {
    fs := [];
    match op {
      case DoOp(heapOp) => Perform(h, es, heapOp, a);
      case DoPoll(now, callbacks) => fs := DrivePoll(h, es, now, callbacks, a);
    }
  }

  method DrivePoll(h: TimerHeap, ghost es: set<Entry>, now: TimeVal, callbacks: seq<seq<HeapOp>>, ghost a: Agenda)
    returns (ghost fs: seq<Slot>)
    requires h.Valid() && Managed(h, es) && Known(DoPoll(now, callbacks), es) && Agrees(h.slots, a)
    modifies h, h.heap, h.timerIds, es
    ensures h.Valid() && Managed(h, es) && h.maxPerPoll == old(h.maxPerPoll)
    ensures (h.heap == old(h.heap) || fresh(h.heap)) && (h.timerIds == old(h.timerIds) || fresh(h.timerIds))
    ensures StepRight(a, DoPoll(now, callbacks), fs, h.maxPerPoll) && Agrees(h.slots, AfterFires(a, callbacks, fs))
  {
    var count, delay;
    count, delay, fs := h.Poll(now, callbacks, es, a);
    if |fs| < h.maxPerPoll { AllLater(h.slots, AfterFires(a, callbacks, fs), now); }
    DueByTotal(fs, now);
  }

  lemma AllLater(v: seq<Slot>, a: Agenda, now: TimeVal)
    requires Agrees(v, a) && forall s :: 0 <= s < |v| ==> Ms(v[s].value) > Ms(now)
    ensures forall e :: e in a ==> a[e] > Ms(now)
  {
    forall e | e in a ensures a[e] > Ms(now) {
      var x :| x in v && x.entry == e;
      var s :| 0 <= s < |v| && v[s] == x;
    }
  }

  method PerformAll(h: TimerHeap, ghost es: set<Entry>, ops: seq<HeapOp>, ghost a: Agenda)
    requires h.Valid() && Managed(h, es) && (forall o :: o in ops ==> o.entry in es) && Agrees(h.slots, a)
    modifies h, h.heap, h.timerIds, es
    ensures h.Valid() && Managed(h, es) && h.maxPerPoll == old(h.maxPerPoll)
    ensures Agrees(h.slots, PlannedAll(a, ops))
    ensures (h.heap == old(h.heap) || fresh(h.heap)) && (h.timerIds == old(h.timerIds) || fresh(h.timerIds))
  {
    for i := 0 to |ops|
      invariant h.Valid() && Managed(h, es) && h.maxPerPoll == old(h.maxPerPoll)
      invariant Agrees(h.slots, PlannedAll(a, ops[..i]))
      invariant (h.heap == old(h.heap) || fresh(h.heap)) && (h.timerIds == old(h.timerIds) || fresh(h.timerIds))
    {
      assert ops[..i + 1][..i] == ops[..i];
      Perform(h, es, ops[i], PlannedAll(a, ops[..i]));
    }
    assert ops[..|ops|] == ops;
  }

  method Perform(h: TimerHeap, ghost es: set<Entry>, op: HeapOp, ghost a: Agenda)
    requires h.Valid() && Managed(h, es) && op.entry in es && Agrees(h.slots, a)
    modifies h, h.heap, h.timerIds, op.entry
    ensures h.Valid() && Managed(h, es) && h.maxPerPoll == old(h.maxPerPoll)
    ensures Agrees(h.slots, Planned(a, op))
    ensures (h.heap == old(h.heap) || fresh(h.heap)) && (h.timerIds == old(h.timerIds) || fresh(h.timerIds))
  {
    match op
    case DoSchedule(entry, delay, now) => PerformSchedule(h, es, entry, delay, now, a);
    case DoCancel(entry) => PerformCancel(h, es, entry, a);
  }

  method PerformSchedule(h: TimerHeap, ghost es: set<Entry>, entry: Entry, delay: TimeVal, now: TimeVal,
                         ghost a: Agenda)
    requires h.Valid() && Managed(h, es) && entry in es && Agrees(h.slots, a)
    modifies h, h.heap, h.timerIds, entry
    ensures h.Valid() && Managed(h, es) && h.maxPerPoll == old(h.maxPerPoll)
    ensures Agrees(h.slots, if entry.hasCallback && entry !in a then a[entry := Ms(now) + Ms(delay)] else a)
    ensures (h.heap == old(h.heap) || fresh(h.heap)) && (h.timerIds == old(h.timerIds) || fresh(h.timerIds))
  {
    ghost var before := h.slots;
    OnAgenda(h, es, entry, a);
    var status := h.Schedule(entry, delay, now);
    if status == 0 {
      AgreesAdded(before, h.slots, Slot(entry, entry.timerId, entry.value), a);
      assert Entries(h.slots) == Entries(before) + {entry};
    } else {
      assert h.slots == before;
    }
  }

  lemma OnAgenda(h: TimerHeap, es: set<Entry>, entry: Entry, a: Agenda)
    requires h.Valid() && Managed(h, es) && entry in es && Agrees(h.slots, a)
    ensures entry in a <==> entry.timerId >= 1
    ensures entry in a <==> entry in Entries(h.slots)
  {
    if entry.timerId < 1 { h.NotIn(entry); }
  }

  method PerformCancel(h: TimerHeap, ghost es: set<Entry>, entry: Entry, ghost a: Agenda)
    requires h.Valid() && Managed(h, es) && entry in es && Agrees(h.slots, a)
    modifies h, h.heap, h.timerIds, entry
    ensures h.Valid() && Managed(h, es) && h.maxPerPoll == old(h.maxPerPoll)
    ensures Agrees(h.slots, a - {entry})
    ensures h.heap == old(h.heap) && h.timerIds == old(h.timerIds)
  {
    ghost var before, slot := h.slots, Slot(entry, entry.timerId, entry.value);
    if entry.timerId != -1 { InSlots(h, entry); }
    var count := h.Cancel(entry);
    h.NotIn(entry);
    if count == 1 {
      AgreesTaken(before, h.slots, slot, a);
    }
  }

  lemma InSlots(h: TimerHeap, entry: Entry)
    requires entry in Entries(h.slots)
    ensures h.Scheduled(entry)
  {
    var x :| x in h.slots && x.entry == entry;
  }

  lemma EntriesAdded(v: seq<Slot>, w: seq<Slot>, slot: Slot)
    requires multiset(w) == multiset(v) + multiset{slot}
    ensures Entries(w) == Entries(v) + {slot.entry}
  {
    forall x ensures x in w <==> x in v || x == slot {
      assert x in w <==> x in multiset(w);
    }
    assert slot in w;
    forall e | e in Entries(v) ensures e in Entries(w) {
      var x :| x in v && x.entry == e;
      assert x in w;
    }
  }

  lemma EntriesTaken(v: seq<Slot>, w: seq<Slot>, slot: Slot)
    requires multiset(w) == multiset(v) - multiset{slot}
    ensures Entries(v) - {slot.entry} <= Entries(w) <= Entries(v)
  {
    forall x ensures x in v && x != slot ==> x in w ensures x in w ==> x in v {
      assert x in w <==> x in multiset(w);
      assert x in v <==> x in multiset(v);
    }
    forall e | e in Entries(v) && e != slot.entry ensures e in Entries(w) {
      var x :| x in v && x.entry == e;
      assert x in w;
    }
  }
}
