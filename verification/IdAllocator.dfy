/** The word-packed bitset and the circular next-fit id allocator on top of it. */
module IdAllocator {

  // ----- words, by their bits: bit 0 is the least significant -----

  type Word = w: seq<bool> | |w| == 64 witness seq(64, _ => false)

  function NoBits(): Word { seq(64, _ => false) }

  /** w != 0 */
  predicate Nonzero(w: Word) { exists i :: 0 <= i < 64 && w[i] }

  /** ~w & (all ones << k) */
  function ComplementFrom(w: Word, k: nat): Word { seq(64, i requires 0 <= i < 64 => k <= i && !w[i]) }

  /** w & v */
  function And(w: Word, v: Word): Word { seq(64, i requires 0 <= i < 64 => w[i] && v[i]) }

  /** The lowest set bit of a nonzero word (the ctz builtin). */
  function Ctz(w: Word, k: nat := 0): (c: nat)
    requires k < 64 && exists i :: k <= i < 64 && w[i]
    ensures k <= c < 64 && w[c] && forall i :: k <= i < c ==> !w[i]
    decreases 64 - k
  {
    if w[k] then k else Ctz(w, k + 1)
  }

  class Bitset {
    const size: nat
    const bits: array<Word>

    /** Every bit at or beyond `size` stays clear. */
    ghost predicate Valid()
      reads this, bits
    {
      && bits.Length == (size + 63) / 64
      && forall i, k :: 0 <= i < bits.Length && 0 <= k < 64 && 64 * i + k >= size ==> !bits[i][k]
    }

    predicate Marked(p: nat)
      requires Valid() && p < size
      reads this, bits
    {
      bits[p / 64][p % 64]
    }

    ghost function Marks(): (s: set<nat>)
      requires Valid()
      reads this, bits
      ensures forall p: nat :: p in s <==> p < size && Marked(p)
    {
      set p: nat | p < size && Marked(p)
    }

    constructor (n: nat)
      ensures Valid() && size == n && Marks() == {} && fresh(bits)
    {
      size := n;
      bits := new Word[(n + 63) / 64](_ => NoBits());
      new;
      forall p | 0 <= p < n ensures !Marked(p) {}
    }

    method Set(bit: int) returns (rc: int)
      requires Valid()
      modifies bits
      ensures Valid()
      ensures rc == if 0 <= bit < size then 0 else -1
      ensures Marks() == if rc == 0 then old(Marks()) + {bit} else old(Marks())
    {
      if bit < 0 || bit >= size { return -1; }
      bits[bit / 64] := bits[bit / 64][bit % 64 := true];
      forall p | 0 <= p < size ensures Marked(p) <==> p == bit || old(Marked(p)) {
        SamePlace(p, bit);
      }
      return 0;
    }

    method Clear(bit: int) returns (rc: int)
      requires Valid()
      modifies bits
      ensures Valid()
      ensures rc == if 0 <= bit < size then 0 else -1
      ensures Marks() == if rc == 0 then old(Marks()) - {bit} else old(Marks())
    {
      if bit < 0 || bit >= size { return -1; }
      bits[bit / 64] := bits[bit / 64][bit % 64 := false];
      forall p | 0 <= p < size ensures Marked(p) <==> p != bit && old(Marked(p)) {
        SamePlace(p, bit);
      }
      return 0;
    }

    /** bitset_isset. Its mask is an int-width shift, which C leaves undefined for offsets
        31 to 63; `undefined` is whatever word that shift happened to give. */
    method IsSet(bit: int, undefined: Word) returns (rc: int)
      requires Valid()
      ensures !(0 <= bit < size) ==> rc == -1
      ensures 0 <= bit < size ==> rc == 0 || rc == 1
      ensures 0 <= bit < size && bit % 64 < 31 ==> (rc == 1 <==> bit in Marks())
      ensures 0 <= bit < size && bit % 64 >= 31 ==> (rc == 1 <==> Nonzero(And(bits[bit / 64], undefined)))
    {
      if bit < 0 || bit >= size { return -1; }
      var mask := if bit % 64 < 31 then NoBits()[bit % 64 := true] else undefined;
      var hit := And(bits[bit / 64], mask);
      if bit % 64 < 31 {
        assert hit[bit % 64] == Marked(bit);
      }
      return if Nonzero(hit) then 1 else 0;
    }

    /** The words hold the marks. */
    lemma WordHolds(i: nat)
      requires Valid() && i < bits.Length
      ensures bits[i] == WordOf(Marks(), i)
    {
      forall k | 0 <= k < 64 ensures bits[i][k] == WordOf(Marks(), i)[k] { Position(i, k); }
    }

    /** `word` holds the clear bits of word i from position `from` on, up to which all is marked. */
    ghost predicate Searching(from: nat, i: nat, word: Word)
      requires Valid()
      reads this, bits
    {
      && from / 64 <= i < bits.Length && from < size
      && (forall k :: 0 <= k < 64 ==> (word[k] <==> from <= 64 * i + k && !bits[i][k]))
      && (forall p :: from <= p < 64 * i && p < size ==> Marked(p))
    }

    lemma WordMarked(from: nat, i: nat, word: Word, c: nat)
      requires Valid() && Searching(from, i, word) && c <= 64 && forall k :: 0 <= k < c ==> !word[k]
      ensures forall p :: from <= p < 64 * i + c && p < size ==> Marked(p)
    {
      forall p | 64 * i <= p < 64 * i + c && from <= p < size ensures Marked(p) {
        Position(i, p - 64 * i);
        assert !word[p - 64 * i];
      }
    }

    /** Where the last word has room beyond the size, a clear bit is found there at the latest. */
    lemma TailIsClear(from: nat, i: nat, word: Word)
      requires Valid() && Searching(from, i, word) && size < 64 * (i + 1)
      ensures 64 * i <= size && word[size - 64 * i]
    {
    }

    /** bitset_next_clear_bit: the first clear position at or after `from`, -1 if none. */
    method NextClear(from: nat) returns (r: int)
      requires Valid() && from < size
      ensures r == -1 || (from <= r < size && r !in Marks())
      ensures forall p :: from <= p < (if r == -1 then size else r) ==> p in Marks()
    {
      var index := from / 64;
      var word := ComplementFrom(bits[index], from % 64);
      while true
        invariant 0 <= index && Searching(from, index, word)
        decreases bits.Length - index
      {
        if size < 64 * (index + 1) { TailIsClear(from, index, word); }
        if Nonzero(word) {
          var c := Ctz(word);
          WordMarked(from, index, word, c);
          Position(index, c);
          var pos := index * 64 + c;
          return if pos == size then -1 else pos;
        }
        WordMarked(from, index, word, 64);
        index := index + 1;
        if index == bits.Length {
          var pos := index * 64;
          return if pos == size then -1 else pos;
        }
        word := ComplementFrom(bits[index], 0);
      }
    }
  }

  /** What the bit test sees of bit k of a word: the bit itself as long as the int-width shift
      is defined, and beyond that whatever is under the mask it happened to give. */
  ghost predicate Sees(w: Word, k: nat, undefined: Word)
    requires k < 64
  {
    if k < 31 then w[k] else Nonzero(And(w, undefined))
  }

  lemma SamePlace(p: nat, q: nat)
    ensures p == q <==> p / 64 == q / 64 && p % 64 == q % 64
    ensures p / 64 * 64 + p % 64 == p
  {
  }

  lemma Position(i: nat, k: nat)
    requires k < 64
    ensures (64 * i + k) / 64 == i && (64 * i + k) % 64 == k
  {
  }

  /** The i-th word of a bitset with these marks. */
  ghost function WordOf(marks: set<nat>, i: nat): (w: Word)
    ensures forall k :: 0 <= k < 64 ==> (w[k] <==> 64 * i + k in marks)
  {
    seq(64, k requires 0 <= k < 64 => 64 * i + k in marks)
  }

  // ----- the allocator as a function of its state -----

  /** Positions are 0-based; the id issued for position p is p + 1. */
  datatype IdState = IdState(max: nat, latest: int, marks: set<nat>)
  {
    ghost predicate Valid() {
      0 < max && -1 <= latest < max && forall p :: p in marks ==> p < max
    }
  }

  function Next(p: int, max: nat): int { if p + 1 == max then 0 else p + 1 }

  lemma NextIsMod(p: int, max: nat)
    requires -1 <= p < max && max > 0
    ensures (p + 1) % max == Next(p, max)
  {
    if p + 1 < max { SmallMod(p + 1, max); }
  }

  lemma SmallMod(a: nat, b: nat)
    requires a < b
    ensures a % b == a
  {
  }

  /** The first unmarked position met when stepping circularly from p, -1 if none in `steps`. */
  ghost function Scan(marks: set<nat>, max: nat, p: nat, steps: nat): (r: int)
    requires p < max
    ensures -1 <= r < max && (r >= 0 ==> r !in marks)
    decreases steps
  {
    if steps == 0 then -1 else if p !in marks then p else Scan(marks, max, Next(p, max), steps - 1)
  }

  ghost function NextFit(s: IdState): (r: int)
    requires s.Valid()
    ensures -1 <= r < s.max && (r >= 0 ==> r !in s.marks)
  {
    Scan(s.marks, s.max, Next(s.latest, s.max), s.max)
  }

  ghost function AfterAlloc(s: IdState): (t: IdState)
    requires s.Valid()
    ensures t.Valid()
  {
    var r := NextFit(s);
    if r == -1 then s else s.(latest := r, marks := s.marks + {r})
  }

  ghost function AfterFree(s: IdState, id: int): (t: IdState)
    requires s.Valid()
    ensures t.Valid()
  {
    s.(marks := s.marks - {id - 1})
  }

  /** A release whose bit test worked with the mask `undefined`. */
  ghost function AfterRelease(s: IdState, id: int, undefined: Word): (t: IdState)
    requires s.Valid()
    ensures t.Valid()
  {
    if 0 < id <= s.max && Sees(WordOf(s.marks, (id - 1) / 64), (id - 1) % 64, undefined) then AfterFree(s, id) else s
  }

  lemma {:induction false} ScanUp(marks: set<nat>, max: nat, p: nat, r: nat, steps: nat)
    requires p <= r < max && r - p < steps && r !in marks
    requires forall q :: p <= q < r ==> q in marks
    ensures Scan(marks, max, p, steps) == r
    decreases r - p
  {
    if p < r { ScanUp(marks, max, p + 1, r, steps - 1); }
  }

  lemma {:induction false} ScanWraps(marks: set<nat>, max: nat, p: nat, steps: nat)
    requires p < max && max - p <= steps
    requires forall q :: p <= q < max ==> q in marks
    ensures Scan(marks, max, p, steps) == Scan(marks, max, 0, steps - (max - p))
    decreases max - p
  {
    if p + 1 < max { ScanWraps(marks, max, p + 1, steps - 1); }
  }

  lemma {:induction false} ScanFull(marks: set<nat>, max: nat, p: nat, steps: nat)
    requires p < max && forall q :: 0 <= q < max ==> q in marks
    ensures Scan(marks, max, p, steps) == -1
    decreases steps
  {
    if steps > 0 { ScanFull(marks, max, Next(p, max), steps - 1); }
  }

  class IdsHeap {
    var latestIndex: int
    const maxIndex: nat
    const ids: Bitset

    ghost predicate Valid()
      reads this, ids, ids.bits
    {
      ids.Valid() && ids.size == maxIndex && 0 < maxIndex && -1 <= latestIndex < maxIndex
    }

    ghost function State(): (s: IdState)
      requires Valid()
      reads this, ids, ids.bits
      ensures s.Valid()
    {
      IdState(maxIndex, latestIndex, ids.Marks())
    }

    constructor (max: nat)
      requires max > 0
      ensures Valid() && fresh(ids) && fresh(ids.bits)
      ensures State() == IdState(max, -1, {})
    {
      latestIndex := -1;
      maxIndex := max;
      ids := new Bitset(max);
    }

    /** ids_heap_alloc: issues the id of the circularly next unmarked position. */
    method Alloc() returns (id: int)
      requires Valid()
      modifies this, ids.bits
      ensures Valid() && State() == AfterAlloc(old(State()))
      ensures id == if NextFit(old(State())) == -1 then -1 else NextFit(old(State())) + 1
    {
      var pos := FindFit();
      if pos != -1 {
        var _ := ids.Set(pos);
        latestIndex := pos;
        pos := pos + 1;
      }
      return pos;
    }

    /** The two searches of ids_heap_alloc: up from the last issued position, then from 0. */
    method FindFit() returns (pos: int)
      requires Valid()
      ensures pos == NextFit(State())
    {
      ghost var marks := ids.Marks();
      var from := (latestIndex + 1) % maxIndex;
      NextIsMod(latestIndex, maxIndex);
      pos := ids.NextClear(from);
      assert ids.Marks() == marks;
      if pos != -1 {
        ScanUp(marks, maxIndex, from, pos, maxIndex);
      } else if from != 0 {
        ScanWraps(marks, maxIndex, from, maxIndex);
        pos := ids.NextClear(0);
        assert ids.Marks() == marks;
        if pos != -1 { ScanUp(marks, maxIndex, 0, pos, from); }
      }
      if pos == -1 { ScanFull(marks, maxIndex, from, maxIndex); }
    }

    /** ids_heap_free: unmarks the id when the bit test sees it. */
    method Free(id: int, undefined: Word) returns (rc: int)
      requires Valid() && 0 < id <= maxIndex
      modifies ids.bits
      ensures Valid() && rc == 0 && State() == AfterRelease(old(State()), id, undefined)
    {
      ids.WordHolds((id - 1) / 64);
      var found := ids.IsSet(id - 1, undefined);
      if found != 0 {
        var _ := ids.Clear(id - 1);
      }
      return 0;
    }
  }

  // ----- what the allocator promises -----

  /** The position t circular steps after p. */
  ghost function Pos(p: nat, t: nat, max: nat): (q: nat)
    requires p < max
    ensures q < max
  {
    if t == 0 then p else Next(Pos(p, t - 1, max), max)
  }

  lemma {:induction false} PosNext(p: nat, t: nat, max: nat)
    requires p < max
    ensures Pos(Next(p, max), t, max) == Pos(p, t + 1, max)
  {
    if t > 0 { PosNext(p, t - 1, max); }
  }

  lemma {:induction false} PosAdd(p: nat, a: nat, b: nat, max: nat)
    requires p < max
    ensures Pos(Pos(p, a, max), b, max) == Pos(p, a + b, max)
  {
    if b > 0 { PosAdd(p, a, b - 1, max); }
  }

  lemma PosBeyond(p: nat, t: nat, e: nat, max: nat)
    requires p < max
    ensures Pos(p, t + 1 + e, max) == Pos(Next(Pos(p, t, max), max), e, max)
  {
    PosAdd(p, t, 1 + e, max);
    PosNext(Pos(p, t, max), e, max);
  }

  lemma {:induction false} PosWithinRound(p: nat, t: nat, max: nat)
    requires p < max && t < max
    ensures Pos(p, t, max) == if p + t < max then p + t else p + t - max
  {
    if t > 0 { PosWithinRound(p, t - 1, max); }
  }

  /** Every position is met within one round. */
  lemma RoundCovers(p: nat, q: nat, max: nat) returns (t: nat)
    requires p < max && q < max
    ensures t < max && Pos(p, t, max) == q && (t == 0 <==> p == q)
  {
    t := if p <= q then q - p else q + max - p;
    PosWithinRound(p, t, max);
  }

  lemma {:induction false} ScanMeaning(marks: set<nat>, max: nat, p: nat, steps: nat) returns (d: nat)
    requires p < max
    ensures d <= steps && forall e :: 0 <= e < d ==> Pos(p, e, max) in marks
    ensures Scan(marks, max, p, steps) == if d == steps then -1 else Pos(p, d, max)
    decreases steps
  {
    d := 0;
    if steps > 0 && p in marks {
      d := ScanMeaning(marks, max, Next(p, max), steps - 1);
      forall e | 0 <= e < d + 1 ensures Pos(p, e, max) in marks {
        if e > 0 { PosNext(p, e - 1, max); }
      }
      PosNext(p, d, max);
      d := d + 1;
    }
  }

  /** No id is refused while one is unmarked. */
  lemma RefusesOnlyWhenFull(s: IdState)
    requires s.Valid()
    ensures NextFit(s) == -1 <==> forall q :: 0 <= q < s.max ==> q in s.marks
  {
    var p := Next(s.latest, s.max);
    var d := ScanMeaning(s.marks, s.max, p, s.max);
    if d == s.max {
      forall q | 0 <= q < s.max ensures q in s.marks {
        var t := RoundCovers(p, q, s.max);
      }
    }
  }

  /** The position issued is the circularly first unmarked one after the last issued. */
  lemma IssuesCyclicallyFirst(s: IdState)
    requires s.Valid() && NextFit(s) != -1
    ensures exists d :: 0 <= d < s.max && NextFit(s) == Pos(Next(s.latest, s.max), d, s.max)
                        && forall e :: 0 <= e < d ==> Pos(Next(s.latest, s.max), e, s.max) in s.marks
  {
    var d := ScanMeaning(s.marks, s.max, Next(s.latest, s.max), s.max);
  }

  /** Runs of the allocator; every release has the mask of its bit test. */
  datatype IdOp = Allocate | Release(id: int, undefined: Word)

  ghost function Apply(s: IdState, op: IdOp): (t: IdState)
    requires s.Valid()
    ensures t.Valid() && t.max == s.max
  {
    match op
    case Allocate => AfterAlloc(s)
    case Release(id, undefined) => AfterRelease(s, id, undefined)
  }

  ghost function Run(s: IdState, ops: seq<IdOp>): (t: IdState)
    requires s.Valid()
    ensures t.Valid() && t.max == s.max
  {
    if ops == [] then s else Apply(Run(s, ops[..|ops| - 1]), ops[|ops| - 1])
  }

  function Allocations(ops: seq<IdOp>): nat {
    if ops == [] then 0 else Allocations(ops[..|ops| - 1]) + (if ops[|ops| - 1].Allocate? then 1 else 0)
  }

  /** The first max allocations issue the ids 1, 2, 3, ... whatever is released meanwhile:
      the k-th allocation gets id k, so no id is issued twice. */
  lemma {:induction false} FirstIdsAreFresh(max: nat, ops: seq<IdOp>)
    requires max > 0 && Allocations(ops) <= max
    ensures var s := Run(IdState(max, -1, {}), ops);
            && s.latest == Allocations(ops) - 1
            && (forall p :: p in s.marks ==> p < Allocations(ops))
            && (Allocations(ops) < max ==> NextFit(s) == Allocations(ops))
  {
    if ops != [] {
      FirstIdsAreFresh(max, ops[..|ops| - 1]);
    }
  }

  /** Positions issued in a run, or found marked when an allocation was made. */
  ghost function Busy(s: IdState, ops: seq<IdOp>): set<int>
    requires s.Valid()
  {
    if ops == [] then {} else
      var t := Run(s, ops[..|ops| - 1]);
      Busy(s, ops[..|ops| - 1])
      + (if ops[|ops| - 1].Allocate? then (set p | p in t.marks) + {NextFit(t)} else {})
  }

  lemma {:induction false} TravelIsBusy(s: IdState, ops: seq<IdOp>) returns (t: nat)
    requires s.Valid() && s.latest >= 0
    ensures Run(s, ops).latest == Pos(s.latest, t, s.max)
    ensures forall e :: 1 <= e <= t ==> Pos(s.latest, e, s.max) in Busy(s, ops)
    ensures ops != [] && ops[|ops| - 1].Allocate? && NextFit(Run(s, ops[..|ops| - 1])) != -1 ==> t > 0
  {
    t := 0;
    if ops != [] {
      var before := ops[..|ops| - 1];
      var u := Run(s, before);
      t := TravelIsBusy(s, before);
      if ops[|ops| - 1].Allocate? && NextFit(u) != -1 {
        var d := ScanMeaning(u.marks, u.max, Next(u.latest, u.max), u.max);
        forall e | 1 <= e <= t + 1 + d ensures Pos(s.latest, e, s.max) in Busy(s, ops) {
          if e > t { PosBeyond(s.latest, t, e - t - 1, s.max); }
        }
        PosBeyond(s.latest, t, d, s.max);
        t := t + 1 + d;
      }
    }
  }

  /** Between two issues of the same id every other id was issued or was marked when an
      allocation passed it by. */
  lemma ReissueNeedsFullRound(s: IdState, ops: seq<IdOp>, y: nat)
    requires s.Valid() && s.latest >= 0 && NextFit(Run(s, ops)) == s.latest
    requires y < s.max && y != s.latest
    ensures y in Busy(s, ops + [Allocate])
  {
    var all := ops + [Allocate];
    assert all[..|all| - 1] == ops;
    var t := TravelIsBusy(s, all);
    var e := RoundCovers(s.latest, y, s.max);
    if 0 < t < s.max { PosWithinRound(s.latest, t, s.max); }
    assert t >= s.max;
  }

  // ----- what the undefined shift costs -----

  ghost function Below(n: nat): (s: set<nat>)
    ensures forall p: nat :: p in s <==> p < n
  {
    if n == 0 then {} else Below(n - 1) + {n - 1}
  }

  /** A position whose bit number within its word the test gets right. */
  predicate Low(p: int) { p % 64 < 31 }

  /** A release unmarks its id whatever the shift gives, if and only if the id was not marked
      or its bit number within its word is below 31. */
  lemma SureReleases(s: IdState, id: int)
    requires s.Valid() && 0 < id <= s.max
    ensures (forall u: Word :: id - 1 !in AfterRelease(s, id, u).marks) <==> id - 1 !in s.marks || (id - 1) % 64 < 31
  {
    var w, k := WordOf(s.marks, (id - 1) / 64), (id - 1) % 64;
    assert w[k] <==> id - 1 in s.marks by { assert 64 * ((id - 1) / 64) + k == id - 1; }
    if id - 1 in s.marks && k >= 31 {
      assert !Nonzero(And(w, NoBits()));
      assert id - 1 in AfterRelease(s, id, NoBits()).marks;
    }
  }

  ghost function Allocates(n: nat): seq<IdOp> { seq(n, _ => Allocate) }

  lemma {:induction false} AllocatesMark(max: nat, n: nat)
    requires max > 0 && n <= max
    ensures var s := Run(IdState(max, -1, {}), Allocates(n)); s.latest == n - 1 && s.marks == Below(n)
    ensures Live(max, Allocates(n)) == Below(n)
  {
    if n > 0 {
      assert Allocates(n)[..n - 1] == Allocates(n - 1);
      AllocatesMark(max, n - 1);
      var s := Run(IdState(max, -1, {}), Allocates(n - 1));
      ScanUp(s.marks, max, n - 1, n - 1, max);
    }
  }

  /** The mask with bit k alone. */
  ghost function Only(k: nat): Word { seq(64, i => i == k) }

  /** An id that leaks: of 33 ids issued the first is released, then the 33rd. Where a shift by
      32 is a shift by 0 the test looks at bit 0, which is clear, and id 33 stays marked. */
  lemma ReleaseCanFail(max: nat)
    requires max >= 33
    ensures var s := Run(IdState(max, -1, {}), Allocates(33) + [Release(1, NoBits()), Release(33, Only(0))]);
            0 !in s.marks && 32 in s.marks
  {
    var a := Allocates(33);
    var ops := a + [Release(1, NoBits()), Release(33, Only(0))];
    AllocatesMark(max, 33);
    var s0 := Run(IdState(max, -1, {}), a);
    var s1 := AfterRelease(s0, 1, NoBits());
    assert ops[..34] == a + [Release(1, NoBits())] && (a + [Release(1, NoBits())])[..33] == a;
    assert WordOf(s0.marks, 0)[0] && s1.marks == s0.marks - {0};
    var w := WordOf(s1.marks, 0);
    assert !w[0];
    assert !Nonzero(And(w, Only(0)));
    assert Run(IdState(max, -1, {}), ops) == AfterRelease(s1, 33, Only(0));
  }

  /** The positions issued and not released since. */
  ghost function Live(max: nat, ops: seq<IdOp>): set<int>
    requires max > 0
  {
    if ops == [] then {} else
      var before, op := ops[..|ops| - 1], ops[|ops| - 1];
      if op.Release? then Live(max, before) - {op.id - 1}
      else
        var r := NextFit(Run(IdState(max, -1, {}), before));
        if r == -1 then Live(max, before) else Live(max, before) + {r}
  }

  /** What is marked without being live are leaked ids, with bit numbers from 31 on. */
  lemma {:induction false} LeaksAreHigh(max: nat, ops: seq<IdOp>)
    requires max > 0
    ensures var s := Run(IdState(max, -1, {}), ops);
            && (forall p :: p in Live(max, ops) ==> 0 <= p < max && p in s.marks)
            && (forall p :: p in s.marks && Low(p) ==> p in Live(max, ops))
  {
    if ops != [] {
      var n := |ops| - 1;
      LeaksAreHigh(max, ops[..n]);
      if ops[n].Release? {
        var s, id := Run(IdState(max, -1, {}), ops[..n]), ops[n].id;
        if 0 < id <= max && (id - 1) % 64 < 31 {
          assert 64 * ((id - 1) / 64) + (id - 1) % 64 == id - 1;
        }
      }
    }
  }

  /** Releases, under the mask 0, of the positions below n that are not wanted. */
  ghost function Leak(wanted: set<int>, n: nat): seq<IdOp> {
    if n == 0 then [] else Leak(wanted, n - 1) + if n - 1 in wanted then [] else [Release(n, NoBits())]
  }

  /** What is live when the unwanted positions below n are released. */
  ghost function Left(max: nat, wanted: set<int>, n: nat): (s: set<int>)
    ensures forall p :: p in s <==> p in Below(max) && (p in wanted || p >= n)
  {
    set p | p in Below(max) && (p in wanted || p >= n)
  }

  lemma LeftNext(max: nat, wanted: set<int>, n: nat)
    requires n < max
    ensures Left(max, wanted, 0) == Below(max)
    ensures Left(max, wanted, n + 1) == if n in wanted then Left(max, wanted, n) else Left(max, wanted, n) - {n}
  {
  }

  lemma RunRelease(max: nat, before: seq<IdOp>, id: int, undefined: Word)
    requires max > 0
    ensures var ops := before + [Release(id, undefined)];
            && Run(IdState(max, -1, {}), ops) == AfterRelease(Run(IdState(max, -1, {}), before), id, undefined)
            && Live(max, ops) == Live(max, before) - {id - 1}
  {
    var ops := before + [Release(id, undefined)];
    assert ops[..|ops| - 1] == before;
  }

  lemma LeakNext(a: seq<IdOp>, wanted: set<int>, n: nat)
    ensures a + Leak(wanted, 0) == a
    ensures a + Leak(wanted, n + 1) ==
            if n in wanted then a + Leak(wanted, n)
            else a + Leak(wanted, n) + [Release(n + 1, NoBits())]
  {
  }

  /** All positions are marked, and what is live is what is left. */
  ghost predicate Leaked(max: nat, ops: seq<IdOp>, wanted: set<int>, n: nat)
    requires max > 0
  {
    Run(IdState(max, -1, {}), ops).marks == Below(max) && Live(max, ops) == Left(max, wanted, n)
  }

  lemma LeakStep(max: nat, before: seq<IdOp>, wanted: set<int>, n: nat)
    requires max > 0 && n < max && n !in wanted && !Low(n) && Leaked(max, before, wanted, n)
    ensures Leaked(max, before + [Release(n + 1, NoBits())], wanted, n + 1)
  {
    LeftNext(max, wanted, n);
    RunRelease(max, before, n + 1, NoBits());
    ReleaseUnseen(Run(IdState(max, -1, {}), before), n + 1);
  }

  lemma KeepStep(max: nat, before: seq<IdOp>, wanted: set<int>, n: nat)
    requires max > 0 && n < max && n in wanted && Leaked(max, before, wanted, n)
    ensures Leaked(max, before, wanted, n + 1)
  {
    LeftNext(max, wanted, n);
  }

  lemma {:induction false} LeakLeaves(max: nat, a: seq<IdOp>, wanted: set<int>, n: nat)
    requires max > 0 && n <= max && forall p :: 0 <= p < max && Low(p) ==> p in wanted
    requires Leaked(max, a, wanted, 0)
    ensures Leaked(max, a + Leak(wanted, n), wanted, n)
  {
    if n == 0 {
      LeakNext(a, wanted, 0);
    } else {
      LeakLeaves(max, a, wanted, n - 1);
      LeakNext(a, wanted, n - 1);
      if n - 1 in wanted {
        KeepStep(max, a + Leak(wanted, n - 1), wanted, n - 1);
      } else {
        LeakStep(max, a + Leak(wanted, n - 1), wanted, n - 1);
      }
    }
  }

  lemma ReleaseUnseen(s: IdState, id: int)
    requires s.Valid() && 0 < id <= s.max && !Low(id - 1)
    ensures AfterRelease(s, id, NoBits()) == s
  {
    assert !Nonzero(And(WordOf(s.marks, (id - 1) / 64), NoBits()));
  }

  /** After these operations exactly `live` are in use and no id is left. */
  ghost predicate Refuses(max: nat, live: set<int>, ops: seq<IdOp>)
    requires max > 0
  {
    Live(max, ops) == live && NextFit(Run(IdState(max, -1, {}), ops)) == -1
  }

  ghost predicate CanRefuse(max: nat, live: set<int>)
    requires max > 0
  {
    exists ops :: Refuses(max, live, ops)
  }

  ghost predicate LowIn(max: nat, live: set<int>) {
    (forall p :: p in live ==> 0 <= p < max) && (forall p :: 0 <= p < max && Low(p) ==> p in live)
  }

  /** An allocation can be refused while exactly the positions `live` are in use, if and only
      if these are all positions with a bit number below 31, and possibly others. */
  lemma RefusalsExactly(max: nat, live: set<int>)
    requires max > 0
    ensures CanRefuse(max, live) <==> LowIn(max, live)
  {
    if CanRefuse(max, live) {
      var ops :| Refuses(max, live, ops);
      LeaksAreHigh(max, ops);
      RefusesOnlyWhenFull(Run(IdState(max, -1, {}), ops));
    }
    if LowIn(max, live) {
      AllocatesMark(max, max);
      LeftNext(max, live, 0);
      LeakLeaves(max, Allocates(max), live, max);
      var ops := Allocates(max) + Leak(live, max);
      RefusesOnlyWhenFull(Run(IdState(max, -1, {}), ops));
      assert Live(max, ops) == live;
      assert Refuses(max, live, ops);
    }
  }
}
