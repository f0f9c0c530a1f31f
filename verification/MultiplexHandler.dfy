/** The multiplexer handler as an object: its id allocator, its hash table of channel records
    and the clocks in them. Each method does steps of the endpoint; what the users were told
    and what was sent is logged. */
module MultiplexHandler {
  import opened Bytes
  import opened Options
  import opened Wire
  import opened Multiplexer
  import opened Channels
  import opened Sealing
  import Ids = IdAllocator
  import LinkedHashtable

  // ----- clocks -----

  datatype Time = Time(sec: int, usec: int)

  /** C division by 1000. */
  function Thousandth(a: int): int { if a >= 0 then a / 1000 else -(-a / 1000) }

  /** Milliseconds between two times, as the checkpoint computes them. */
  function Interval(now: Time, since: Time): int { (now.sec - since.sec) * 1000 + Thousandth(now.usec - since.usec) }

  const KEEPALIVE_INTERVAL := 30000
  const KEEPALIVE_TIMEOUT_INTERVAL := 130000

  /** A channel's timeout in seconds, and when it last had data, heard of the peer and spoke. */
  datatype Clock = Clock(timeout: int, active: Time, heard: Time, spoke: Time)

  predicate Expired(c: Clock, now: Time) {
    || (c.timeout != 0 && Interval(now, c.active) >= c.timeout * 1000)
    || Interval(now, c.heard) >= KEEPALIVE_TIMEOUT_INTERVAL
  }

  predicate Due(c: Clock, now: Time) { Interval(now, c.spoke) >= KEEPALIVE_INTERVAL }

  function Heard(c: Clock, now: Time): Clock { c.(heard := now, active := now) }
  function Spoke(c: Clock, now: Time): Clock { c.(spoke := now, active := now) }

  /** A channel record; its address is the number of the channel. */
  datatype Cell = Cell(ch: Channel, clock: Clock)

  type Memory = map<int, Cell>
  type Clocks = map<nat, Clock>

  /** What the outside world answers during a call. `takes` says for every channel whether the
      lower layer takes a keep-alive for it, `undefined` for every id what the over-wide shift
      in the bit test gives. */
  datatype World = World(accept: bool, keep: bool, sent: bool, forwarding: bool, reliable: bool,
                         takes: nat -> bool, undefined: int -> Ids.Word, now: Time)

  ghost function EnvOf(w: World, freed: bool): Env { Env(w.accept, w.keep, w.sent, freed, w.forwarding, w.reliable) }

  function SignalCall(ptype: Byte, id: nat): Call {
    if ptype == PENDING then PendChannel(id) else ResumeChannel(id)
  }

  /** What a packet does to the clocks. */
  ghost function OnPacketClocks(e: Endpoint, clocks: Clocks, p: Packet, env: Env, now: Time): Clocks
    requires Multiplexer.Valid(e)
  {
    if p.ptype == DATA && p.local == 0 && p.remote == 0 then clocks
    else if p.ptype == OPEN then OnOpenClocks(e, clocks, p, env, now)
    else if p.local !in e.table || p.local !in clocks then clocks
    else OnChannelClocks(e.table[p.local].status, clocks, p, env, now)
  }

  ghost function OnOpenClocks(e: Endpoint, clocks: Clocks, p: Packet, env: Env, now: Time): Clocks
    requires Multiplexer.Valid(e)
  {
    if TypeAllowed(p.option, env) && NewId(e) != -1 && env.accept && env.sent
    then clocks[NewId(e) := Clock(0, now, now, Time(0, 0))] else clocks
  }

  /** The data branch of the packet step and of its clocks. */
  lemma DataMeans(e: Endpoint, clocks: Clocks, p: Packet, w: World, freed: bool)
    requires Multiplexer.Valid(e) && p.local in e.table && p.local in clocks && p.ptype == DATA
    ensures OnChannel(e, p, EnvOf(w, freed)) ==
            if e.table[p.local].status == Opening then e
            else if w.keep then Notify(e, p.local, Data(p.payload))
            else Drop(Notify(Notify(e, p.local, Data(p.payload)), p.local, Closed(Error)), p.local, freed)
    ensures OnChannelClocks(e.table[p.local].status, clocks, p, EnvOf(w, freed), w.now) ==
            if e.table[p.local].status == Opening then clocks
            else if w.keep then clocks[p.local := Heard(clocks[p.local], w.now)]
            else clocks - {p.local}
  {
  }

  ghost function OnChannelClocks(status: Status, clocks: Clocks, p: Packet, env: Env, now: Time): Clocks
    requires p.local in clocks
  {
    var id, c := p.local, clocks[p.local];
    if p.ptype == CONFIRM then
      if status != Opening then clocks else if p.remote != 0 then clocks[id := Heard(c, now)] else clocks - {id}
    else if p.ptype == DATA then
      if status == Opening then clocks else if env.keep then clocks[id := Heard(c, now)] else clocks - {id}
    else if p.ptype == KEEPALIVE then clocks[id := c.(heard := now)]
    else if p.ptype == PENDING then if status == Open then clocks[id := Heard(c, now)] else clocks
    else if p.ptype == RESUME then if status == Pending then clocks[id := Heard(c, now)] else clocks
    else if p.ptype == CLOSE then clocks - {id}
    else clocks
  }

  // ----- the steps of a pass over all channels -----

  ghost function Closings(o: seq<nat>, reason: Reason, w: World, fs: seq<bool>): (ins: seq<Input>)
    requires |fs| == |o|
  {
    if o == [] then [] else
      Closings(o[..|o| - 1], reason, w, fs[..|o| - 1]) + [Called(CloseAll(o[|o| - 1], reason), EnvOf(w, fs[|o| - 1]))]
  }

  lemma ClosingsNext(e: Endpoint, o: seq<nat>, reason: Reason, w: World, fs: seq<bool>, f: bool)
    requires Multiplexer.Valid(e) && |fs| < |o|
    ensures RunFrom(e, Closings(o[..|fs| + 1], reason, w, fs + [f]))
            == OnCall(RunFrom(e, Closings(o[..|fs|], reason, w, fs)), CloseAll(o[|fs|], reason), EnvOf(w, f)).0
  {
    var n, i := |fs|, Called(CloseAll(o[|fs|], reason), EnvOf(w, f));
    ClosingsLast(o, reason, w, fs, f);
    RunSnoc(e, Closings(o[..n], reason, w, fs), i);
  }

  lemma ClosingsLast(o: seq<nat>, reason: Reason, w: World, fs: seq<bool>, f: bool)
    requires |fs| < |o|
    ensures Closings(o[..|fs| + 1], reason, w, fs + [f])
            == Closings(o[..|fs|], reason, w, fs) + [Called(CloseAll(o[|fs|], reason), EnvOf(w, f))]
  {
    assert o[..|fs| + 1][..|fs|] == o[..|fs|] && (fs + [f])[..|fs|] == fs;
  }

  /** What the checkpoint decides about a channel. */
  ghost function Decision(id: nat, c: Clock, w: World, f: bool): seq<Input> {
    if Expired(c, w.now) then [Called(ExpireChannel(id), EnvOf(w, f))]
    else if Due(c, w.now) then [Called(KeepAlive(id), EnvOf(w.(sent := w.takes(id)), f))]
    else []
  }

  ghost function Decided(e: Endpoint, d: seq<Input>): (Endpoint, seq<Packet>)
    requires Multiplexer.Valid(e)
  {
    if d == [] then (e, []) else Step(e, d[0])
  }

  /** What it does to the channel's clock. */
  ghost function CheckedClock(clocks: Clocks, id: nat, w: World): Clocks
    requires id in clocks
  {
    if Expired(clocks[id], w.now) then clocks - {id}
    else if Due(clocks[id], w.now) && w.takes(id) then clocks[id := clocks[id].(spoke := w.now)]
    else clocks
  }

  ghost predicate Covers(o: seq<nat>, clocks: Clocks) { forall i :: 0 <= i < |o| ==> o[i] in clocks }

  ghost function Decisions(o: seq<nat>, clocks: Clocks, w: World, fs: seq<bool>): seq<Input>
    requires |fs| == |o| && Covers(o, clocks)
  {
    if o == [] then [] else
      Decisions(o[..|o| - 1], clocks, w, fs[..|o| - 1]) + Decision(o[|o| - 1], clocks[o[|o| - 1]], w, fs[|o| - 1])
  }

  ghost function CheckedClocks(o: seq<nat>, clocks: Clocks, w: World): Clocks
    requires Covers(o, clocks)
  {
    map id | id in clocks && !(id in o && Expired(clocks[id], w.now)) ::
      if id in o && Due(clocks[id], w.now) && w.takes(id) then clocks[id].(spoke := w.now) else clocks[id]
  }

  /** The channels that stay. */
  ghost function Kept(o: seq<nat>, clocks: Clocks, w: World): seq<nat>
    requires Covers(o, clocks)
  {
    if o == [] then [] else
      Kept(o[..|o| - 1], clocks, w) + if Expired(clocks[o[|o| - 1]], w.now) then [] else [o[|o| - 1]]
  }

  ghost predicate Distinct(o: seq<nat>) { forall i, j :: 0 <= i < j < |o| ==> o[i] != o[j] }

  /** After n channels of o: those that stay are before the position, the others still to come. */
  ghost predicate Passed(o: seq<nat>, c: Clocks, w: World, n: nat, order: seq<nat>, pos: nat, clocks: Clocks) {
    && n <= |o| && Distinct(o) && Covers(o, c) && Covers(o[..n], c)
    && order == Kept(o[..n], c, w) + o[n..] && pos == |Kept(o[..n], c, w)|
    && clocks == CheckedClocks(o[..n], c, w)
  }

  lemma PassedNone(o: seq<nat>, c: Clocks, w: World)
    requires Distinct(o) && Covers(o, c)
    ensures Passed(o, c, w, 0, o, 0, c) && o[..0] == []
  {
    assert o[..0] == [] && o[0..] == o && [] + o == o;
    assert CheckedClocks([], c, w) == c;
  }

  lemma PassedHere(o: seq<nat>, c: Clocks, w: World, n: nat, order: seq<nat>, pos: nat, clocks: Clocks)
    requires Passed(o, c, w, n, order, pos, clocks)
    ensures pos <= |order| && (pos < |order| <==> n < |o|)
    ensures n < |o| ==> order[pos] == o[n] && o[n] in c && o[n] in clocks && clocks[o[n]] == c[o[n]]
  {
    if n < |o| { assert o[n] !in o[..n]; }
  }

  lemma PassedNext(o: seq<nat>, c: Clocks, w: World, n: nat, order: seq<nat>, pos: nat, clocks: Clocks)
    requires Passed(o, c, w, n, order, pos, clocks) && n < |o| && pos < |order|
    requires o[n] in clocks
    ensures var gone := Expired(clocks[o[n]], w.now);
            Passed(o, c, w, n + 1, if gone then LinkedHashtable.Without(order, pos) else order,
                   if gone then pos else pos + 1, CheckedClock(clocks, o[n], w))
  {
    PassedHere(o, c, w, n, order, pos, clocks);
    KeptNext(o, c, w, n);
    ClocksNext(o, c, w, n);
  }

  lemma KeptNext(o: seq<nat>, c: Clocks, w: World, n: nat)
    requires n < |o| && Covers(o, c)
    ensures Covers(o[..n], c) && Covers(o[..n + 1], c)
    ensures var k, l := Kept(o[..n], c, w), Kept(o[..n + 1], c, w);
            if Expired(c[o[n]], w.now)
            then l == k && LinkedHashtable.Without(k + o[n..], |k|) == l + o[n + 1..]
            else l == k + [o[n]] && k + o[n..] == l + o[n + 1..]
  {
    assert o[..n + 1][..n] == o[..n];
    var k, l := Kept(o[..n], c, w), Kept(o[..n + 1], c, w);
    assert o[n..] == [o[n]] + o[n + 1..];
    if Expired(c[o[n]], w.now) { assert k + [] == k; }
  }

  lemma ClocksNext(o: seq<nat>, c: Clocks, w: World, n: nat)
    requires n < |o| && Covers(o, c) && Distinct(o) && Covers(o[..n], c) && Covers(o[..n + 1], c)
    ensures o[n] in CheckedClocks(o[..n], c, w)
    ensures CheckedClocks(o[..n + 1], c, w) == CheckedClock(CheckedClocks(o[..n], c, w), o[n], w)
  {
    assert o[n] !in o[..n];
    assert forall id :: id in o[..n + 1] <==> id in o[..n] || id == o[n];
  }

  lemma DecisionsNext(e: Endpoint, o: seq<nat>, c: Clocks, w: World, n: nat, fs: seq<bool>, f: bool)
    requires Multiplexer.Valid(e) && n < |o| && |fs| == n && Covers(o, c) && Covers(o[..n], c)
    ensures Covers(o[..n + 1], c)
    ensures var ins, d := Decisions(o[..n], c, w, fs), Decision(o[n], c[o[n]], w, f);
            var all := Decisions(o[..n + 1], c, w, fs + [f]);
            && RunFrom(e, all) == Decided(RunFrom(e, ins), d).0
            && Outputs(e, all) == Outputs(e, ins) + Decided(RunFrom(e, ins), d).1
  {
    var ins, d := Decisions(o[..n], c, w, fs), Decision(o[n], c[o[n]], w, f);
    assert o[..n + 1][..n] == o[..n] && (fs + [f])[..n] == fs;
    if d == [] {
      assert ins + [] == ins && Outputs(e, ins) + [] == Outputs(e, ins);
    } else {
      assert d == [d[0]];
      RunSnoc(e, ins, d[0]);
    }
  }

  // ----- what such a pass means -----

  /** The channel with this number is among those removed. */
  ghost predicate Gone(e: Endpoint, removed: seq<nat>, n: nat) {
    exists id :: id in removed && id in e.table && e.table[id].num == n
  }

  /** From e to f these channels left the table; each got one close callback, there was no
      other callback, and nothing else changed but the ids. */
  ghost predicate JustClosed(e: Endpoint, f: Endpoint, removed: seq<nat>, reason: Reason) {
    && f.table == e.table - (set id | id in removed)
    && (forall n :: EventsOf(f, n) == EventsOf(e, n) + if Gone(e, removed, n) then [Closed(reason)] else [])
    && f == e.(ids := f.ids, table := f.table, events := f.events)
  }

  lemma OneMoreClosed(e: Endpoint, f: Endpoint, removed: seq<nat>, reason: Reason, id: nat, freed: bool)
    requires Multiplexer.Valid(e) && Multiplexer.Valid(f) && JustClosed(e, f, removed, reason) && id in e.table
             && id !in removed
    ensures id in f.table && JustClosed(e, Drop(Notify(f, id, Closed(reason)), id, freed), removed + [id], reason)
  {
    UniqueChannels(e);
    var g := Drop(Notify(f, id, Closed(reason)), id, freed);
    forall n ensures EventsOf(g, n) == EventsOf(e, n) + if Gone(e, removed + [id], n) then [Closed(reason)] else [] {
      GoneNext(e, removed, id, n);
    }
  }

  lemma GoneNext(e: Endpoint, removed: seq<nat>, id: nat, n: nat)
    requires Unique(e.table) && id in e.table && id !in removed
    ensures Gone(e, removed + [id], n) <==> Gone(e, removed, n) || n == e.table[id].num
    ensures !Gone(e, removed, e.table[id].num)
  {
    if Gone(e, removed, n) {
      var jd :| jd in removed && jd in e.table && e.table[jd].num == n;
      assert jd in removed + [id];
    }
    assert id in removed + [id];
  }

  lemma NoneClosed(e: Endpoint, reason: Reason)
    ensures JustClosed(e, e, [], reason)
  {
    assert e.table - (set id | id in []) == e.table;
  }

  lemma ClosingStep(e: Endpoint, f: Endpoint, removed: seq<nat>, reason: Reason, id: nat, env: Env)
    requires Multiplexer.Valid(e) && Multiplexer.Valid(f) && JustClosed(e, f, removed, reason) && id in e.table
             && id !in removed
    ensures JustClosed(e, OnCall(f, CloseAll(id, reason), env).0, removed + [id], reason)
  {
    OneMoreClosed(e, f, removed, reason, id, env.freed);
  }

  lemma DecisionStep(e: Endpoint, f: Endpoint, removed: seq<nat>, id: nat, c: Clock, w: World, freed: bool)
    requires Multiplexer.Valid(e) && Multiplexer.Valid(f) && JustClosed(e, f, removed, Timeout) && id in e.table
             && id !in removed
    ensures JustClosed(e, Decided(f, Decision(id, c, w, freed)).0,
                       if Expired(c, w.now) then removed + [id] else removed, Timeout)
  {
    if Expired(c, w.now) { OneMoreClosed(e, f, removed, Timeout, id, freed); }
  }

  /** Closing the channels of an order, each once. */
  lemma {:induction false} ClosingsMean(e: Endpoint, o: seq<nat>, reason: Reason, w: World, fs: seq<bool>, n: nat)
    requires Multiplexer.Valid(e) && n <= |o| == |fs| && Distinct(o) && forall i :: 0 <= i < |o| ==> o[i] in e.table
    ensures JustClosed(e, RunFrom(e, Closings(o[..n], reason, w, fs[..n])), o[..n], reason)
  {
    if n == 0 {
      NoneClosed(e, reason);
    } else {
      var f := RunFrom(e, Closings(o[..n - 1], reason, w, fs[..n - 1]));
      ClosingsMean(e, o, reason, w, fs, n - 1);
      Prefixes(o, fs, n - 1);
      ClosingStep(e, f, o[..n - 1], reason, o[n - 1], EnvOf(w, fs[n - 1]));
      ClosingsNext(e, o, reason, w, fs[..n - 1], fs[n - 1]);
    }
  }

  lemma Prefixes(o: seq<nat>, fs: seq<bool>, n: nat)
    requires n < |o| == |fs| && Distinct(o)
    ensures o[..n + 1] == o[..n] + [o[n]] && fs[..n + 1] == fs[..n] + [fs[n]] && o[n] !in o[..n]
  {
  }

  /** The expired channels. */
  ghost function Leaving(o: seq<nat>, clocks: Clocks, w: World): (l: seq<nat>)
    requires Covers(o, clocks)
  {
    if o == [] then [] else
      Leaving(o[..|o| - 1], clocks, w) + if Expired(clocks[o[|o| - 1]], w.now) then [o[|o| - 1]] else []
  }

  lemma {:induction false} LeavingAre(o: seq<nat>, clocks: Clocks, w: World)
    requires Covers(o, clocks)
    ensures forall id :: id in Leaving(o, clocks, w) <==> id in o && Expired(clocks[id], w.now)
  {
    if o != [] {
      LeavingAre(o[..|o| - 1], clocks, w);
      assert o == o[..|o| - 1] + [o[|o| - 1]];
    }
  }

  lemma LeavingNext(o: seq<nat>, clocks: Clocks, w: World, n: nat)
    requires n < |o| && Covers(o, clocks) && Distinct(o)
    ensures Covers(o[..n], clocks) && Covers(o[..n + 1], clocks) && o[n] !in Leaving(o[..n], clocks, w)
    ensures Leaving(o[..n + 1], clocks, w)
            == if Expired(clocks[o[n]], w.now) then Leaving(o[..n], clocks, w) + [o[n]] else Leaving(o[..n], clocks, w)
  {
    assert o[..n + 1][..n] == o[..n];
    LeavingAre(o[..n], clocks, w);
  }

  /** The checkpoint closes exactly the expired channels. */
  lemma {:induction false} DecisionsMean(e: Endpoint, o: seq<nat>, clocks: Clocks, w: World, fs: seq<bool>, n: nat)
    requires Multiplexer.Valid(e) && n <= |o| == |fs| && Distinct(o) && Covers(o, clocks) && clocks.Keys == e.table.Keys
    ensures Covers(o[..n], clocks)
    ensures JustClosed(e, RunFrom(e, Decisions(o[..n], clocks, w, fs[..n])), Leaving(o[..n], clocks, w), Timeout)
  {
    if n == 0 {
      NoneClosed(e, Timeout);
    } else {
      DecisionsMean(e, o, clocks, w, fs, n - 1);
      var f := RunFrom(e, Decisions(o[..n - 1], clocks, w, fs[..n - 1]));
      Prefixes(o, fs, n - 1);
      LeavingNext(o, clocks, w, n - 1);
      DecisionStep(e, f, Leaving(o[..n - 1], clocks, w), o[n - 1], clocks[o[n - 1]], w, fs[n - 1]);
      DecisionsNext(e, o, clocks, w, n - 1, fs[..n - 1], fs[n - 1]);
    }
  }

  // ----- the table of a handler -----

  ghost predicate Stored(address: map<nat, int>, cells: Memory) {
    forall id :: id in address ==> address[id] in cells && cells[address[id]].ch.num == address[id]
  }

  ghost function TableIn(address: map<nat, int>, cells: Memory): Table
    requires Stored(address, cells)
  {
    map id | id in address :: cells[address[id]].ch
  }

  ghost function ClocksIn(address: map<nat, int>, cells: Memory): Clocks
    requires Stored(address, cells)
  {
    map id | id in address :: cells[address[id]].clock
  }

  lemma StoreNew(address: map<nat, int>, cells: Memory, id: nat, cell: Cell)
    requires Stored(address, cells) && id !in address && forall jd :: jd in address ==> address[jd] != cell.ch.num
    ensures var a, m := address[id := cell.ch.num], cells[cell.ch.num := cell];
            && Stored(a, m) && TableIn(a, m) == TableIn(address, cells)[id := cell.ch]
            && ClocksIn(a, m) == ClocksIn(address, cells)[id := cell.clock]
  {
  }

  lemma StoreAt(address: map<nat, int>, cells: Memory, id: nat, cell: Cell)
    requires Stored(address, cells) && Unique(TableIn(address, cells)) && id in address && cell.ch.num == address[id]
    ensures var m := cells[address[id] := cell];
            && Stored(address, m) && TableIn(address, m) == TableIn(address, cells)[id := cell.ch]
            && ClocksIn(address, m) == ClocksIn(address, cells)[id := cell.clock]
  {
    var t := TableIn(address, cells);
    forall jd | jd in address && jd != id ensures address[jd] != address[id] { assert t[jd].num != t[id].num; }
  }

  lemma StoreWithout(address: map<nat, int>, cells: Memory, id: nat)
    requires Stored(address, cells) && Unique(TableIn(address, cells)) && id in address
    ensures var a, m := address - {id}, cells - {address[id]};
            && Stored(a, m) && TableIn(a, m) == TableIn(address, cells) - {id}
            && ClocksIn(a, m) == ClocksIn(address, cells) - {id}
  {
    var t := TableIn(address, cells);
    forall jd | jd in address && jd != id ensures address[jd] != address[id] { assert t[jd].num != t[id].num; }
  }

  class Handler {
    const ids: Ids.IdsHeap
    const index: ChannelIndex
    var cells: Memory
    var made: nat
    ghost var state: Endpoint     // the endpoint this is, with the log of callbacks and data
    ghost var clocks: Clocks

    ghost function Repr(): set<object>
      reads index
    {
      {this, ids, ids.ids, ids.ids.bits, index} + index.Repr
    }

    ghost predicate Valid()
      reads this, index, Repr()
    {
      && {this, ids, ids.ids, ids.ids.bits} !! index.Repr
      && forall i {:trigger Unsealed(Handling, i)} :: Unsealed(Handling, i) ==> Implements()
    }

    /** The fields are those of the endpoint. */
    ghost predicate Implements()
      reads this, ids, ids.ids, ids.ids.bits, index, index.Repr
    {
      && ids.Valid() && index.Valid() && Stored(index.address, cells) && Multiplexer.Valid(state)
      && state.ids == ids.State() && state.table == TableIn(index.address, cells) && state.made == made
      && clocks == ClocksIn(index.address, cells)
    }

    lemma Inside()
      requires Valid()
      ensures Implements()
    {
      assert Unsealed(Handling, 0);
    }

    constructor ()
      ensures Valid() && state == Fresh && clocks == map[] && fresh(Repr())
    {
      ids := new Ids.IdsHeap(MAX_CHANNEL_ID);
      index := new ChannelIndex();
      cells, made := map[], 0;
      new;
      state, clocks := Fresh, map[];
      FreshValid();
    }

    // ----- building blocks -----

    /** A record is allocated and enters the table; -1 when the ids are used up. */
    method New(ctype: nat, remote: nat, timeout: int, now: Time, ghost from: Origin) returns (id: int)
      requires Valid()
      modifies Repr()
      ensures Valid() && fresh(Repr() - old(Repr())) && Multiplexer.Valid(old(state)) && id == NewId(old(state))
      ensures id == -1 ==> state == old(state) && clocks == old(clocks)
      ensures id != -1 ==> id >= 0 && state == Create(old(state), ctype, remote, from) && id in state.table
      ensures id != -1 ==> clocks == old(clocks)[id := Clock(timeout, now, now, Time(0, 0))]
    {
      Inside();
      ghost var e := state;
      LookIds(e);
      id := ids.Alloc();
      if id == -1 {
        assert ids.State() == e.ids;
      } else {
        Created(e, ctype, remote, from);
        Enter(id, Cell(Channel(remote, ctype, Opening, made + 1), Clock(timeout, now, now, Time(0, 0))),
              Create(e, ctype, remote, from));
      }
    }

    /** The endpoint becomes `next`, whose ids are already there. */
    method Enter(id: nat, cell: Cell, ghost next: Endpoint)
      requires {this, ids, ids.ids, ids.ids.bits} !! index.Repr
      requires ids.Valid() && index.Valid() && Stored(index.address, cells) && Multiplexer.Valid(next)
               && made + 1 == next.made
      requires next.ids == ids.State() && id !in TableIn(index.address, cells)
               && !Listed(TableIn(index.address, cells), cell.ch.num) && cell.ch.num > 0
      requires next.table == TableIn(index.address, cells)[id := cell.ch] && clocks == ClocksIn(index.address, cells)
      modifies this, index.Repr
      ensures Valid() && fresh(Repr() - old(Repr())) && state == next && clocks == old(clocks)[id := cell.clock]
    {
      Store(id, cell);
      made := made + 1;
      state, clocks := next, clocks[id := cell.clock];
    }

    /** A record at a new address enters the table. */
    method Store(id: nat, cell: Cell)
      requires index.Valid() && this !in index.Repr && Stored(index.address, cells) && id !in index.address
      requires !Listed(TableIn(index.address, cells), cell.ch.num) && cell.ch.num > 0
      modifies this`cells, index.Repr
      ensures index.Valid() && fresh(index.Repr - old(index.Repr)) && Stored(index.address, cells)
      ensures TableIn(index.address, cells) == old(TableIn(index.address, cells))[id := cell.ch]
      ensures ClocksIn(index.address, cells) == old(ClocksIn(index.address, cells))[id := cell.clock]
    {
      NewAddress(index.address, cells, cell.ch.num);
      StoreNew(index.address, cells, id, cell);
      cells := cells[cell.ch.num := cell];
      index.Put(id, cell.ch.num);
    }

    /** A callback of a channel. */
    ghost method Callback(id: nat, ev: Event)
      requires Valid() && Multiplexer.Valid(state) && id in state.table
      modifies this`state
      ensures Valid() && Repr() == old(Repr()) && Multiplexer.Valid(old(state)) && state == Notify(old(state), id, ev)
    {
      Inside();
      state := Notify(state, id, ev);
    }

    /** The record of a channel. */
    method Find(id: nat) returns (cell: Option<Cell>)
      requires Valid()
      ensures id in state.table <==> cell.Some?
      ensures cell.Some? ==> id in clocks && cell.value == Cell(state.table[id], clocks[id])
    {
      Inside();
      var a := index.Get(id);
      if a == None { return None; }
      return Some(cells[a.value]);
    }

    /** The record of a channel is rewritten. */
    method Rewrite(id: nat, cell: Cell, ghost next: Endpoint)
      requires Valid() && id in state.table && cell.ch.num == state.table[id].num
      requires Multiplexer.Valid(next) && next.(table := state.table) == state
               && next.table == state.table[id := cell.ch]
      modifies this
      ensures Valid() && Repr() == old(Repr()) && state == next && clocks == old(clocks)[id := cell.clock]
    {
      Inside();
      UniqueChannels(state);
      PutRecord(id, cell);
      state, clocks := next, clocks[id := cell.clock];
    }

    method PutRecord(id: nat, cell: Cell)
      requires index.Valid() && Stored(index.address, cells) && id in index.address && cell.ch.num == index.address[id]
      requires Unique(TableIn(index.address, cells))
      modifies this`cells
      ensures Stored(index.address, cells)
      ensures TableIn(index.address, cells) == old(TableIn(index.address, cells))[id := cell.ch]
      ensures ClocksIn(index.address, cells) == old(ClocksIn(index.address, cells))[id := cell.clock]
    {
      var a := index.Get(id);
      StoreAt(index.address, cells, id, cell);
      cells := cells[a.value := cell];
    }

    method SetStatus(id: nat, remote: nat, status: Status)
      requires Valid() && id in state.table
      modifies this
      ensures Valid() && Repr() == old(Repr()) && Multiplexer.Valid(old(state))
      ensures state == SetChannel(old(state), id, remote, status) && clocks == old(clocks)
    {
      Inside();
      var cell := Find(id);
      Rewrite(id, cell.value.(ch := cell.value.ch.(remote := remote, status := status)),
              SetChannel(state, id, remote, status));
      assert clocks == old(clocks);
    }

    /** A new time in the clock of a channel. */
    method SetClock(id: nat, clock: Clock)
      requires Valid() && id in state.table
      modifies this
      ensures Valid() && Repr() == old(Repr()) && state == old(state) && clocks == old(clocks)[id := clock]
    {
      Inside();
      var cell := Find(id);
      assert state.table[id := state.table[id]] == state.table;
      Rewrite(id, cell.value.(clock := clock), state);
    }

    /** channels_remove: the channel leaves the table, and with its record goes its id. */
    method Remove(id: nat, undefined: Ids.Word) returns (ghost freed: bool)
      requires Valid() && id in state.table
      modifies Repr()
      ensures Valid() && fresh(Repr() - old(Repr())) && Multiplexer.Valid(old(state))
      ensures state == Drop(old(state), id, freed) && clocks == old(clocks) - {id}
    {
      Inside();
      UniqueChannels(state);
      LookIds(state);
      TakeRecord(id);
      freed := Release(id, undefined);
    }

    /** The record leaves the table. */
    method TakeRecord(id: nat)
      requires index.Valid() && this !in index.Repr && Stored(index.address, cells) && id in index.address
      requires Unique(TableIn(index.address, cells))
      modifies this`cells, index.Repr
      ensures index.Valid() && fresh(index.Repr - old(index.Repr)) && Stored(index.address, cells)
      ensures TableIn(index.address, cells) == old(TableIn(index.address, cells)) - {id}
      ensures ClocksIn(index.address, cells) == old(ClocksIn(index.address, cells)) - {id}
    {
      var a := index.Get(id);
      StoreWithout(index.address, cells, id);
      index.Remove(id);
      cells := cells - {a.value};
    }

    /** channel_destroy, when the record has left the table. */
    method Release(id: nat, undefined: Ids.Word) returns (ghost freed: bool)
      requires {this, ids, ids.ids, ids.ids.bits} !! index.Repr && id in state.table && 1 <= id <= MAX_CHANNEL_ID
      requires ids.Valid() && index.Valid() && Stored(index.address, cells) && Multiplexer.Valid(state)
      requires state.ids == ids.State() && ids.maxIndex == MAX_CHANNEL_ID && state.made == made
      requires TableIn(index.address, cells) == state.table - {id} && ClocksIn(index.address, cells) == clocks - {id}
      modifies this, ids.ids.bits
      ensures Valid() && Repr() == old(Repr()) && Multiplexer.Valid(old(state))
      ensures state == Drop(old(state), id, freed) && clocks == old(clocks) - {id}
    {
      var _ := ids.Free(id, undefined);
      freed := ids.State() == Ids.AfterFree(state.ids, id);
      state, clocks := Drop(state, id, freed), clocks - {id};
    }

    method Close(id: nat, reason: Reason, undefined: Ids.Word) returns (ghost freed: bool)
      requires Valid() && id in state.table
      modifies Repr()
      ensures Valid() && fresh(Repr() - old(Repr())) && Multiplexer.Valid(old(state))
      ensures state == Drop(Notify(old(state), id, Closed(reason)), id, freed) && clocks == old(clocks) - {id}
    {
      Inside();
      Callback(id, Closed(reason));
      freed := Remove(id, undefined);
    }

    // ----- received packets -----

    /** multiplex_handler_notify_packet: what is not well-formed is dropped. */
    method NotifyFrame(frame: seq<Byte>, w: World) returns (out: seq<Packet>, ghost freed: bool)
      requires Valid()
      modifies Repr()
      ensures Valid() && fresh(Repr() - old(Repr())) && Multiplexer.Valid(old(state))
      ensures Parse(frame) == None ==> state == old(state) && out == [] && clocks == old(clocks)
      ensures Parse(frame).Some? ==> (state, out) == OnPacket(old(state), Parse(frame).value, EnvOf(w, freed))
      ensures Parse(frame).Some? ==>
                clocks == OnPacketClocks(old(state), old(clocks), Parse(frame).value, EnvOf(w, freed), w.now)
    {
      Inside();
      out, freed := [], false;
      var parsed := Parse(frame);
      if parsed.Some? { out, freed := NotifyPacket(parsed.value, w); }
    }

    method NotifyPacket(p: Packet, w: World) returns (out: seq<Packet>, ghost freed: bool)
      requires Valid()
      modifies Repr()
      ensures Valid() && fresh(Repr() - old(Repr())) && Multiplexer.Valid(old(state))
      ensures (state, out) == OnPacket(old(state), p, EnvOf(w, freed))
      ensures clocks == OnPacketClocks(old(state), old(clocks), p, EnvOf(w, freed), w.now)
    {
      Inside();
      out, freed := [], false;
      if p.remote == 0 && p.local == 0 && p.ptype == DATA {
        HandUp(p.payload);
        return;
      }
      if p.ptype == OPEN {
        out, freed := AnswerOpen(p, w);
        return;
      }
      var cell := Find(p.local);
      if cell == None {
        return;
      }
      freed := ChannelPacket(p, cell.value, w);
    }

    /** Data of channel 0 goes to the stream. */
    ghost method HandUp(payload: Payload)
      requires Valid()
      modifies this`state
      ensures Valid() && Repr() == old(Repr()) && state == old(state).(stream := old(state).stream + [payload])
    {
      Inside();
      Logged(state, state.(stream := state.stream + [payload]));
      state := state.(stream := state.stream + [payload]);
    }

    /** A request for a channel: it is created, offered to the user, and confirmed or refused. */
    method AnswerOpen(p: Packet, w: World) returns (out: seq<Packet>, ghost freed: bool)
      requires Valid()
      modifies Repr()
      ensures Valid() && fresh(Repr() - old(Repr())) && Multiplexer.Valid(old(state))
      ensures (state, out) == OnOpen(old(state), p, EnvOf(w, freed))
      ensures clocks == OnOpenClocks(old(state), old(clocks), p, EnvOf(w, freed), w.now)
    {
      Inside();
      out, freed := [], false;
      if p.option == 1 {
        if !w.forwarding { return; }
      } else if p.option == 2 {
        if !w.forwarding || !w.reliable { return; }
      } else if p.option != 0 {
        return;
      }
      out, freed := MakeChannel(p, w);
    }

    method MakeChannel(p: Packet, w: World) returns (out: seq<Packet>, ghost freed: bool)
      requires Valid() && TypeAllowed(p.option, EnvOf(w, true))
      modifies Repr()
      ensures Valid() && fresh(Repr() - old(Repr())) && Multiplexer.Valid(old(state))
      ensures (state, out) == OnOpen(old(state), p, EnvOf(w, freed))
      ensures clocks == OnOpenClocks(old(state), old(clocks), p, EnvOf(w, freed), w.now)
    {
      Inside();
      NewHasNoClock();
      out, freed := [], false;
      var id := New(p.option, p.remote, 0, w.now, Passive(p.remote));
      if id == -1 {
        if w.sent { out := [Packet(CONFIRM, 0, 0, 0, [])]; }
        return;
      }
      if w.sent { out := [Packet(CONFIRM, 0, p.remote, if w.accept then id else 0, [])]; }
      TakenBackClock(old(clocks), id, Clock(0, w.now, w.now, Time(0, 0)));
      freed := Settle(id, p.remote, w);
    }

    lemma NewHasNoClock()
      requires Valid()
      ensures Multiplexer.Valid(state) && clocks.Keys == state.table.Keys
      ensures NewId(state) != -1 ==> NewId(state) !in clocks
    {
      Inside();
      if NewId(state) != -1 { NewIsFresh(state); }
    }

    /** After the answer: the channel is open, or leaves again. */
    method Settle(id: nat, remote: nat, w: World) returns (ghost freed: bool)
      requires Valid() && id in state.table && id in clocks && clocks[id] == Clock(0, w.now, w.now, Time(0, 0))
      modifies Repr()
      ensures Valid() && fresh(Repr() - old(Repr())) && Multiplexer.Valid(old(state))
      ensures state == if !w.accept then Drop(old(state), id, freed)
                       else if !w.sent then Drop(Notify(old(state), id, Closed(Error)), id, freed)
                       else Notify(SetChannel(old(state), id, remote, Open), id, Opened)
      ensures clocks == if w.accept && w.sent then old(clocks) else old(clocks) - {id}
    {
      Inside();
      freed := false;
      if !w.accept || !w.sent {
        if w.accept { Callback(id, Closed(Error)); }
        freed := Remove(id, w.undefined(id));
      } else {
        Turn(id, remote, Open, Opened, Heard(Clock(0, w.now, w.now, Time(0, 0)), w.now));
        assert clocks == old(clocks);
      }
    }

    /** A status, a callback and a time. */
    method Turn(id: nat, remote: nat, status: Status, ghost ev: Event, clock: Clock)
      requires Valid() && id in state.table
      modifies this
      ensures Valid() && Repr() == old(Repr()) && Multiplexer.Valid(old(state))
      ensures state == Notify(SetChannel(old(state), id, remote, status), id, ev) && clocks == old(clocks)[id := clock]
    {
      SetStatus(id, remote, status);
      Inside();
      Callback(id, ev);
      SetClock(id, clock);
    }

    /** The switch over the packets of a channel. */
    method ChannelPacket(p: Packet, cell: Cell, w: World) returns (ghost freed: bool)
      requires Valid() && p.local in state.table && p.local in clocks
               && cell == Cell(state.table[p.local], clocks[p.local])
      modifies Repr()
      ensures Valid() && fresh(Repr() - old(Repr())) && Multiplexer.Valid(old(state))
      ensures state == OnChannel(old(state), p, EnvOf(w, freed))
      ensures clocks == OnChannelClocks(old(state).table[p.local].status, old(clocks), p, EnvOf(w, freed), w.now)
    {
      if p.ptype == CONFIRM {
        freed := ConfirmPacket(p, cell, w);
      } else if p.ptype == DATA {
        freed := DataPacket(p, cell, w);
      } else {
        freed := ControlPacket(p, cell, w);
      }
    }

    method ConfirmPacket(p: Packet, cell: Cell, w: World) returns (ghost freed: bool)
      requires Valid() && p.local in state.table && p.local in clocks
               && cell == Cell(state.table[p.local], clocks[p.local])
      requires p.ptype == CONFIRM
      modifies Repr()
      ensures Valid() && fresh(Repr() - old(Repr())) && Multiplexer.Valid(old(state))
      ensures state == OnChannel(old(state), p, EnvOf(w, freed))
      ensures clocks == OnChannelClocks(old(state).table[p.local].status, old(clocks), p, EnvOf(w, freed), w.now)
    {
      freed := false;
      if cell.ch.status != Opening {
        Inside();
      } else if p.remote != 0 {
        Turn(p.local, p.remote, Open, Opened, Heard(cell.clock, w.now));
      } else {
        freed := Close(p.local, Error, w.undefined(p.local));
      }
    }

    method DataPacket(p: Packet, cell: Cell, w: World) returns (ghost freed: bool)
      requires Valid() && p.local in state.table && p.local in clocks
               && cell == Cell(state.table[p.local], clocks[p.local])
      requires p.ptype == DATA
      modifies Repr()
      ensures Valid() && fresh(Repr() - old(Repr())) && Multiplexer.Valid(old(state))
      ensures state == OnChannel(old(state), p, EnvOf(w, freed))
      ensures clocks == OnChannelClocks(old(state).table[p.local].status, old(clocks), p, EnvOf(w, freed), w.now)
    {
      freed := false;
      Inside();
      if cell.ch.status != Pending && cell.ch.status != Open {
        DataMeans(state, clocks, p, w, freed);
        return;
      }
      freed := Received(p.local, p.payload, Heard(cell.clock, w.now), w);
      DataMeans(old(state), old(clocks), p, w, freed);
    }

    method ControlPacket(p: Packet, cell: Cell, w: World) returns (ghost freed: bool)
      requires Valid() && p.local in state.table && p.local in clocks
               && cell == Cell(state.table[p.local], clocks[p.local])
      requires p.ptype != CONFIRM && p.ptype != DATA
      modifies Repr()
      ensures Valid() && fresh(Repr() - old(Repr())) && Multiplexer.Valid(old(state))
      ensures state == OnChannel(old(state), p, EnvOf(w, freed))
      ensures clocks == OnChannelClocks(old(state).table[p.local].status, old(clocks), p, EnvOf(w, freed), w.now)
    {
      Inside();
      freed := false;
      var id, ch, heard := p.local, cell.ch, Heard(cell.clock, w.now);
      if p.ptype == KEEPALIVE {
        SetClock(id, cell.clock.(heard := w.now));
      } else if p.ptype == PENDING {
        if ch.status == Open { Turn(id, ch.remote, Pending, Pend, heard); }
      } else if p.ptype == RESUME {
        if ch.status == Pending { Turn(id, ch.remote, Open, Resume, heard); }
      } else if p.ptype == CLOSE {
        freed := Close(id, Normal, w.undefined(id));
      }
    }

    method Received(id: nat, ghost payload: Payload, heard: Clock, w: World) returns (ghost freed: bool)
      requires Valid() && id in state.table
      modifies Repr()
      ensures Valid() && fresh(Repr() - old(Repr())) && Multiplexer.Valid(old(state))
      ensures state == if w.keep then Notify(old(state), id, Data(payload))
                       else Drop(Notify(Notify(old(state), id, Data(payload)), id, Closed(Error)), id, freed)
      ensures clocks == if w.keep then old(clocks)[id := heard] else old(clocks) - {id}
    {
      freed := false;
      Inside();
      Callback(id, Data(payload));
      if w.keep { SetClock(id, heard); } else { freed := Close(id, Error, w.undefined(id)); }
    }

    // ----- calls -----

    /** multiplex_handler_open_channel: the new channel's id, or -1. */
    method OpenChannel(ctype: Byte, cookie: Payload, timeout: int, w: World)
      returns (rc: int, out: seq<Packet>, ghost freed: bool)
      requires Valid()
      modifies Repr()
      ensures Valid() && fresh(Repr() - old(Repr())) && Multiplexer.Valid(old(state))
      ensures (state, out) == OnCall(old(state), Call.OpenChannel(ctype, cookie), EnvOf(w, freed))
      ensures rc == if ctype > 2 || !w.sent then -1 else NewId(old(state))
      ensures clocks == if rc == -1 then old(clocks) else old(clocks)[rc := Clock(timeout, w.now, w.now, Time(0, 0))]
    {
      Inside();
      rc, out, freed := -1, [], false;
      if ctype > 2 { return; }
      NewHasNoClock();
      var id := New(ctype, 0, timeout, w.now, Active);
      if id == -1 { return; }
      if w.sent {
        return id, [Packet(OPEN, ctype, 0, id, cookie)], false;
      }
      TakenBackClock(old(clocks), id, Clock(timeout, w.now, w.now, Time(0, 0)));
      freed := Remove(id, w.undefined(id));
    }

    /** multiplex_handler_close_channel. */
    method CloseChannel(id: nat, w: World) returns (rc: int, out: seq<Packet>, ghost freed: bool)
      requires Valid()
      modifies Repr()
      ensures Valid() && fresh(Repr() - old(Repr())) && Multiplexer.Valid(old(state))
      ensures (state, out) == OnCall(old(state), Call.CloseChannel(id), EnvOf(w, freed))
      ensures rc == (if id in old(state).table then 0 else -1) && clocks == old(clocks) - {id}
    {
      rc, out, freed := -1, [], false;
      var cell := Find(id);
      if cell == None {
        Inside();
        assert clocks - {id} == clocks;
        return;
      }
      if cell.value.ch.remote != 0 && w.sent { out := [Packet(CLOSE, 0, cell.value.ch.remote, id, [])]; }
      freed := Close(id, Normal, w.undefined(id));
      rc := 0;
    }

    /** The state checks of write, pend and resume; the peer's id of a channel in use. */
    method Peer(id: nat) returns (remote: nat, clock: Clock)
      requires Valid()
      ensures remote != 0 <==> Usable(state, id)
      ensures remote != 0 ==> remote == state.table[id].remote && id in clocks && clock == clocks[id]
    {
      remote, clock := 0, Clock(0, Time(0, 0), Time(0, 0), Time(0, 0));
      var cell := Find(id);
      if cell == None { return; }
      if cell.value.ch.status != Open && cell.value.ch.status != Pending { return; }
      return cell.value.ch.remote, cell.value.clock;
    }

    /** multiplex_handler_write_channel; channel 0 is the stream itself. What is sent counts as
        activity. */
    method WriteChannel(id: nat, payload: Payload, w: World) returns (rc: int, out: seq<Packet>)
      requires Valid()
      modifies this
      ensures Valid() && Repr() == old(Repr()) && Multiplexer.Valid(old(state))
      ensures forall freed :: (state, out) == OnCall(old(state), Call.WriteChannel(id, payload), EnvOf(w, freed))
      ensures rc == if out == [] then -1 else |payload|
      ensures if out == [] || id == 0 then clocks == old(clocks)
              else id in old(clocks) && clocks == old(clocks)[id := Spoke(old(clocks)[id], w.now)]
    {
      Inside();
      rc, out := -1, [];
      if id == 0 {
        if w.sent {
          SendUp(payload);
          return |payload|, [Packet(DATA, 0, 0, 0, payload)];
        }
        return;
      }
      var remote, clock := Peer(id);
      if remote == 0 || !w.sent { return; }
      rc, out := |payload|, [Packet(DATA, 0, remote, id, payload)];
      LogWrite(id, payload);
      SetClock(id, Spoke(clock, w.now));
    }

    ghost method SendUp(payload: Payload)
      requires Valid()
      modifies this`state
      ensures Valid() && Repr() == old(Repr()) && state == old(state).(streamOut := old(state).streamOut + [payload])
    {
      Inside();
      Logged(state, state.(streamOut := state.streamOut + [payload]));
      state := state.(streamOut := state.streamOut + [payload]);
    }

    ghost method LogWrite(id: nat, payload: Payload)
      requires Valid() && Multiplexer.Valid(state) && id in state.table
      modifies this`state
      ensures Valid() && Repr() == old(Repr()) && Multiplexer.Valid(old(state))
              && state == Wrote(old(state), id, payload)
    {
      Inside();
      state := Wrote(state, id, payload);
    }

    /** multiplex_handler_pend_channel (with PENDING) and multiplex_handler_resume_channel (with
        RESUME): a packet on a channel in use, which counts as activity; no status changes. */
    method Signal(ptype: Byte, id: nat, w: World) returns (rc: int, out: seq<Packet>)
      requires Valid() && (ptype == PENDING || ptype == RESUME)
      modifies this
      ensures Valid() && Repr() == old(Repr()) && state == old(state) && Multiplexer.Valid(state)
      ensures forall freed :: (state, out) == OnCall(state, SignalCall(ptype, id), EnvOf(w, freed))
      ensures rc == if out == [] then -1 else 0
      ensures if out == [] then clocks == old(clocks)
              else id in old(clocks) && clocks == old(clocks)[id := Spoke(old(clocks)[id], w.now)]
    {
      Inside();
      rc, out := -1, [];
      var remote, clock := Peer(id);
      if remote == 0 || !w.sent { return; }
      SetClock(id, Spoke(clock, w.now));
      return 0, [Packet(ptype, 0, remote, id, [])];
    }

    // ----- all channels -----

    /** The record last met by an iterator leaves the table. */
    method TakeVia(it: ChannelIterator, id: nat, a: int)
      requires it.Valid() && it.index == index && it.Standing() && 0 < it.Pos() <= |index.order|
               && index.order[it.Pos() - 1] == id
      requires this !in index.Repr && Stored(index.address, cells) && id in index.address && a == index.address[id]
      requires Unique(TableIn(index.address, cells))
      modifies this`cells, index.Repr, it.it
      ensures it.Valid() && fresh(index.Repr - old(index.Repr)) && Stored(index.address, cells)
      ensures it.Pos() == old(it.Pos()) - 1 && index.order == LinkedHashtable.Without(old(index.order), it.Pos())
      ensures TableIn(index.address, cells) == old(TableIn(index.address, cells)) - {id}
      ensures ClocksIn(index.address, cells) == old(ClocksIn(index.address, cells)) - {id}
    {
      StoreWithout(index.address, cells, id);
      it.Remove();
      cells := cells - {a};
    }

    /** The channel last met by an iterator is closed. */
    method CloseVia(it: ChannelIterator, id: nat, a: int, reason: Reason, undefined: Ids.Word)
      returns (ghost freed: bool)
      requires Valid() && Apart(it) && it.Valid() && it.Standing() && 0 < it.Pos() <= |index.order|
      requires index.order[it.Pos() - 1] == id && id in index.address && a == index.address[id]
      modifies Repr(), it.it
      ensures Valid() && Apart(it) && it.Valid() && fresh(Repr() - old(Repr())) && Multiplexer.Valid(old(state))
              && id in old(state).table
      ensures it.Pos() == old(it.Pos()) - 1 && index.order == LinkedHashtable.Without(old(index.order), it.Pos())
      ensures state == Drop(Notify(old(state), id, Closed(reason)), id, freed) && clocks == old(clocks) - {id}
    {
      Inside();
      Callback(id, Closed(reason));
      Inside();
      UniqueChannels(state);
      LookIds(state);
      TakeVia(it, id, a);
      freed := Release(id, undefined);
    }

    /** An iterator over the channels of this handler. */
    ghost predicate Apart(it: ChannelIterator)
      reads index
    {
      it.index == index && it !in Repr() && it.it !in Repr()
    }

    /** One round of multiplex_handler_close_channels. */
    method CloseNext(it: ChannelIterator, reason: Reason, w: World)
      returns (more: bool, ghost id: nat, ghost freed: bool)
      requires Valid() && Apart(it) && it.Valid() && it.Pos() == 0
      modifies Repr(), it.it
      ensures Valid() && Apart(it) && it.Valid() && fresh(Repr() - old(Repr())) && Multiplexer.Valid(old(state))
              && it.Pos() == 0
      ensures more == (old(index.order) != [])
      ensures !more ==> state == old(state) && clocks == old(clocks) && index.order == []
      ensures more ==> id == old(index.order)[0] && index.order == old(index.order)[1..]
      ensures more ==> && state == OnCall(old(state), CloseAll(id, reason), EnvOf(w, freed)).0
                       && clocks == old(clocks) - {id}
    {
      Inside();
      freed, id := false, 0;
      var jd, a;
      more, jd, a := it.Next();
      if more {
        id := jd;
        freed := CloseVia(it, jd, a, reason, w.undefined(jd));
      }
    }

    /** multiplex_handler_close_channels: one close per channel, in the order of the table,
        which is empty afterwards. */
    method CloseChannels(reason: Reason, w: World) returns (ghost fs: seq<bool>)
      requires Valid()
      modifies Repr()
      ensures Valid() && fresh(Repr() - old(Repr())) && Multiplexer.Valid(old(state)) && |fs| == |old(index.order)|
      ensures state == RunFrom(old(state), Closings(old(index.order), reason, w, fs)) && state.table == map[]
      ensures JustClosed(old(state), state, old(index.order), reason)
    {
      Inside();
      Ordered();
      ghost var o, e := index.order, state;
      fs := [];
      var it := new ChannelIterator(index);
      assert o[0..] == o;
      while true
        invariant Valid() && Apart(it) && it.Valid() && it.Pos() == 0 && fresh(it.it) && fresh(Repr() - old(Repr()))
        invariant |fs| <= |o| && index.order == o[|fs|..] && state == RunFrom(e, Closings(o[..|fs|], reason, w, fs))
        decreases |index.order|
      {
        var more, id, freed := CloseNext(it, reason, w);
        if !more { break; }
        ClosingsNext(e, o, reason, w, fs, freed);
        fs := fs + [freed];
      }
      assert o[..|o|] == o && fs[..|o|] == fs;
      ClosingsMean(e, o, reason, w, fs, |o|);
      Emptied();
    }

    lemma Emptied()
      requires Valid() && index.order == []
      ensures state.table == map[]
    {
      Inside();
      index.Distinct();
    }

    /** The decision about the channel last met by an iterator. */
    method Decide(it: ChannelIterator, id: nat, a: int, w: World) returns (out: seq<Packet>, ghost freed: bool)
      requires Valid() && Apart(it) && it.Valid() && it.Standing() && 0 < it.Pos() <= |index.order|
      requires index.order[it.Pos() - 1] == id && id in index.address && a == index.address[id]
      modifies Repr(), it.it
      ensures Valid() && Apart(it) && it.Valid() && fresh(Repr() - old(Repr())) && Multiplexer.Valid(old(state))
              && id in old(clocks)
      ensures (state, out) == Decided(old(state), Decision(id, old(clocks)[id], w, freed))
      ensures clocks == CheckedClock(old(clocks), id, w)
      ensures if Expired(old(clocks)[id], w.now)
              then it.Pos() == old(it.Pos()) - 1 && index.order == LinkedHashtable.Without(old(index.order), it.Pos())
              else it.Pos() == old(it.Pos()) && index.order == old(index.order)
    {
      Inside();
      freed, out := false, [];
      var cell := cells[a];
      if Expired(cell.clock, w.now) {
        freed := CloseVia(it, id, a, Timeout, w.undefined(id));
      } else {
        out := Remind(id, cell, w);
      }
    }

    /** The keep-alive of a channel that is not expired. */
    method Remind(id: nat, cell: Cell, w: World) returns (out: seq<Packet>)
      requires Valid() && id in state.table && id in clocks && cell == Cell(state.table[id], clocks[id])
               && !Expired(cell.clock, w.now)
      modifies this
      ensures Valid() && Repr() == old(Repr()) && Multiplexer.Valid(old(state))
      ensures (state, out) == Decided(old(state), Decision(id, old(clocks)[id], w, false))
      ensures clocks == CheckedClock(old(clocks), id, w)
    {
      Inside();
      out := [];
      if Due(cell.clock, w.now) && w.takes(id) {
        out := [Packet(KEEPALIVE, 0, cell.ch.remote, id, [])];
        SetClock(id, cell.clock.(spoke := w.now));
      }
    }

    /** The pass has decided about n channels of o. */
    ghost predicate Checking(it: ChannelIterator, e: Endpoint, o: seq<nat>, c: Clocks, w: World, fs: seq<bool>,
                             out: seq<Packet>)
      reads this, it, it.it, index, index.Repr
    {
      && Passed(o, c, w, |fs|, index.order, it.Pos(), clocks) && Multiplexer.Valid(e)
      && state == RunFrom(e, Decisions(o[..|fs|], c, w, fs)) && out == Outputs(e, Decisions(o[..|fs|], c, w, fs))
    }

    /** One round of multiplex_handler_checkpoint. */
    method CheckNext(it: ChannelIterator, w: World, out: seq<Packet>,
                     ghost e: Endpoint, ghost o: seq<nat>, ghost c: Clocks, ghost fs: seq<bool>)
      returns (more: bool, out': seq<Packet>, ghost fs': seq<bool>)
      requires Valid() && Apart(it) && it.Valid() && Checking(it, e, o, c, w, fs, out)
      modifies Repr(), it.it
      ensures Valid() && Apart(it) && it.Valid() && fresh(Repr() - old(Repr())) && Checking(it, e, o, c, w, fs', out')
      ensures more == (|fs| < |o|) && (more ==> |fs'| == |fs| + 1) && (!more ==> fs' == fs)
    {
      out', fs' := out, fs;
      ghost var order, pos, was := index.order, it.Pos(), clocks;
      PassedHere(o, c, w, |fs|, order, pos, was);
      var id, sent;
      ghost var freed;
      more, id, sent, freed := CheckOne(it, w);
      if more {
        PassedNext(o, c, w, |fs|, order, pos, was);
        DecisionsNext(e, o, c, w, |fs|, fs, freed);
        out', fs' := out + sent, fs + [freed];
      }
    }

    method CheckOne(it: ChannelIterator, w: World) returns (more: bool, id: nat, out: seq<Packet>, ghost freed: bool)
      requires Valid() && Apart(it) && it.Valid()
      modifies Repr(), it.it
      ensures Valid() && Apart(it) && it.Valid() && fresh(Repr() - old(Repr())) && Multiplexer.Valid(old(state))
      ensures more == (old(it.Pos()) < |old(index.order)|)
      ensures !more ==> && state == old(state) && clocks == old(clocks) && index.order == old(index.order)
                        && it.Pos() == old(it.Pos())
      ensures more ==> id == old(index.order)[old(it.Pos())] && id in old(clocks)
                       && (state, out) == Decided(old(state), Decision(id, old(clocks)[id], w, freed))
                       && clocks == CheckedClock(old(clocks), id, w)
      ensures more ==> if Expired(old(clocks)[id], w.now)
                       then it.Pos() == old(it.Pos())
                            && index.order == LinkedHashtable.Without(old(index.order), it.Pos())
                       else it.Pos() == old(it.Pos()) + 1 && index.order == old(index.order)
    {
      Inside();
      out, freed := [], false;
      var a;
      more, id, a := it.Next();
      if more { out, freed := Decide(it, id, a, w); }
    }

    /** multiplex_handler_checkpoint: decides about every channel by its clock, in the order of
        the table. */
    method Checkpoint(w: World) returns (out: seq<Packet>, ghost fs: seq<bool>)
      requires Valid()
      modifies Repr()
      ensures Valid() && fresh(Repr() - old(Repr())) && Multiplexer.Valid(old(state))
      ensures Covers(old(index.order), old(clocks)) && |fs| == |old(index.order)|
      ensures var ins := Decisions(old(index.order), old(clocks), w, fs);
              state == RunFrom(old(state), ins) && out == Outputs(old(state), ins)
      ensures clocks == CheckedClocks(old(index.order), old(clocks), w)
      ensures state.table.Keys == clocks.Keys
      ensures JustClosed(old(state), state, Leaving(old(index.order), old(clocks), w), Timeout)
    {
      Inside();
      Ordered();
      ghost var o, e, c := index.order, state, clocks;
      out, fs := CheckAll(w);
      AllTaken(o, fs);
      DecisionsMean(e, o, c, w, fs, |o|);
      Ordered();
    }

    /** The pass over the table. */
    method CheckAll(w: World) returns (out: seq<Packet>, ghost fs: seq<bool>)
      requires Valid()
      modifies Repr()
      ensures Valid() && fresh(Repr() - old(Repr())) && Multiplexer.Valid(old(state))
      ensures Covers(old(index.order), old(clocks)) && |fs| == |old(index.order)|
      ensures var ins := Decisions(old(index.order), old(clocks), w, fs);
              state == RunFrom(old(state), ins) && out == Outputs(old(state), ins)
      ensures clocks == CheckedClocks(old(index.order), old(clocks), w)
    {
      Inside();
      Ordered();
      ghost var o, e, c := index.order, state, clocks;
      out, fs := [], [];
      var it := new ChannelIterator(index);
      PassedNone(o, c, w);
      while true
        invariant Valid() && Apart(it) && it.Valid() && fresh(it.it) && fresh(Repr() - old(Repr()))
        invariant Checking(it, e, o, c, w, fs, out)
        decreases |o| - |fs|
      {
        var more;
        more, out, fs := CheckNext(it, w, out, e, o, c, fs);
        if !more { break; }
      }
      AllTaken(o, fs);
    }

    lemma AllTaken(o: seq<nat>, fs: seq<bool>)
      requires |fs| == |o|
      ensures o[..|o|] == o && fs[..|o|] == fs
    {
    }

    lemma AllListed()
      requires Valid()
      ensures forall id :: id in index.order <==> id in state.table
    {
      Inside();
      index.Distinct();
    }

    /** The order names every channel once, and every channel has its clock. */
    lemma Ordered()
      requires Valid()
      ensures Covers(index.order, clocks) && clocks.Keys == state.table.Keys
      ensures forall i, j :: 0 <= i < j < |index.order| ==> index.order[i] != index.order[j]
    {
      Inside();
      index.Distinct();
    }
  }

  lemma TakenBackClock(clocks: Clocks, id: nat, c: Clock)
    requires id !in clocks
    ensures clocks[id := c] - {id} == clocks
  {
  }

  /** Logging keeps an endpoint consistent. */
  lemma Logged(e: Endpoint, f: Endpoint)
    requires Multiplexer.Valid(e) && f.(stream := e.stream, streamOut := e.streamOut) == e
    ensures Multiplexer.Valid(f)
  {
    Look(e);
    assert Consistent(f);
  }

  lemma UniqueChannels(e: Endpoint)
    requires Multiplexer.Valid(e)
    ensures Unique(e.table) && forall id :: id in e.table ==> 1 <= id <= MAX_CHANNEL_ID
  {
    Look(e);
  }

  lemma LookIds(e: Endpoint)
    requires Multiplexer.Valid(e)
    ensures e.ids.Valid() && e.ids.max == MAX_CHANNEL_ID
            && NewId(e) == (if Ids.NextFit(e.ids) == -1 then -1 else Ids.NextFit(e.ids) + 1)
    ensures NewId(e) == -1 ==> Ids.AfterAlloc(e.ids) == e.ids
  {
    Look(e);
  }

  lemma Created(e: Endpoint, ctype: nat, remote: nat, from: Origin)
    requires Multiplexer.Valid(e) && NewId(e) != -1
    ensures var f := Create(e, ctype, remote, from);
            && e.ids.Valid() && f.ids == Ids.AfterAlloc(e.ids) && f.made == e.made + 1
            && f.table == e.table[NewId(e) := Channel(remote, ctype, Opening, e.made + 1)]
    ensures NewId(e) >= 1 && NewId(e) !in e.table && !Listed(e.table, e.made + 1)
  {
    Look(e);
    NewIsFresh(e);
  }

  lemma NewAddress(address: map<nat, int>, cells: Memory, a: nat)
    requires Stored(address, cells) && !Listed(TableIn(address, cells), a)
    ensures forall id :: id in address ==> address[id] != a
  {
    forall id | id in address ensures address[id] != a { assert TableIn(address, cells)[id].num == address[id]; }
  }
}
