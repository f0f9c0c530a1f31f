/** Two multiplexer endpoints joined by lossless FIFO links. Channels are paired as their
    open packets say, and data arrives in order, without loss, gain or mixing. */
module TwoPeers {
  import opened Bytes
  import opened Wire
  import opened Multiplexer
  import opened Sealing
  import Ids = IdAllocator

  // ----- what is on a link -----

  /** The payloads for channel b among the packets of a link. */
  function DataFor(q: seq<Packet>, b: nat): seq<Payload> {
    if q == [] then [] else DataOf(q[0], b) + DataFor(q[1..], b)
  }

  function DataOf(p: Packet, b: nat): seq<Payload> {
    if p.ptype == DATA && p.local == b then [p.payload] else []
  }

  /** No data for b comes before a positive confirmation for b. */
  predicate Ready(q: seq<Packet>, b: nat) {
    q == [] || (q[0].ptype == CONFIRM && q[0].local == b && q[0].remote != 0)
    || (!(q[0].ptype == DATA && q[0].local == b) && Ready(q[1..], b))
  }

  predicate HasConfirm(q: seq<Packet>, b: nat) {
    q != [] && ((q[0].ptype == CONFIRM && q[0].local == b && q[0].remote != 0) || HasConfirm(q[1..], b))
  }

  lemma {:induction false} DataForAppend(q: seq<Packet>, r: seq<Packet>, b: nat)
    ensures DataFor(q + r, b) == DataFor(q, b) + DataFor(r, b)
  {
    if q == [] {
      assert q + r == r;
    } else {
      DataForAppend(q[1..], r, b);
      AppendRest(q, r);
      AppendAppend(DataOf(q[0], b), DataFor(q[1..], b), DataFor(r, b));
    }
  }

  lemma {:induction false} ReadyAppend(q: seq<Packet>, r: seq<Packet>, b: nat)
    requires Ready(q, b) && (HasConfirm(q, b) || Ready(r, b))
    ensures Ready(q + r, b)
  {
    if q == [] {
      assert q + r == r;
    } else {
      assert (q + r)[1..] == q[1..] + r;
      if !(q[0].ptype == CONFIRM && q[0].local == b && q[0].remote != 0) { ReadyAppend(q[1..], r, b); }
    }
  }

  lemma {:induction false} HasConfirmAppend(q: seq<Packet>, r: seq<Packet>, b: nat)
    ensures HasConfirm(q + r, b) <==> HasConfirm(q, b) || HasConfirm(r, b)
  {
    if q == [] {
      assert q + r == r;
    } else {
      HasConfirmAppend(q[1..], r, b);
      assert (q + r)[1..] == q[1..] + r;
    }
  }

  lemma {:induction false} NoDataFor(q: seq<Packet>, b: nat)
    requires forall k :: 0 <= k < |q| ==> !(q[k].ptype == DATA && q[k].local == b)
    ensures DataFor(q, b) == []
  {
    if q != [] { NoDataFor(q[1..], b); }
  }

  /** The payloads delivered on a channel, from its callbacks. */
  function Payloads(t: seq<Event>): seq<Payload> {
    if t == [] then [] else Payloads(t[..|t| - 1]) + (if t[|t| - 1].Data? then [t[|t| - 1].payload] else [])
  }

  function DeliveredOn(e: Endpoint, n: nat): seq<Payload> { Payloads(EventsOf(e, n)) }

  lemma PayloadsSnoc(t: seq<Event>, ev: Event)
    ensures Payloads(t + [ev]) == Payloads(t) + if ev.Data? then [ev.payload] else []
  {
    assert (t + [ev])[..|t|] == t;
  }

  // ----- the invariant -----

  /** While an endpoint has made no more channels than there are ids, the id of a channel is
      its number, so ids are never reused. */
  ghost predicate Numbered(e: Endpoint) {
    && Valid(e) && Consistent(e) && e.made <= MAX_CHANNEL_ID && e.ids.latest == e.made - 1
    && (forall p :: p in e.ids.marks ==> p < e.made)
    && (forall id :: id in e.table ==> e.table[id].num == id)
    && (forall n :: n in e.origin <==> 1 <= n <= e.made)
  }

  type Origins = map<nat, Origin>

  /** Channels a and b are the two ends of one channel: one was made for the open packet of
      the other. */
  ghost predicate Linked(x: Origins, y: Origins, a: nat, b: nat) {
    (a in x && x[a] == Passive(b)) || (b in y && y[b] == Passive(a))
  }

  /** Channels made for the other side were asked for by it, each once. */
  ghost predicate Pairing(x: Origins, y: Origins) {
    && (forall b :: b in y && y[b].Passive? ==> y[b].peer in x && x[y[b].peer] == Active)
    && (forall b, c :: b in y && c in y && y[b].Passive? && y[b] == y[c] ==> b == c)
  }

  /** An open packet on the way is the only one of its channel, and nothing was made for it yet. */
  ghost predicate Opens(x: Origins, y: Origins, q: seq<Packet>) {
    && (forall k :: 0 <= k < |q| && q[k].ptype == OPEN ==> q[k].remote in x && x[q[k].remote] == Active)
    && (forall k, b :: 0 <= k < |q| && q[k].ptype == OPEN && b in y ==> y[b] != Passive(q[k].remote))
    && (forall j, k :: 0 <= j < k < |q| && q[j].ptype == OPEN && q[k].ptype == OPEN ==> q[j].remote != q[k].remote)
  }

  /** Confirmations answer opens; data goes from one end to the other. */
  ghost predicate Addressed(x: Origins, y: Origins, q: seq<Packet>) {
    forall k :: 0 <= k < |q| ==> WellAddressed(x, y, q[k])
  }

  ghost predicate WellAddressed(x: Origins, y: Origins, p: Packet) {
    && (p.ptype == CONFIRM && p.local != 0 ==>
          p.local in y && y[p.local] == Active && (p.remote != 0 ==> p.remote in x && x[p.remote] == Passive(p.local)))
    && (p.ptype == DATA ==> (p.local == 0 && p.remote == 0) || (p.local != 0 && Linked(x, y, p.remote, p.local)))
  }

  /** Every channel is waiting for its confirmation or knows its other end. */
  ghost predicate Ends(x: Origins, y: Origins, table: map<nat, Channel>) {
    && (forall a :: a in table ==> a in x && (table[a].status == Opening <==> table[a].remote == 0))
    && (forall a :: a in table && table[a].status == Opening ==> x[a] == Active)
    && (forall a :: a in table && table[a].status != Opening ==> Linked(x, y, a, table[a].remote))
  }

  /** Data written on one end was delivered on the other or is on the way; once the receiving
      end is gone, what it got is a prefix. */
  ghost predicate Kept(written: seq<Payload>, got: seq<Payload>, alive: bool, coming: seq<Payload>) {
    got <= written && (alive ==> written == got + coming)
  }

  ghost predicate Conserved(x: Endpoint, y: Endpoint, q: seq<Packet>) {
    forall a, b :: Linked(x.origin, y.origin, a, b) ==>
      Kept(WrittenOn(x, a), DeliveredOn(y, b), b in y.table, DataFor(q, b))
  }

  ghost predicate HasEnd(x: Origins, y: Origins, a: nat) { exists b :: Linked(x, y, a, b) }

  /** Only channels with another end carry data. */
  ghost predicate Carried(x: Endpoint, y: Endpoint) {
    && (forall a :: WrittenOn(x, a) != [] ==> HasEnd(x.origin, y.origin, a))
    && (forall b :: DeliveredOn(y, b) != [] ==> HasEnd(y.origin, x.origin, b))
  }

  /** A channel that waits for its confirmation gets it before any data. */
  ghost predicate Ordered(x: Origins, xt: map<nat, Channel>, yt: map<nat, Channel>, q: seq<Packet>) {
    && (forall b :: b in yt && yt[b].status == Opening ==> Ready(q, b))
    && (forall a :: a in xt && a in x && x[a].Passive? && x[a].peer in yt && yt[x[a].peer].status == Opening
          ==> HasConfirm(q, x[a].peer))
  }

  /** All that concerns what x sends to y over the link q. */
  ghost predicate Half(x: Endpoint, y: Endpoint, q: seq<Packet>) {
    && Pairing(x.origin, y.origin) && Opens(x.origin, y.origin, q) && Addressed(x.origin, y.origin, q)
    && Ends(x.origin, y.origin, x.table) && Conserved(x, y, q) && Carried(x, y)
    && Ordered(x.origin, x.table, y.table, q) && x.streamOut == y.stream + DataFor(q, 0)
  }

  // ----- the link -----

  /** Packets other than open, confirmation and data. */
  ghost predicate Light(p: Packet) { p.ptype != OPEN && p.ptype != CONFIRM && p.ptype != DATA }

  lemma AppendAddressing(x: Origins, y: Origins, q: seq<Packet>, p: Packet)
    requires Opens(x, y, q) && Addressed(x, y, q) && WellAddressed(x, y, p) && p.ptype != OPEN
    ensures Opens(x, y, q + [p]) && Addressed(x, y, q + [p])
  {
  }

  lemma AppendOrdered(x: Origins, xt: map<nat, Channel>, yt: map<nat, Channel>, q: seq<Packet>, p: Packet)
    requires Ordered(x, xt, yt, q)
    requires p.ptype == DATA && p.local in yt && yt[p.local].status == Opening ==> HasConfirm(q, p.local)
    ensures Ordered(x, xt, yt, q + [p])
  {
    forall b | b in yt && yt[b].status == Opening ensures Ready(q + [p], b) { ReadyAppend(q, [p], b); }
    forall b | HasConfirm(q, b) ensures HasConfirm(q + [p], b) { HasConfirmAppend(q, [p], b); }
  }

  lemma DataForSnoc(q: seq<Packet>, p: Packet, b: nat)
    ensures DataFor(q + [p], b) == DataFor(q, b) + if p.ptype == DATA && p.local == b then [p.payload] else []
  {
    DataForAppend(q, [p], b);
  }

  /** Sending anything but an open or data. */
  lemma AppendPlain(x: Endpoint, y: Endpoint, q: seq<Packet>, p: Packet)
    requires Half(x, y, q) && WellAddressed(x.origin, y.origin, p) && p.ptype != OPEN && p.ptype != DATA
    ensures Half(x, y, q + [p])
  {
    forall b ensures DataFor(q + [p], b) == DataFor(q, b) { DataForSnoc(q, p, b); }
    AppendOrdered(x.origin, x.table, y.table, q, p);
    AppendAddressing(x.origin, y.origin, q, p);
  }

  /** Taking a packet off the link leaves the addressing of the others alone. */
  lemma PopAddressing(x: Origins, y: Origins, q: seq<Packet>)
    requires q != [] && Opens(x, y, q) && Addressed(x, y, q)
    ensures Opens(x, y, q[1..]) && Addressed(x, y, q[1..])
  {
    assert forall k :: 0 <= k < |q| - 1 ==> q[1..][k] == q[k + 1];
  }

  /** A packet that y ignores. */
  ghost predicate Ignored(y: Endpoint, p: Packet) {
    || Light(p) || p.ptype == OPEN
    || (p.ptype == CONFIRM && (p.local !in y.table || y.table[p.local].status != Opening))
    || (p.ptype == DATA && p.local != 0 && p.local !in y.table)
  }

  lemma PopOrdered(x: Origins, xt: map<nat, Channel>, yt: map<nat, Channel>, q: seq<Packet>)
    requires q != [] && Ordered(x, xt, yt, q)
    requires !(q[0].ptype == CONFIRM && q[0].local in yt && yt[q[0].local].status == Opening)
    ensures Ordered(x, xt, yt, q[1..])
  {
  }

  lemma PopIgnored(x: Endpoint, y: Endpoint, q: seq<Packet>)
    requires q != [] && Half(x, y, q) && Ignored(y, q[0])
    ensures Half(x, y, q[1..])
  {
    PopAddressing(x.origin, y.origin, q);
    assert forall b :: b in y.table || b == 0 ==> DataFor(q[1..], b) == DataFor(q, b);
    assert Conserved(x, y, q[1..]);
  }

  lemma {:induction false} ReadyWithoutData(q: seq<Packet>, b: nat)
    requires DataFor(q, b) == []
    ensures Ready(q, b)
  {
    if q != [] && !(q[0].ptype == DATA && q[0].local == b) { ReadyWithoutData(q[1..], b); }
  }

  // ----- links between channels -----

  /** A channel has at most one other end. */
  lemma LinkedUnique(x: Origins, y: Origins)
    requires Pairing(x, y) && Pairing(y, x)
    ensures forall a, b, c :: Linked(x, y, a, b) && Linked(x, y, a, c) ==> b == c
    ensures forall a, b, c :: Linked(x, y, a, b) && Linked(x, y, c, b) ==> a == c
  {
  }

  /** Nothing is addressed to a channel that no link reaches. */
  lemma NoDataYet(x: Origins, y: Origins, q: seq<Packet>, b: nat)
    requires Addressed(x, y, q) && b != 0 && forall a :: !Linked(x, y, a, b)
    ensures DataFor(q, b) == []
  {
    forall k | 0 <= k < |q| ensures !(q[k].ptype == DATA && q[k].local == b) { assert WellAddressed(x, y, q[k]); }
    NoDataFor(q, b);
  }

  // ----- changes of one endpoint -----

  /** Nothing was written or delivered. */
  ghost predicate SameData(y: Endpoint, z: Endpoint) {
    && z.stream == y.stream && z.streamOut == y.streamOut
    && (forall n :: WrittenOn(z, n) == WrittenOn(y, n)) && (forall n :: DeliveredOn(z, n) == DeliveredOn(y, n))
  }

  /** Channels may leave the table or change between open and pending. */
  ghost predicate Calm(y: Endpoint, z: Endpoint) {
    && SameData(y, z) && z.origin == y.origin
    && forall b :: b in z.table ==> && b in y.table && z.table[b].remote == y.table[b].remote
                                    && (z.table[b].status == Opening <==> y.table[b].status == Opening)
  }

  lemma CalmKeeps(x: Endpoint, y: Endpoint, z: Endpoint, q: seq<Packet>, r: seq<Packet>)
    requires Half(x, y, q) && Half(y, x, r) && Calm(y, z)
    ensures Half(x, z, q) && Half(z, x, r)
  {
    assert Conserved(x, z, q) && Ordered(x.origin, x.table, z.table, q);
    assert Conserved(z, x, r) && Ordered(z.origin, z.table, x.table, r);
  }

  lemma NotifyCalm(e: Endpoint, id: nat, ev: Event)
    requires Valid(e) && id in e.table && !ev.Data?
    ensures SameData(e, Notify(e, id, ev))
  {
    PayloadsSnoc(EventsOf(e, e.table[id].num), ev);
  }

  // ----- a confirmation arrives -----

  lemma ConfirmedIn(x: Endpoint, y: Endpoint, z: Endpoint, q: seq<Packet>)
    requires Half(x, y, q) && q != [] && q[0].ptype == CONFIRM && q[0].local in y.table && q[0].remote != 0
    requires SameData(y, z) && z.origin == y.origin
    requires z.table.Keys == y.table.Keys && z.table[q[0].local].status == Open
    requires forall b :: b in y.table && b != q[0].local ==> z.table[b] == y.table[b]
    ensures Half(x, z, q[1..])
  {
    PopAddressing(x.origin, y.origin, q);
    assert forall b :: DataFor(q[1..], b) == DataFor(q, b);
    assert Conserved(x, z, q[1..]);
    assert Ordered(x.origin, x.table, z.table, q[1..]);
  }

  lemma ConfirmedOut(x: Endpoint, y: Endpoint, z: Endpoint, q: seq<Packet>, r: seq<Packet>)
    requires Half(x, y, q) && Half(y, x, r)
    requires q != [] && q[0].ptype == CONFIRM && q[0].local in y.table && q[0].local != 0 && q[0].remote != 0
    requires SameData(y, z) && z.origin == y.origin && z.table.Keys == y.table.Keys
    requires z.table[q[0].local].status == Open && z.table[q[0].local].remote == q[0].remote
    requires forall b :: b in y.table && b != q[0].local ==> z.table[b] == y.table[b]
    ensures Half(z, x, r)
  {
    assert WellAddressed(x.origin, y.origin, q[0]);
    assert Ends(z.origin, x.origin, z.table);
    assert Conserved(z, x, r);
    assert Ordered(z.origin, z.table, x.table, r);
  }

  // ----- data arrives -----

  /** z is y with one more payload delivered on b. */
  ghost predicate Grew(y: Endpoint, z: Endpoint, b: nat, p: Payload) {
    && z.stream == y.stream && z.streamOut == y.streamOut && z.origin == y.origin && z.table == y.table
    && (forall n :: WrittenOn(z, n) == WrittenOn(y, n))
    && (forall n :: DeliveredOn(z, n) == if n == b then DeliveredOn(y, n) + [p] else DeliveredOn(y, n))
  }

  /** Data never reaches a channel that still waits for its confirmation. */
  lemma DataFindsOpen(x: Endpoint, y: Endpoint, q: seq<Packet>)
    requires Half(x, y, q) && q != [] && q[0].ptype == DATA && q[0].local in y.table
    ensures y.table[q[0].local].status != Opening
  {
  }

  lemma KeptDelivered(written: seq<Payload>, got: seq<Payload>, coming: seq<Payload>, p: Payload)
    requires Kept(written, got, true, [p] + coming)
    ensures Kept(written, got + [p], true, coming)
  {
    assert got + ([p] + coming) == (got + [p]) + coming;
  }

  lemma DeliveredConserved(x: Endpoint, y: Endpoint, z: Endpoint, q: seq<Packet>)
    requires Conserved(x, y, q) && q != [] && q[0].ptype == DATA && q[0].local in y.table
    requires Linked(x.origin, y.origin, q[0].remote, q[0].local)
    requires Grew(y, z, q[0].local, q[0].payload)
    ensures Conserved(x, z, q[1..])
  {
    var b, p := q[0].local, q[0].payload;
    forall a, c | Linked(x.origin, z.origin, a, c)
      ensures Kept(WrittenOn(x, a), DeliveredOn(z, c), c in z.table, DataFor(q[1..], c))
    {
      var coming := DataFor(q[1..], c);
      assert Kept(WrittenOn(x, a), DeliveredOn(y, c), c in y.table, DataOf(q[0], c) + coming);
      if c == b { KeptDelivered(WrittenOn(x, a), DeliveredOn(y, b), coming, p); } else { assert [] + coming == coming; }
    }
  }

  lemma DeliveredCarried(x: Endpoint, y: Endpoint, z: Endpoint, a: nat, b: nat, p: Payload)
    requires Carried(x, y) && Linked(x.origin, y.origin, a, b) && Grew(y, z, b, p)
    ensures Carried(x, z)
  {
    assert Linked(y.origin, x.origin, b, a);
  }

  lemma DeliveredIn(x: Endpoint, y: Endpoint, z: Endpoint, q: seq<Packet>)
    requires Half(x, y, q) && q != [] && q[0].ptype == DATA && q[0].local in y.table && q[0].local != 0
    requires Grew(y, z, q[0].local, q[0].payload)
    ensures Half(x, z, q[1..])
  {
    assert WellAddressed(x.origin, y.origin, q[0]);
    PopAddressing(x.origin, y.origin, q);
    DeliveredConserved(x, y, z, q);
    DeliveredCarried(x, y, z, q[0].remote, q[0].local, q[0].payload);
    PopOrdered(x.origin, x.table, y.table, q);
    assert DataFor(q, 0) == DataFor(q[1..], 0);
  }

  lemma DeliveredOut(x: Endpoint, y: Endpoint, z: Endpoint, r: seq<Packet>, b: nat, p: Payload)
    requires Half(y, x, r) && Grew(y, z, b, p)
    ensures Half(z, x, r)
  {
    assert Conserved(z, x, r);
  }

  // ----- data is written -----

  ghost predicate WroteOn(y: Endpoint, z: Endpoint, b: nat, p: Payload) {
    && z.stream == y.stream && z.streamOut == y.streamOut && z.origin == y.origin && z.table == y.table
    && (forall n :: DeliveredOn(z, n) == DeliveredOn(y, n))
    && (forall n :: WrittenOn(z, n) == if n == b then WrittenOn(y, n) + [p] else WrittenOn(y, n))
  }

  lemma WroteIn(x: Endpoint, y: Endpoint, z: Endpoint, q: seq<Packet>, b: nat, p: Payload)
    requires Half(x, y, q) && WroteOn(y, z, b, p)
    ensures Half(x, z, q)
  {
    assert Conserved(x, z, q);
  }

  lemma KeptWritten(written: seq<Payload>, got: seq<Payload>, alive: bool, coming: seq<Payload>, p: Payload)
    requires Kept(written, got, alive, coming)
    ensures Kept(written + [p], got, alive, coming + [p])
  {
  }

  lemma WroteConserved(x: Endpoint, y: Endpoint, z: Endpoint, r: seq<Packet>, b: nat, p: Packet)
    requires Conserved(y, x, r) && Pairing(x.origin, y.origin) && Pairing(y.origin, x.origin)
    requires WroteOn(y, z, b, p.payload) && Linked(y.origin, x.origin, b, p.local) && p.ptype == DATA
    ensures Conserved(z, x, r + [p])
  {
    LinkedUnique(y.origin, x.origin);
    forall d, c | Linked(z.origin, x.origin, d, c)
      ensures Kept(WrittenOn(z, d), DeliveredOn(x, c), c in x.table, DataFor(r + [p], c))
    {
      assert Kept(WrittenOn(y, d), DeliveredOn(x, c), c in x.table, DataFor(r, c));
      DataForSnoc(r, p, c);
      if d == b { KeptWritten(WrittenOn(y, d), DeliveredOn(x, c), c in x.table, DataFor(r, c), p.payload); }
    }
  }

  /** A written payload goes to the other end, behind the confirmation if that is on the way. */
  lemma WroteOut(x: Endpoint, y: Endpoint, z: Endpoint, q: seq<Packet>, r: seq<Packet>, b: nat, p: Packet)
    requires Half(x, y, q) && Half(y, x, r) && Usable(y, b) && WroteOn(y, z, b, p.payload)
    requires p.ptype == DATA && p.local == y.table[b].remote && p.remote == b
    ensures Half(z, x, r + [p])
  {
    assert Linked(y.origin, x.origin, b, p.local);
    WroteConserved(x, y, z, r, b, p);
    AppendOrdered(y.origin, y.table, x.table, r, p);
    DataForSnoc(r, p, 0);
    AppendAddressing(y.origin, x.origin, r, p);
  }

  // ----- channel 0 -----

  lemma StreamIn(x: Endpoint, y: Endpoint, z: Endpoint, q: seq<Packet>)
    requires Half(x, y, q) && q != [] && q[0].ptype == DATA && q[0].local == 0
    requires z == y.(stream := y.stream + [q[0].payload])
    requires 0 !in y.origin && 0 !in y.table && forall b :: b in x.origin ==> x.origin[b] != Passive(0)
    ensures Half(x, z, q[1..])
  {
    PopAddressing(x.origin, y.origin, q);
    assert forall b :: b != 0 ==> DataFor(q[1..], b) == DataFor(q, b);
    assert forall n :: DeliveredOn(z, n) == DeliveredOn(y, n);
    assert forall a, b :: Linked(x.origin, y.origin, a, b) ==> b != 0;
    assert Conserved(x, z, q[1..]);
    PopOrdered(x.origin, x.table, y.table, q);
    assert z.stream + DataFor(q[1..], 0) == y.stream + DataFor(q, 0);
  }

  lemma StreamInKeepsOut(x: Endpoint, y: Endpoint, z: Endpoint, r: seq<Packet>)
    requires Half(y, x, r) && z.(stream := y.stream) == y
    ensures Half(z, x, r)
  {
    assert forall n :: WrittenOn(z, n) == WrittenOn(y, n);
    assert Conserved(z, x, r);
  }

  lemma StreamOutKeepsIn(x: Endpoint, y: Endpoint, z: Endpoint, q: seq<Packet>)
    requires Half(x, y, q) && z.(streamOut := y.streamOut) == y
    ensures Half(x, z, q)
  {
    assert forall n :: DeliveredOn(z, n) == DeliveredOn(y, n);
    assert Conserved(x, z, q);
  }

  lemma StreamOut(x: Endpoint, y: Endpoint, z: Endpoint, r: seq<Packet>, p: Packet)
    requires Half(y, x, r) && p.ptype == DATA && p.local == 0 && p.remote == 0
    requires z == y.(streamOut := y.streamOut + [p.payload])
    requires 0 !in x.origin && 0 !in x.table && forall b :: b in y.origin ==> y.origin[b] != Passive(0)
    ensures Half(z, x, r + [p])
  {
    assert forall n :: WrittenOn(z, n) == WrittenOn(y, n);
    forall a, b | Linked(y.origin, x.origin, a, b)
      ensures Kept(WrittenOn(z, a), DeliveredOn(x, b), b in x.table, DataFor(r + [p], b))
    {
      DataForSnoc(r, p, b);
    }
    DataForSnoc(r, p, 0);
    AppendOrdered(y.origin, y.table, x.table, r, p);
    AppendAddressing(y.origin, x.origin, r, p);
  }

  // ----- a channel is recorded -----

  /** z is y with the new channel n, not yet in the table. */
  ghost predicate Recorded(y: Endpoint, z: Endpoint, n: nat, o: Origin) {
    SameData(y, z) && n !in y.origin && n != 0 && z.origin == y.origin[n := o] && z.table == y.table
  }

  /** Before it is recorded no link reaches a channel. */
  lemma UnknownUnlinked(x: Origins, y: Origins, n: nat)
    requires Pairing(y, x) && n !in y
    ensures forall a :: !Linked(x, y, a, n)
  {
  }

  /** Before its open packet arrives neither does one reach the channel that asks. */
  lemma AskerUnlinked(x: Origins, y: Origins, q: seq<Packet>)
    requires q != [] && q[0].ptype == OPEN && Opens(x, y, q)
    ensures forall b :: !Linked(x, y, q[0].remote, b)
  {
  }

  lemma LinkedSymmetric(x: Origins, y: Origins, a: nat, b: nat)
    ensures Linked(x, y, a, b) <==> Linked(y, x, b, a)
  {
  }

  lemma RecordPairing(x: Origins, y: Origins, n: nat, o: Origin)
    requires Pairing(x, y) && Pairing(y, x) && n !in y
    requires o.Passive? ==> o.peer in x && x[o.peer] == Active && forall b :: b in y ==> y[b] != o
    ensures Pairing(x, y[n := o]) && Pairing(y[n := o], x)
  {
    UnknownUnlinked(x, y, n);
  }

  lemma RecordLinked(x: Origins, y: Origins, n: nat, o: Origin, a: nat, b: nat)
    requires n !in y
    ensures Linked(x, y[n := o], a, b) <==> Linked(x, y, a, b) || (b == n && o == Passive(a))
  {
  }

  lemma RecordLinks(x: Origins, y: Origins, n: nat, o: Origin, table: map<nat, Channel>, r: seq<Packet>)
    requires n !in y && Opens(y, x, r) && Addressed(y, x, r) && Ends(y, x, table)
    ensures var w := y[n := o]; Opens(w, x, r) && Addressed(w, x, r) && Ends(w, x, table)
  {
    var w := y[n := o];
    assert forall a, b :: Linked(y, x, a, b) ==> Linked(w, x, a, b);
    assert forall k :: 0 <= k < |r| ==> WellAddressed(y, x, r[k]) && WellAddressed(w, x, r[k]);
  }

  lemma RecordCarried(x: Endpoint, y: Endpoint, z: Endpoint, n: nat, o: Origin)
    requires Carried(x, y) && Carried(y, x) && Recorded(y, z, n, o)
    ensures Carried(x, z) && Carried(z, x)
  {
    forall a | HasEnd(x.origin, y.origin, a) ensures HasEnd(x.origin, z.origin, a) {
      var b :| Linked(x.origin, y.origin, a, b);
      assert Linked(x.origin, z.origin, a, b);
    }
    forall b | HasEnd(y.origin, x.origin, b) ensures HasEnd(z.origin, x.origin, b) {
      var a :| Linked(y.origin, x.origin, b, a);
      assert Linked(z.origin, x.origin, b, a);
    }
  }

  /** Nothing has gone to either end of a link that is being made. */
  ghost predicate Untouched(x: Endpoint, y: Endpoint, q: seq<Packet>, r: seq<Packet>, a: nat, n: nat) {
    && WrittenOn(x, a) == [] && DeliveredOn(x, a) == [] && WrittenOn(y, n) == [] && DeliveredOn(y, n) == []
    && DataFor(q, n) == [] && DataFor(r, a) == []
  }

  lemma AskerUntouched(x: Endpoint, y: Endpoint, q: seq<Packet>, r: seq<Packet>, n: nat)
    requires Half(x, y, q) && Half(y, x, r) && q != [] && q[0].ptype == OPEN && q[0].remote != 0
    requires n !in y.origin && n != 0
    ensures Untouched(x, y, q[1..], r, q[0].remote, n)
  {
    var a := q[0].remote;
    AskerUnlinked(x.origin, y.origin, q);
    UnknownUnlinked(x.origin, y.origin, n);
    forall b ensures !Linked(y.origin, x.origin, b, a) { LinkedSymmetric(x.origin, y.origin, a, b); }
    forall b ensures !Linked(y.origin, x.origin, n, b) { LinkedSymmetric(x.origin, y.origin, b, n); }
    NoDataYet(y.origin, x.origin, r, a);
    NoDataYet(x.origin, y.origin, q, n);
    assert !HasEnd(x.origin, y.origin, a) && !HasEnd(y.origin, x.origin, n);
  }

  lemma RecordConserved(x: Endpoint, y: Endpoint, z: Endpoint, q: seq<Packet>, r: seq<Packet>, n: nat, o: Origin)
    requires Conserved(x, y, q) && Conserved(y, x, r) && Recorded(y, z, n, o)
    requires o.Passive? ==> Untouched(x, y, q, r, o.peer, n)
    ensures Conserved(x, z, q) && Conserved(z, x, r)
  {
    forall a, b | Linked(x.origin, z.origin, a, b)
      ensures Kept(WrittenOn(x, a), DeliveredOn(z, b), b in z.table, DataFor(q, b))
    {
      RecordLinked(x.origin, y.origin, n, o, a, b);
    }
    forall b, a | Linked(z.origin, x.origin, b, a)
      ensures Kept(WrittenOn(z, b), DeliveredOn(x, a), a in x.table, DataFor(r, a))
    {
      RecordLinked(x.origin, y.origin, n, o, a, b);
      LinkedSymmetric(z.origin, x.origin, b, a);
      LinkedSymmetric(y.origin, x.origin, b, a);
    }
  }

  lemma RecordHeads(x: Origins, y: Origins, q: seq<Packet>, n: nat)
    requires q != [] && q[0].ptype == OPEN && Opens(x, y, q) && Pairing(x, y) && Pairing(y, x) && n !in y
    ensures var w := y[n := Passive(q[0].remote)]; Pairing(x, w) && Pairing(w, x)
    ensures forall k :: 0 <= k < |q| - 1 && q[1..][k].ptype == OPEN ==> q[0].remote != q[1..][k].remote
  {
    RecordPairing(x, y, n, Passive(q[0].remote));
    assert forall k :: 0 <= k < |q| - 1 ==> q[1..][k] == q[k + 1];
  }

  lemma RecordPassive(x: Endpoint, y: Endpoint, z: Endpoint, q: seq<Packet>, r: seq<Packet>, n: nat)
    requires Half(x, y, q) && Half(y, x, r) && q != [] && q[0].ptype == OPEN && q[0].remote != 0
    requires Recorded(y, z, n, Passive(q[0].remote))
    ensures Half(x, z, q[1..]) && Half(z, x, r)
  {
    var o := Passive(q[0].remote);
    AskerUntouched(x, y, q, r, n);
    RecordHeads(x.origin, y.origin, q, n);
    PopIgnored(x, y, q);
    RecordConserved(x, y, z, q[1..], r, n, o);
    RecordCarried(x, y, z, n, o);
    RecordLinks(x.origin, y.origin, n, o, y.table, r);
    RecordOpens(x.origin, y.origin, n, o, x.table, q[1..]);
    assert Ordered(z.origin, z.table, x.table, r);
  }

  lemma RecordOpens(x: Origins, y: Origins, n: nat, o: Origin, table: map<nat, Channel>, q: seq<Packet>)
    requires n !in y && Opens(x, y, q) && Addressed(x, y, q) && Ends(x, y, table)
    requires forall k :: 0 <= k < |q| && q[k].ptype == OPEN ==> o != Passive(q[k].remote)
    ensures var w := y[n := o]; Opens(x, w, q) && Addressed(x, w, q) && Ends(x, w, table)
  {
    var w := y[n := o];
    assert forall a, b :: Linked(x, y, a, b) ==> Linked(x, w, a, b);
    assert forall k :: 0 <= k < |q| ==> WellAddressed(x, y, q[k]) && WellAddressed(x, w, q[k]);
  }

  lemma RecordActive(x: Endpoint, y: Endpoint, z: Endpoint, q: seq<Packet>, r: seq<Packet>, n: nat)
    requires Half(x, y, q) && Half(y, x, r) && Recorded(y, z, n, Active)
    ensures Half(x, z, q) && Half(z, x, r)
  {
    RecordPairing(x.origin, y.origin, n, Active);
    RecordConserved(x, y, z, q, r, n, Active);
    RecordCarried(x, y, z, n, Active);
    RecordLinks(x.origin, y.origin, n, Active, y.table, r);
    RecordOpens(x.origin, y.origin, n, Active, x.table, q);
    assert Ordered(z.origin, z.table, x.table, r);
  }

  // ----- a recorded channel enters the table -----

  ghost predicate Entered(y: Endpoint, z: Endpoint, n: nat, ch: Channel) {
    SameData(y, z) && z.origin == y.origin && n !in y.table && z.table == y.table[n := ch]
  }

  lemma EnteredConserved(x: Endpoint, y: Endpoint, z: Endpoint, q: seq<Packet>, n: nat, ch: Channel)
    requires Conserved(x, y, q) && Entered(y, z, n, ch)
    requires forall a :: Linked(x.origin, y.origin, a, n) ==> WrittenOn(x, a) == []
    requires DataFor(q, n) == []
    ensures Conserved(x, z, q)
  {
    forall a, b | Linked(x.origin, z.origin, a, b)
      ensures Kept(WrittenOn(x, a), DeliveredOn(z, b), b in z.table, DataFor(q, b))
    {
      assert Kept(WrittenOn(x, a), DeliveredOn(y, b), b in y.table, DataFor(q, b));
    }
  }

  /** The channel made for an open packet, accepted. */
  lemma AcceptedIn(x: Endpoint, y: Endpoint, z: Endpoint, q: seq<Packet>, r: seq<Packet>, n: nat, a: nat, ch: Channel)
    requires Half(x, y, q) && Half(y, x, r) && Entered(y, z, n, ch) && ch.status == Open
    requires n in y.origin && y.origin[n] == Passive(a) && WrittenOn(x, a) == [] && DataFor(q, n) == []
    ensures Half(x, z, q)
  {
    assert Linked(x.origin, y.origin, a, n);
    LinkedUnique(x.origin, y.origin);
    EnteredConserved(x, y, z, q, n, ch);
    assert Ordered(x.origin, x.table, z.table, q);
  }

  lemma AcceptedOrdered(y: Origins, yt: map<nat, Channel>, xt: map<nat, Channel>, r: seq<Packet>, n: nat, ch: Channel,
                        p: Packet)
    requires Ordered(y, yt, xt, r) && n in y && y[n] == Passive(p.local)
    requires p.ptype == CONFIRM && p.remote != 0
    ensures Ordered(y, yt[n := ch], xt, r + [p])
  {
    AppendOrdered(y, yt, xt, r, p);
    HasConfirmAppend(r, [p], p.local);
  }

  lemma AcceptedOut(x: Endpoint, y: Endpoint, z: Endpoint, r: seq<Packet>, n: nat, ch: Channel, p: Packet)
    requires Half(y, x, r) && Entered(y, z, n, ch) && ch.status == Open && ch.remote == p.local != 0
    requires p.ptype == CONFIRM && p.remote == n != 0
    requires n in y.origin && y.origin[n] == Passive(p.local)
    requires p.local in x.origin && x.origin[p.local] == Active
    ensures Half(z, x, r + [p])
  {
    AppendPlain(y, x, r, p);
    AcceptedOrdered(y.origin, y.table, x.table, r, n, ch, p);
    assert Ends(z.origin, x.origin, z.table);
    assert Conserved(z, x, r + [p]);
  }

  /** A channel of this side that was just recorded, while its open packet is sent. */
  lemma AskedIn(x: Endpoint, y: Endpoint, z: Endpoint, q: seq<Packet>, n: nat, ch: Channel)
    requires Half(x, y, q) && Entered(y, z, n, ch) && DataFor(q, n) == []
    requires forall a :: !Linked(x.origin, y.origin, a, n)
    ensures Half(x, z, q)
  {
    EnteredConserved(x, y, z, q, n, ch);
    ReadyWithoutData(q, n);
    assert forall a :: a in x.origin ==> x.origin[a] != Passive(n) by {
      forall a | a in x.origin ensures x.origin[a] != Passive(n) { assert !Linked(x.origin, y.origin, a, n); }
    }
    assert Ordered(x.origin, x.table, z.table, q);
  }

  lemma AskedOut(x: Endpoint, y: Endpoint, z: Endpoint, r: seq<Packet>, n: nat, ch: Channel, p: Packet)
    requires Half(y, x, r) && Entered(y, z, n, ch) && ch.status == Opening && ch.remote == 0
    requires n in y.origin && y.origin[n] == Active && p.ptype == OPEN && p.remote == n
    requires forall a :: !Linked(x.origin, y.origin, a, n)
    requires forall k :: 0 <= k < |r| && r[k].ptype == OPEN ==> r[k].remote != n
    ensures Half(z, x, r + [p])
  {
    forall a | a in x.origin ensures x.origin[a] != Passive(n) { assert !Linked(x.origin, y.origin, a, n); }
    assert Opens(y.origin, x.origin, r + [p]);
    assert Addressed(y.origin, x.origin, r + [p]);
    assert Ends(z.origin, x.origin, z.table);
    forall b ensures DataFor(r + [p], b) == DataFor(r, b) { DataForSnoc(r, p, b); }
    assert Conserved(z, x, r + [p]);
    AppendOrdered(y.origin, y.table, x.table, r, p);
  }

  // ----- both directions at once -----

  /** The two halves as one fact that proofs open only where they need it. */
  ghost predicate Halves(x: Endpoint, y: Endpoint, q: seq<Packet>, r: seq<Packet>) {
    forall i {:trigger Unsealed(BothHalves, i)} :: Unsealed(BothHalves, i) ==> Half(x, y, q) && Half(y, x, r)
  }

  lemma LookBoth(x: Endpoint, y: Endpoint, q: seq<Packet>, r: seq<Packet>)
    requires Halves(x, y, q, r)
    ensures Half(x, y, q) && Half(y, x, r)
  {
    assert Unsealed(BothHalves, 0);
  }

  lemma CalmHalves(x: Endpoint, y: Endpoint, z: Endpoint, q: seq<Packet>, r: seq<Packet>)
    requires Halves(x, y, q, r) && Calm(y, z)
    ensures Halves(x, z, q, r)
  {
    LookBoth(x, y, q, r);
    CalmKeeps(x, y, z, q, r);
  }

  lemma PopHalves(x: Endpoint, y: Endpoint, q: seq<Packet>, r: seq<Packet>)
    requires Halves(x, y, q, r) && q != [] && Ignored(y, q[0])
    ensures Halves(x, y, q[1..], r)
  {
    LookBoth(x, y, q, r);
    PopIgnored(x, y, q);
  }

  lemma SendHalves(x: Endpoint, y: Endpoint, q: seq<Packet>, r: seq<Packet>, p: Packet)
    requires Halves(x, y, q, r) && WellAddressed(y.origin, x.origin, p) && p.ptype != OPEN && p.ptype != DATA
    ensures Halves(x, y, q, r + [p])
  {
    LookBoth(x, y, q, r);
    AppendPlain(y, x, r, p);
  }

  lemma ConfirmedHalves(x: Endpoint, y: Endpoint, z: Endpoint, q: seq<Packet>, r: seq<Packet>)
    requires Halves(x, y, q, r)
    requires q != [] && q[0].ptype == CONFIRM && q[0].local in y.table && q[0].local != 0 && q[0].remote != 0
    requires SameData(y, z) && z.origin == y.origin && z.table.Keys == y.table.Keys
    requires z.table[q[0].local].status == Open && z.table[q[0].local].remote == q[0].remote
    requires forall b :: b in y.table && b != q[0].local ==> z.table[b] == y.table[b]
    ensures Halves(x, z, q[1..], r)
  {
    LookBoth(x, y, q, r);
    ConfirmedIn(x, y, z, q);
    ConfirmedOut(x, y, z, q, r);
  }

  lemma DeliveredHalves(x: Endpoint, y: Endpoint, z: Endpoint, q: seq<Packet>, r: seq<Packet>)
    requires Halves(x, y, q, r) && q != [] && q[0].ptype == DATA && q[0].local in y.table && q[0].local != 0
    requires Grew(y, z, q[0].local, q[0].payload)
    ensures Halves(x, z, q[1..], r) && y.table[q[0].local].status != Opening
  {
    LookBoth(x, y, q, r);
    DataFindsOpen(x, y, q);
    DeliveredIn(x, y, z, q);
    DeliveredOut(x, y, z, r, q[0].local, q[0].payload);
  }

  lemma WroteHalves(x: Endpoint, y: Endpoint, z: Endpoint, q: seq<Packet>, r: seq<Packet>, b: nat, p: Packet)
    requires Halves(x, y, q, r) && Usable(y, b) && WroteOn(y, z, b, p.payload)
    requires p.ptype == DATA && p.local == y.table[b].remote && p.remote == b
    ensures Halves(x, z, q, r + [p])
  {
    LookBoth(x, y, q, r);
    WroteIn(x, y, z, q, b, p.payload);
    WroteOut(x, y, z, q, r, b, p);
  }

  /** Channel 0 belongs to no pair. */
  lemma NoChannelZero(x: Endpoint, y: Endpoint)
    requires Numbered(x) && Numbered(y) && Pairing(x.origin, y.origin)
    ensures 0 !in x.origin && 0 !in x.table && forall b :: b in y.origin ==> y.origin[b] != Passive(0)
  {
  }

  lemma StreamInHalves(x: Endpoint, y: Endpoint, q: seq<Packet>, r: seq<Packet>)
    requires Numbered(x) && Numbered(y) && Halves(x, y, q, r) && q != [] && q[0].ptype == DATA && q[0].local == 0
    ensures Halves(x, y.(stream := y.stream + [q[0].payload]), q[1..], r)
  {
    LookBoth(x, y, q, r);
    NoChannelZero(y, x);
    var z := y.(stream := y.stream + [q[0].payload]);
    StreamIn(x, y, z, q);
    StreamInKeepsOut(x, y, z, r);
  }

  lemma StreamOutHalves(x: Endpoint, y: Endpoint, q: seq<Packet>, r: seq<Packet>, p: Packet)
    requires Numbered(x) && Numbered(y) && Halves(x, y, q, r) && p.ptype == DATA && p.local == 0 && p.remote == 0
    ensures Halves(x, y.(streamOut := y.streamOut + [p.payload]), q, r + [p])
  {
    LookBoth(x, y, q, r);
    NoChannelZero(x, y);
    var z := y.(streamOut := y.streamOut + [p.payload]);
    StreamOut(x, y, z, r, p);
    StreamOutKeepsIn(x, y, z, q);
  }

  lemma PassiveHalves(x: Endpoint, y: Endpoint, z: Endpoint, q: seq<Packet>, r: seq<Packet>, n: nat)
    requires Halves(x, y, q, r) && Numbered(x) && q != [] && q[0].ptype == OPEN
    requires Recorded(y, z, n, Passive(q[0].remote))
    ensures Halves(x, z, q[1..], r) && Untouched(x, z, q[1..], r, q[0].remote, n)
    ensures q[0].remote != 0 && q[0].remote in x.origin && x.origin[q[0].remote] == Active
  {
    LookBoth(x, y, q, r);
    AskerUntouched(x, y, q, r, n);
    RecordPassive(x, y, z, q, r, n);
  }

  lemma AcceptedHalves(x: Endpoint, y: Endpoint, z: Endpoint, q: seq<Packet>, r: seq<Packet>, n: nat, ch: Channel,
                       p: Packet)
    requires Halves(x, y, q, r) && Entered(y, z, n, ch) && ch.status == Open && ch.remote == p.local != 0
    requires p.ptype == CONFIRM && p.remote == n != 0 && Untouched(x, y, q, r, p.local, n)
    requires n in y.origin && y.origin[n] == Passive(p.local)
    requires p.local in x.origin && x.origin[p.local] == Active
    ensures Halves(x, z, q, r + [p])
  {
    LookBoth(x, y, q, r);
    AcceptedIn(x, y, z, q, r, n, p.local, ch);
    AcceptedOut(x, y, z, r, n, ch, p);
  }

  lemma ActiveHalves(x: Endpoint, y: Endpoint, z: Endpoint, q: seq<Packet>, r: seq<Packet>, n: nat)
    requires Halves(x, y, q, r) && Recorded(y, z, n, Active)
    ensures Halves(x, z, q, r)
  {
    LookBoth(x, y, q, r);
    RecordActive(x, y, z, q, r, n);
  }

  lemma AskedHalves(x: Endpoint, y: Endpoint, m: Endpoint, z: Endpoint, q: seq<Packet>, r: seq<Packet>, n: nat,
                    ch: Channel, p: Packet)
    requires Halves(x, y, q, r) && Recorded(y, m, n, Active) && Entered(m, z, n, ch)
    requires ch.status == Opening && ch.remote == 0 && p.ptype == OPEN && p.remote == n
    ensures Halves(x, z, q, r + [p])
  {
    ActiveHalves(x, y, m, q, r, n);
    LookBoth(x, y, q, r);
    LookBoth(x, m, q, r);
    UnknownUnlinked(x.origin, y.origin, n);
    NoDataYet(x.origin, y.origin, q, n);
    forall a ensures !Linked(x.origin, m.origin, a, n) { RecordLinked(x.origin, y.origin, n, Active, a, n); }
    AskedIn(x, m, z, q, n, ch);
    AskedOut(x, m, z, r, n, ch, p);
  }

  // ----- ids -----

  lemma IdIsNumber(e: Endpoint)
    requires Numbered(e) && e.made < MAX_CHANNEL_ID
    ensures NewId(e) == e.made + 1
  {
    Ids.ScanUp(e.ids.marks, e.ids.max, e.made, e.made, e.ids.max);
  }

  /** Nothing is created, and ids at most are freed. */
  ghost predicate NoneMade(e: Endpoint, f: Endpoint) {
    && Valid(f) && f.made == e.made && f.origin == e.origin && f.ids.latest == e.ids.latest
    && f.ids.marks <= e.ids.marks
    && forall id :: id in f.table ==> id in e.table && f.table[id].num == e.table[id].num
  }

  lemma NumberedCreate(e: Endpoint, ctype: nat, remote: nat, origin: Origin)
    requires Numbered(e) && e.made < MAX_CHANNEL_ID
    ensures NewId(e) == e.made + 1 && Numbered(Create(e, ctype, remote, origin))
  {
    IdIsNumber(e);
  }

  lemma NumberedNoneMade(e: Endpoint, f: Endpoint)
    requires Numbered(e) && NoneMade(e, f)
    ensures Numbered(f)
  {
    Look(f);
  }

  lemma NumberedOpen(e: Endpoint, p: Packet, env: Env)
    requires Numbered(e) && OnOpen(e, p, env).0.made <= MAX_CHANNEL_ID
    ensures Numbered(OnOpen(e, p, env).0)
  {
    if TypeAllowed(p.option, env) && NewId(e) != -1 {
      NumberedCreate(e, p.option, p.remote, Passive(p.remote));
      NumberedNoneMade(Create(e, p.option, p.remote, Passive(p.remote)), OnOpen(e, p, env).0);
    }
  }

  lemma NotifyMakesNone(e: Endpoint, id: nat, remote: nat, status: Status, ev: Event)
    requires Valid(e) && id in e.table
    ensures NoneMade(e, Notify(e, id, ev)) && NoneMade(e, Notify(SetChannel(e, id, remote, status), id, ev))
  {
  }

  lemma DropMakesNone(e: Endpoint, f: Endpoint, id: nat, freed: bool)
    requires NoneMade(e, f) && id in f.table
    ensures NoneMade(e, Drop(f, id, freed))
  {
  }

  lemma ClosedMakesNone(e: Endpoint, id: nat, reason: Reason, freed: bool)
    requires Valid(e) && id in e.table
    ensures NoneMade(e, Drop(Notify(e, id, Closed(reason)), id, freed))
  {
    NotifyMakesNone(e, id, 0, Open, Closed(reason));
    DropMakesNone(e, Notify(e, id, Closed(reason)), id, freed);
  }

  lemma NoneMadeTwice(e: Endpoint, f: Endpoint, g: Endpoint)
    requires NoneMade(e, f) && NoneMade(f, g)
    ensures NoneMade(e, g)
  {
  }

  lemma DataMakesNone(e: Endpoint, id: nat, p: Payload, freed: bool)
    requires Valid(e) && id in e.table
    ensures NoneMade(e, Notify(e, id, Data(p)))
    ensures NoneMade(e, Drop(Notify(Notify(e, id, Data(p)), id, Closed(Error)), id, freed))
  {
    var f := Notify(e, id, Data(p));
    NotifyMakesNone(e, id, 0, Open, Data(p));
    ClosedMakesNone(f, id, Error, freed);
    NoneMadeTwice(e, f, Drop(Notify(f, id, Closed(Error)), id, freed));
  }

  lemma ChannelPacketMakesNone(e: Endpoint, p: Packet, env: Env)
    requires Valid(e) && p.local in e.table
    ensures NoneMade(e, OnChannel(e, p, env))
  {
    var id, ch := p.local, e.table[p.local];
    if p.ptype == CONFIRM {
      NotifyMakesNone(e, id, p.remote, Open, Opened);
      ClosedMakesNone(e, id, Error, env.freed);
    } else if p.ptype == DATA {
      DataMakesNone(e, id, p.payload, env.freed);
    } else if p.ptype == PENDING {
      NotifyMakesNone(e, id, ch.remote, Pending, Pend);
    } else if p.ptype == RESUME {
      NotifyMakesNone(e, id, ch.remote, Open, Resume);
    } else if p.ptype == CLOSE {
      ClosedMakesNone(e, id, Normal, env.freed);
    }
  }

  /** A step that keeps the number of channels below the number of ids keeps ids unique. */
  lemma NumberedPacket(e: Endpoint, p: Packet, env: Env)
    requires Numbered(e) && OnPacket(e, p, env).0.made <= MAX_CHANNEL_ID
    ensures Numbered(OnPacket(e, p, env).0)
  {
    if p.ptype == OPEN {
      NumberedOpen(e, p, env);
    } else {
      if p.local in e.table { ChannelPacketMakesNone(e, p, env); }
      NumberedNoneMade(e, OnPacket(e, p, env).0);
    }
  }

  lemma NumberedCall(e: Endpoint, c: Call, env: Env)
    requires Numbered(e) && OnCall(e, c, env).0.made <= MAX_CHANNEL_ID
    ensures Numbered(OnCall(e, c, env).0)
  {
    var f := OnCall(e, c, env).0;
    if c.OpenChannel? && c.ctype <= 2 && NewId(e) != -1 {
      NumberedCreate(e, c.ctype, 0, Active);
      NumberedNoneMade(Create(e, c.ctype, 0, Active), f);
    } else {
      if c.CloseChannel? && c.id in e.table { ClosedMakesNone(e, c.id, Normal, env.freed); }
      if c.ExpireChannel? && c.id in e.table { ClosedMakesNone(e, c.id, Timeout, env.freed); }
      if c.CloseAll? && c.id in e.table { ClosedMakesNone(e, c.id, c.reason, env.freed); }
      NumberedNoneMade(e, f);
    }
  }

  // ----- steps -----

  lemma SameDataTwice(x: Endpoint, y: Endpoint, z: Endpoint)
    requires SameData(x, y) && SameData(y, z)
    ensures SameData(x, z)
  {
  }

  /** Neither the table nor the ids matter to the data. */
  lemma SameLogs(y: Endpoint, z: Endpoint)
    requires z.events == y.events && z.written == y.written && z.stream == y.stream && z.streamOut == y.streamOut
    ensures SameData(y, z)
  {
  }

  lemma ClosedKeeps(x: Endpoint, y: Endpoint, q: seq<Packet>, r: seq<Packet>, id: nat, reason: Reason, freed: bool)
    requires Valid(y) && id in y.table && Halves(x, y, q, r)
    ensures Halves(x, Drop(Notify(y, id, Closed(reason)), id, freed), q, r)
  {
    var m := Notify(y, id, Closed(reason));
    var z := Drop(m, id, freed);
    NotifyCalm(y, id, Closed(reason));
    SameLogs(m, z);
    SameDataTwice(y, m, z);
    CalmHalves(x, y, z, q, r);
  }

  /** A channel changes between open and pending. */
  lemma ToggledKeeps(x: Endpoint, y: Endpoint, q: seq<Packet>, r: seq<Packet>, id: nat, status: Status, ev: Event)
    requires Valid(y) && id in y.table && Halves(x, y, q, r)
    requires y.table[id].status != Opening && status != Opening && !ev.Data?
    ensures Halves(x, Notify(SetChannel(y, id, y.table[id].remote, status), id, ev), q, r)
  {
    var m := SetChannel(y, id, y.table[id].remote, status);
    var z := Notify(m, id, ev);
    SameLogs(y, m);
    NotifyCalm(m, id, ev);
    SameDataTwice(y, m, z);
    CalmHalves(x, y, z, q, r);
  }

  lemma ConfirmKeeps(x: Endpoint, y: Endpoint, q: seq<Packet>, r: seq<Packet>, env: Env)
    requires Numbered(y) && Halves(x, y, q, r) && q != [] && q[0].ptype == CONFIRM && q[0].local in y.table
    ensures Halves(x, OnChannel(y, q[0], env), q[1..], r)
  {
    var p := q[0];
    if y.table[p.local].status != Opening {
      PopHalves(x, y, q, r);
    } else if p.remote != 0 {
      var z := SetChannel(y, p.local, p.remote, Open);
      NotifyCalm(z, p.local, Opened);
      assert SameData(y, z);
      ConfirmedHalves(x, y, Notify(z, p.local, Opened), q, r);
    } else {
      ClosedKeeps(x, y, q, r, p.local, Error, env.freed);
      PopHalves(x, OnChannel(y, p, env), q, r);
    }
  }

  lemma NotifyGrew(y: Endpoint, id: nat, p: Payload)
    requires Numbered(y) && id in y.table
    ensures Grew(y, Notify(y, id, Data(p)), id, p)
  {
    PayloadsSnoc(EventsOf(y, id), Data(p));
  }

  lemma DataKeeps(x: Endpoint, y: Endpoint, q: seq<Packet>, r: seq<Packet>, env: Env)
    requires Numbered(y) && Halves(x, y, q, r) && q != [] && q[0].ptype == DATA && q[0].local in y.table
    ensures Halves(x, OnChannel(y, q[0], env), q[1..], r)
  {
    var p := q[0];
    var z := Notify(y, p.local, Data(p.payload));
    NotifyGrew(y, p.local, p.payload);
    DeliveredHalves(x, y, z, q, r);
    if !env.keep { ClosedKeeps(x, z, q[1..], r, p.local, Error, env.freed); }
  }

  lemma ChannelPacketKeeps(x: Endpoint, y: Endpoint, q: seq<Packet>, r: seq<Packet>, env: Env)
    requires Numbered(y) && Halves(x, y, q, r) && q != [] && q[0].ptype != OPEN && q[0].local in y.table
    ensures Halves(x, OnChannel(y, q[0], env), q[1..], r)
  {
    var p, s := q[0], y.table[q[0].local].status;
    if p.ptype == CONFIRM {
      ConfirmKeeps(x, y, q, r, env);
    } else if p.ptype == DATA {
      DataKeeps(x, y, q, r, env);
    } else {
      PopHalves(x, y, q, r);
      if p.ptype == PENDING && s == Open {
        ToggledKeeps(x, y, q[1..], r, p.local, Pending, Pend);
      } else if p.ptype == RESUME && s == Pending {
        ToggledKeeps(x, y, q[1..], r, p.local, Open, Resume);
      } else if p.ptype == CLOSE {
        ClosedKeeps(x, y, q[1..], r, p.local, Normal, env.freed);
      }
    }
  }

  /** The endpoint with its next channel recorded. */
  ghost function Record(y: Endpoint, o: Origin): (m: Endpoint) { y.(origin := y.origin[y.made + 1 := o]) }

  lemma RecordEffect(y: Endpoint, o: Origin)
    requires Numbered(y)
    ensures Recorded(y, Record(y, o), y.made + 1, o)
  {
    assert SameData(y, Record(y, o));
  }

  lemma AcceptEffect(y: Endpoint, p: Packet, env: Env)
    requires Numbered(y) && NewId(y) == y.made + 1 && TypeAllowed(p.option, env) && env.accept && env.sent
    ensures Entered(Record(y, Passive(p.remote)), OnOpen(y, p, env).0, y.made + 1,
                    Channel(p.remote, p.option, Open, y.made + 1))
  {
    var n := y.made + 1;
    var e := SetChannel(Create(y, p.option, p.remote, Passive(p.remote)), n, p.remote, Open);
    NotifyCalm(e, n, Opened);
    assert SameData(Record(y, Passive(p.remote)), e);
    assert Notify(e, n, Opened).table == y.table[n := Channel(p.remote, p.option, Open, n)];
  }

  lemma AcceptKeeps(x: Endpoint, y: Endpoint, q: seq<Packet>, r: seq<Packet>, env: Env)
    requires Numbered(x) && Numbered(y) && Halves(x, y, q, r) && q != [] && q[0].ptype == OPEN
    requires NewId(y) == y.made + 1 && TypeAllowed(q[0].option, env) && env.accept && env.sent
    ensures var s := OnOpen(y, q[0], env); Halves(x, s.0, q[1..], r + s.1)
  {
    var p, n, s := q[0], y.made + 1, OnOpen(y, q[0], env);
    var m := Record(y, Passive(p.remote));
    RecordEffect(y, Passive(p.remote));
    PassiveHalves(x, y, m, q, r, n);
    AcceptEffect(y, p, env);
    AcceptedHalves(x, m, s.0, q[1..], r, n, Channel(p.remote, p.option, Open, n), s.1[0]);
  }

  lemma PutAndTake(t: map<nat, Channel>, n: nat, ch: Channel)
    requires n !in t
    ensures t[n := ch] - {n} == t
  {
  }

  lemma RefuseEffect(y: Endpoint, p: Packet, env: Env)
    requires Numbered(y) && NewId(y) == y.made + 1 && TypeAllowed(p.option, env) && !(env.accept && env.sent)
    ensures Calm(Record(y, Passive(p.remote)), OnOpen(y, p, env).0)
  {
    var n := y.made + 1;
    var e := Create(y, p.option, p.remote, Passive(p.remote));
    if env.accept { NotifyCalm(e, n, Closed(Error)); }
    UndoneCalm(y, e, if env.accept then Notify(e, n, Closed(Error)) else e, n, Passive(p.remote), env.freed);
  }

  /** A channel that enters the table and leaves it again is only recorded. */
  lemma UndoneCalm(y: Endpoint, e: Endpoint, f: Endpoint, n: nat, o: Origin, freed: bool)
    requires n !in y.table && n == y.made + 1 && e.written == y.written && e.events == y.events
    requires e.stream == y.stream && e.streamOut == y.streamOut && e.origin == y.origin[n := o]
    requires n in e.table && e.table == y.table[n := e.table[n]]
    requires SameData(e, f) && Valid(f) && f.table == e.table && f.origin == e.origin
    ensures Calm(Record(y, o), Drop(f, n, freed))
  {
    assert SameData(Record(y, o), e);
    assert SameData(f, Drop(f, n, freed));
    PutAndTake(y.table, n, e.table[n]);
  }

  lemma RefuseKeeps(x: Endpoint, y: Endpoint, q: seq<Packet>, r: seq<Packet>, env: Env)
    requires Numbered(x) && Numbered(y) && Halves(x, y, q, r) && q != [] && q[0].ptype == OPEN
    requires NewId(y) == y.made + 1 && TypeAllowed(q[0].option, env) && !(env.accept && env.sent)
    ensures var s := OnOpen(y, q[0], env); Halves(x, s.0, q[1..], r + s.1)
  {
    var p, n, s := q[0], y.made + 1, OnOpen(y, q[0], env);
    var m := Record(y, Passive(p.remote));
    RecordEffect(y, Passive(p.remote));
    PassiveHalves(x, y, m, q, r, n);
    RefuseEffect(y, p, env);
    CalmHalves(x, m, s.0, q[1..], r);
    if s.1 == [] { assert r + s.1 == r; } else { SendHalves(x, s.0, q[1..], r, s.1[0]); }
  }

  lemma OpenKeeps(x: Endpoint, y: Endpoint, q: seq<Packet>, r: seq<Packet>, env: Env)
    requires Numbered(x) && Numbered(y) && Halves(x, y, q, r) && q != [] && q[0].ptype == OPEN
    requires OnOpen(y, q[0], env).0.made <= MAX_CHANNEL_ID
    ensures var s := OnOpen(y, q[0], env); Halves(x, s.0, q[1..], r + s.1)
  {
    var s := OnOpen(y, q[0], env);
    if !TypeAllowed(q[0].option, env) || NewId(y) == -1 {
      PopHalves(x, y, q, r);
      if s.1 == [] { assert r + s.1 == r; } else { SendHalves(x, y, q[1..], r, s.1[0]); }
    } else {
      IdIsNumber(y);
      if env.accept && env.sent { AcceptKeeps(x, y, q, r, env); } else { RefuseKeeps(x, y, q, r, env); }
    }
  }

  /** Receiving the next packet keeps the invariant. */
  lemma DeliveryKeeps(x: Endpoint, y: Endpoint, q: seq<Packet>, r: seq<Packet>, env: Env)
    requires Numbered(x) && Numbered(y) && Halves(x, y, q, r) && q != []
    requires OnPacket(y, q[0], env).0.made <= MAX_CHANNEL_ID
    ensures var s := OnPacket(y, q[0], env); Numbered(s.0) && Halves(x, s.0, q[1..], r + s.1)
  {
    var p, s := q[0], OnPacket(y, q[0], env);
    NumberedPacket(y, p, env);
    if p.ptype == OPEN {
      OpenKeeps(x, y, q, r, env);
    } else {
      assert r + s.1 == r;
      if p.ptype == DATA && p.local == 0 && p.remote == 0 {
        StreamInHalves(x, y, q, r);
      } else if p.local in y.table {
        ChannelPacketKeeps(x, y, q, r, env);
      } else {
        DeadPacket(x, y, q, r);
        PopHalves(x, y, q, r);
      }
    }
  }

  /** Data for a channel that is gone is never data of channel 0. */
  lemma DeadPacket(x: Endpoint, y: Endpoint, q: seq<Packet>, r: seq<Packet>)
    requires Halves(x, y, q, r) && q != [] && q[0].local !in y.table
    requires !(q[0].ptype == DATA && q[0].local == 0 && q[0].remote == 0)
    ensures Ignored(y, q[0])
  {
    LookBoth(x, y, q, r);
    assert WellAddressed(x.origin, y.origin, q[0]);
  }

  lemma OpenCallEffect(y: Endpoint, c: Call, env: Env)
    requires Numbered(y) && c.OpenChannel? && c.ctype <= 2 && NewId(y) == y.made + 1
    ensures env.sent ==> Entered(Record(y, Active), OnCall(y, c, env).0, y.made + 1,
                                 Channel(0, c.ctype, Opening, y.made + 1))
    ensures !env.sent ==> Calm(Record(y, Active), OnCall(y, c, env).0)
  {
    assert SameData(Record(y, Active), OnCall(y, c, env).0);
  }

  lemma OpenCallKeeps(x: Endpoint, y: Endpoint, q: seq<Packet>, r: seq<Packet>, c: Call, env: Env)
    requires Numbered(y) && Halves(x, y, q, r) && c.OpenChannel? && c.ctype <= 2 && NewId(y) == y.made + 1
    ensures var s := OnCall(y, c, env); Halves(x, s.0, q, r + s.1)
  {
    var n, s, m := y.made + 1, OnCall(y, c, env), Record(y, Active);
    RecordEffect(y, Active);
    OpenCallEffect(y, c, env);
    if env.sent {
      AskedHalves(x, y, m, s.0, q, r, n, Channel(0, c.ctype, Opening, n), s.1[0]);
    } else {
      ActiveHalves(x, y, m, q, r, n);
      assert r + s.1 == r;
      CalmHalves(x, m, s.0, q, r);
    }
  }

  lemma WroteEffect(y: Endpoint, id: nat, p: Payload)
    requires Numbered(y) && id in y.table
    ensures WroteOn(y, Wrote(y, id, p), id, p)
  {
    assert forall n :: DeliveredOn(Wrote(y, id, p), n) == DeliveredOn(y, n);
  }

  lemma WriteCallKeeps(x: Endpoint, y: Endpoint, q: seq<Packet>, r: seq<Packet>, c: Call, env: Env)
    requires Numbered(x) && Numbered(y) && Halves(x, y, q, r) && c.WriteChannel?
    ensures var s := OnCall(y, c, env); Halves(x, s.0, q, r + s.1)
  {
    var s := OnCall(y, c, env);
    if s.1 == [] {
      assert r + s.1 == r;
    } else if c.id == 0 {
      StreamOutHalves(x, y, q, r, s.1[0]);
    } else {
      WroteEffect(y, c.id, c.payload);
      WroteHalves(x, y, s.0, q, r, c.id, s.1[0]);
    }
  }

  /** Every call and every decision of the checkpoint keeps the invariant. */
  lemma CallKeeps(x: Endpoint, y: Endpoint, q: seq<Packet>, r: seq<Packet>, c: Call, env: Env)
    requires Numbered(x) && Numbered(y) && Halves(x, y, q, r)
    requires OnCall(y, c, env).0.made <= MAX_CHANNEL_ID
    ensures var s := OnCall(y, c, env); Numbered(s.0) && Halves(x, s.0, q, r + s.1)
  {
    var s := OnCall(y, c, env);
    NumberedCall(y, c, env);
    if c.OpenChannel? && c.ctype <= 2 && NewId(y) != -1 {
      IdIsNumber(y);
      OpenCallKeeps(x, y, q, r, c, env);
    } else if c.WriteChannel? {
      WriteCallKeeps(x, y, q, r, c, env);
    } else {
      if c.CloseChannel? && c.id in y.table { ClosedKeeps(x, y, q, r, c.id, Normal, env.freed); }
      if c.ExpireChannel? && c.id in y.table { ClosedKeeps(x, y, q, r, c.id, Timeout, env.freed); }
      if c.CloseAll? && c.id in y.table { ClosedKeeps(x, y, q, r, c.id, c.reason, env.freed); }
      if s.1 == [] { assert r + s.1 == r; } else { SendHalves(x, s.0, q, r, s.1[0]); }
    }
  }

  // ----- runs of two peers -----

  datatype Side = Left | Right

  /** Two endpoints and the packets on the way from left to right and from right to left. */
  datatype System = System(left: Endpoint, right: Endpoint, toRight: seq<Packet>, toLeft: seq<Packet>)

  /** A call on one side, or one side receives the next packet of its link. */
  datatype Move = Calls(at: Side, call: Call, env: Env) | Receives(at: Side, env: Env)

  const Idle := System(Fresh, Fresh, [], [])

  ghost function Advance(s: System, m: Move): (t: System)
    requires Valid(s.left) && Valid(s.right)
    ensures Valid(t.left) && Valid(t.right)
  {
    match m
    case Calls(Left, c, env) =>
      var r := OnCall(s.left, c, env); s.(left := r.0, toRight := s.toRight + r.1)
    case Calls(Right, c, env) =>
      var r := OnCall(s.right, c, env); s.(right := r.0, toLeft := s.toLeft + r.1)
    case Receives(Left, env) =>
      if s.toLeft == [] then s else
      var r := OnPacket(s.left, s.toLeft[0], env); s.(left := r.0, toRight := s.toRight + r.1, toLeft := s.toLeft[1..])
    case Receives(Right, env) =>
      if s.toRight == [] then s else
      var r := OnPacket(s.right, s.toRight[0], env);
      s.(right := r.0, toLeft := s.toLeft + r.1, toRight := s.toRight[1..])
  }

  ghost function AfterFrom(s: System, moves: seq<Move>): (t: System)
    requires Valid(s.left) && Valid(s.right)
    ensures Valid(t.left) && Valid(t.right)
  {
    if moves == [] then s else Advance(AfterFrom(s, moves[..|moves| - 1]), moves[|moves| - 1])
  }

  ghost function After(moves: seq<Move>): (s: System)
    ensures Valid(s.left) && Valid(s.right)
  {
    FreshValid();
    AfterFrom(Idle, moves)
  }

  /** Neither side has created more channels than there are ids. */
  ghost predicate WithinIds(s: System) {
    s.left.made <= MAX_CHANNEL_ID && s.right.made <= MAX_CHANNEL_ID
  }

  ghost predicate Inv(s: System) {
    Numbered(s.left) && Numbered(s.right) && Halves(s.left, s.right, s.toRight, s.toLeft)
  }

  lemma AdvanceKeepsInv(s: System, m: Move)
    requires Inv(s) && WithinIds(Advance(s, m))
    ensures Inv(Advance(s, m))
  {
    HalvesSymmetric(s.left, s.right, s.toRight, s.toLeft);
    var t := Advance(s, m);
    match m {
      case Calls(Left, c, env) =>
        CallKeeps(s.right, s.left, s.toLeft, s.toRight, c, env);
      case Calls(Right, c, env) =>
        CallKeeps(s.left, s.right, s.toRight, s.toLeft, c, env);
      case Receives(Left, env) =>
        if s.toLeft != [] { DeliveryKeeps(s.right, s.left, s.toLeft, s.toRight, env); }
      case Receives(Right, env) =>
        if s.toRight != [] { DeliveryKeeps(s.left, s.right, s.toRight, s.toLeft, env); }
    }
    HalvesSymmetric(t.left, t.right, t.toRight, t.toLeft);
  }

  lemma HalvesSymmetric(x: Endpoint, y: Endpoint, q: seq<Packet>, r: seq<Packet>)
    ensures Halves(x, y, q, r) <==> Halves(y, x, r, q)
  {
    if Halves(x, y, q, r) { LookBoth(x, y, q, r); }
    if Halves(y, x, r, q) { LookBoth(y, x, r, q); }
  }

  lemma PacketMadeGrows(e: Endpoint, p: Packet, env: Env)
    requires Valid(e)
    ensures e.made <= OnPacket(e, p, env).0.made
  {
    if p.ptype != OPEN && p.local in e.table { ChannelPacketMakesNone(e, p, env); }
  }

  lemma CallMadeGrows(e: Endpoint, c: Call, env: Env)
    requires Valid(e)
    ensures e.made <= OnCall(e, c, env).0.made
  {
  }

  lemma MadeGrows(s: System, m: Move)
    requires Valid(s.left) && Valid(s.right) && WithinIds(Advance(s, m))
    ensures WithinIds(s)
  {
    match m
    case Calls(Left, c, env) => CallMadeGrows(s.left, c, env);
    case Calls(Right, c, env) => CallMadeGrows(s.right, c, env);
    case Receives(Left, env) => if s.toLeft != [] { PacketMadeGrows(s.left, s.toLeft[0], env); }
    case Receives(Right, env) => if s.toRight != [] { PacketMadeGrows(s.right, s.toRight[0], env); }
  }

  lemma IdleInv()
    ensures Inv(Idle)
  {
    assert Half(Fresh, Fresh, []);
  }

  lemma {:induction false} RunKeepsInv(moves: seq<Move>)
    requires WithinIds(After(moves))
    ensures Inv(After(moves))
  {
    if moves == [] {
      IdleInv();
    } else {
      var before := moves[..|moves| - 1];
      MadeGrows(After(before), moves[|moves| - 1]);
      RunKeepsInv(before);
      AdvanceKeepsInv(After(before), moves[|moves| - 1]);
    }
  }

  // ----- what the peers may rely on -----

  /** Channel b of y was created for the open packet of channel a of x. */
  ghost predicate MadeFor(x: Endpoint, a: nat, y: Endpoint, b: nat) {
    a in x.origin && x.origin[a] == Active && b in y.origin && y.origin[b] == Passive(a)
  }

  ghost predicate Paired(x: Endpoint, a: nat, y: Endpoint, b: nat) { MadeFor(x, a, y, b) || MadeFor(y, b, x, a) }

  /** What x may rely on about its peer y. */
  ghost predicate Faithful(x: Endpoint, y: Endpoint, toY: seq<Packet>) {
    && (forall a :: a in x.table && x.table[a].status != Opening ==> Paired(x, a, y, x.table[a].remote))
    && (forall a, b :: Paired(x, a, y, b) ==> DeliveredOn(y, b) <= WrittenOn(x, a))
    && (forall a, b :: Paired(x, a, y, b) && b in y.table && DataFor(toY, b) == [] ==>
        DeliveredOn(y, b) == WrittenOn(x, a))
    && (forall b :: DeliveredOn(y, b) != [] ==> exists a :: Paired(x, a, y, b))
    && (forall a, b, c :: Paired(x, a, y, b) && Paired(x, a, y, c) ==> b == c)
    && x.streamOut == y.stream + DataFor(toY, 0)
  }

  lemma PairedIsLinked(x: Endpoint, y: Endpoint)
    requires Pairing(x.origin, y.origin) && Pairing(y.origin, x.origin)
    ensures forall a, b :: Paired(x, a, y, b) <==> Linked(x.origin, y.origin, a, b)
  {
  }

  lemma HalvesFaithful(x: Endpoint, y: Endpoint, q: seq<Packet>, r: seq<Packet>)
    requires Halves(x, y, q, r)
    ensures Faithful(x, y, q)
  {
    LookBoth(x, y, q, r);
    PairedIsLinked(x, y);
    LinkedUnique(x.origin, y.origin);
    forall a, b | Paired(x, a, y, b)
      ensures DeliveredOn(y, b) <= WrittenOn(x, a)
      ensures b in y.table && DataFor(q, b) == [] ==> DeliveredOn(y, b) == WrittenOn(x, a)
    {
      assert Kept(WrittenOn(x, a), DeliveredOn(y, b), b in y.table, DataFor(q, b));
    }
    forall b | DeliveredOn(y, b) != [] ensures exists a :: Paired(x, a, y, b) {
      assert HasEnd(y.origin, x.origin, b);
      var a :| Linked(y.origin, x.origin, b, a);
      LinkedSymmetric(x.origin, y.origin, a, b);
      assert Paired(x, a, y, b);
    }
  }

  /** In every run of two peers that stays within the ids: an open channel is paired with the
      channel that one side created for the other's open packet, and with no other; what was
      delivered on one end is a prefix of what was written on the other, and all of it when
      nothing is left on the link; nothing is delivered from elsewhere; and channel 0 loses
      and gains nothing. */
  lemma PeersAreFaithful(moves: seq<Move>)
    requires WithinIds(After(moves))
    ensures var s := After(moves); Faithful(s.left, s.right, s.toRight) && Faithful(s.right, s.left, s.toLeft)
  {
    var s := After(moves);
    RunKeepsInv(moves);
    HalvesSymmetric(s.left, s.right, s.toRight, s.toLeft);
    HalvesFaithful(s.left, s.right, s.toRight, s.toLeft);
    HalvesFaithful(s.right, s.left, s.toLeft, s.toRight);
  }
}
