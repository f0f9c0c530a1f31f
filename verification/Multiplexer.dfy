/** One endpoint of the channel multiplexer: what each received packet, each call and each
    checkpoint does to its channels, to the callbacks and to the link. */
module Multiplexer {
  import opened Bytes
  import opened Wire
  import opened Sealing
  import Ids = IdAllocator

  const MAX_CHANNEL_ID := 2048

  type Payload = seq<Byte>

  datatype Status = Opening | Open | Pending

  /** `num` counts the channels an endpoint ever created, from 1; ids may be reused, numbers not. */
  datatype Channel = Channel(remote: nat, ctype: nat, status: Status, num: nat)

  datatype Reason = Normal | Timeout | Error

  /** Callbacks on one channel. */
  datatype Event = Opened | Data(payload: Payload) | Pend | Resume | Closed(reason: Reason)

  /** Who asked for the channel: this side, or the peer for its channel `peer`. */
  datatype Origin = Active | Passive(peer: nat)

  /** State and history of an endpoint. */
  datatype Endpoint = Endpoint(
    ids: Ids.IdState,
    table: map<nat, Channel>,
    made: nat,                          // channels created so far
    origin: map<nat, Origin>,           // by channel number
    events: map<nat, seq<Event>>,       // callbacks, by channel number
    written: map<nat, seq<Payload>>,    // data sent, by channel number
    stream: seq<Payload>,               // channel 0: data handed up
    streamOut: seq<Payload>)            // channel 0: data sent

  type Table = map<nat, Channel>
  type Log = map<nat, seq<Event>>

  function EventsIn(log: Log, n: nat): seq<Event> { if n in log then log[n] else [] }
  function EventsOf(e: Endpoint, n: nat): seq<Event> { EventsIn(e.events, n) }
  function WrittenOn(e: Endpoint, n: nat): seq<Payload> { if n in e.written then e.written[n] else [] }

  const Fresh := Endpoint(Ids.IdState(MAX_CHANNEL_ID, -1, {}), map[], 0, map[], map[], map[], [], [])

  /** Answers of the environment during one step: the open callback, the data callback,
      the lower layer's write, and the bit test when an id is freed. */
  datatype Env = Env(accept: bool, keep: bool, sent: bool, freed: bool, forwarding: bool, reliable: bool)

  /** The state is consistent; a fact that proofs open only where they need it. */
  ghost predicate Valid(e: Endpoint) {
    forall i {:trigger Unsealed(Consistency, i)} :: Unsealed(Consistency, i) ==> Consistent(e)
  }

  lemma Look(e: Endpoint)
    requires Valid(e)
    ensures Consistent(e)
  {
    assert Unsealed(Consistency, 0);
  }

  ghost predicate Consistent(e: Endpoint) {
    && e.ids.Valid() && e.ids.max == MAX_CHANNEL_ID
    && (forall id :: id in e.table ==> 1 <= id <= MAX_CHANNEL_ID && id - 1 in e.ids.marks)
    && (forall id :: id in e.table ==> 1 <= e.table[id].num <= e.made)
    && Unique(e.table)
    && (forall n :: n in e.origin || n in e.events || n in e.written ==> 1 <= n <= e.made)
  }

  // ----- building blocks -----

  ghost function NewId(e: Endpoint): int
    requires Valid(e)
  {
    Look(e);
    if Ids.NextFit(e.ids) == -1 then -1 else Ids.NextFit(e.ids) + 1
  }

  /** A channel enters the table under a fresh id. */
  ghost function Create(e: Endpoint, ctype: nat, remote: nat, origin: Origin): (f: Endpoint)
    requires Valid(e) && NewId(e) != -1
    ensures Valid(f)
  {
    Look(e);
    var n := e.made + 1;
    e.(ids := Ids.AfterAlloc(e.ids), table := e.table[NewId(e) := Channel(remote, ctype, Opening, n)],
       made := n, origin := e.origin[n := origin])
  }

  /** A callback is made on a channel of the table. */
  ghost function Notify(e: Endpoint, id: nat, ev: Event): (f: Endpoint)
    requires Valid(e) && id in e.table
    ensures Valid(f)
  {
    Look(e);
    var n := e.table[id].num;
    e.(events := e.events[n := EventsOf(e, n) + [ev]])
  }

  ghost function SetChannel(e: Endpoint, id: nat, remote: nat, status: Status): (f: Endpoint)
    requires Valid(e) && id in e.table
    ensures Valid(f)
  {
    Look(e);
    e.(table := e.table[id := e.table[id].(remote := remote, status := status)])
  }

  /** A channel leaves the table and its id is freed. */
  ghost function Drop(e: Endpoint, id: nat, freed: bool): (f: Endpoint)
    requires Valid(e) && id in e.table
    ensures Valid(f)
  {
    Look(e);
    e.(table := e.table - {id}, ids := if freed then Ids.AfterFree(e.ids, id) else e.ids)
  }

  // ----- received packets -----

  /** Channel types: 0 user, 1 UDP forwarding, 2 TCP forwarding. */
  predicate TypeAllowed(ctype: nat, env: Env) {
    ctype == 0 || (ctype == 1 && env.forwarding) || (ctype == 2 && env.forwarding && env.reliable)
  }

  /** multiplex_handler_notify_packet for a packet whose length was right: the new state and
      the packets sent in answer. */
  ghost function OnPacket(e: Endpoint, p: Packet, env: Env): (r: (Endpoint, seq<Packet>))
    requires Valid(e)
    ensures Valid(r.0)
  {
    if p.ptype == DATA && p.local == 0 && p.remote == 0 then (e.(stream := e.stream + [p.payload]), [])
    else if p.ptype == OPEN then OnOpen(e, p, env)
    else if p.local !in e.table then (e, [])
    else (OnChannel(e, p, env), [])
  }

  ghost function OnOpen(e: Endpoint, p: Packet, env: Env): (r: (Endpoint, seq<Packet>))
    requires Valid(e)
    ensures Valid(r.0)
  {
    if !TypeAllowed(p.option, env) then (e, [])
    else if NewId(e) == -1 then (e, if env.sent then [Packet(CONFIRM, 0, 0, 0, [])] else [])
    else
      var id := NewId(e);
      var e1 := Create(e, p.option, p.remote, Passive(p.remote));
      var answer := if env.sent then [Packet(CONFIRM, 0, p.remote, if env.accept then id else 0, [])] else [];
      if !env.accept then (Drop(e1, id, env.freed), answer)
      else if !env.sent then (Drop(Notify(e1, id, Closed(Error)), id, env.freed), answer)
      else (Notify(SetChannel(e1, id, p.remote, Open), id, Opened), answer)
  }

  /** The packets for a channel of the table; none is answered. */
  ghost function OnChannel(e: Endpoint, p: Packet, env: Env): (f: Endpoint)
    requires Valid(e) && p.local in e.table
    ensures Valid(f)
  {
    var id, ch := p.local, e.table[p.local];
    if p.ptype == CONFIRM then
      if ch.status != Opening then e
      else if p.remote != 0 then Notify(SetChannel(e, id, p.remote, Open), id, Opened)
      else Drop(Notify(e, id, Closed(Error)), id, env.freed)
    else if p.ptype == DATA then
      if ch.status == Opening then e
      else if env.keep then Notify(e, id, Data(p.payload))
      else Drop(Notify(Notify(e, id, Data(p.payload)), id, Closed(Error)), id, env.freed)
    else if p.ptype == PENDING then
      if ch.status != Open then e else Notify(SetChannel(e, id, ch.remote, Pending), id, Pend)
    else if p.ptype == RESUME then
      if ch.status != Pending then e else Notify(SetChannel(e, id, ch.remote, Open), id, Resume)
    else if p.ptype == CLOSE then Drop(Notify(e, id, Closed(Normal)), id, env.freed)
    else e
  }

  // ----- calls -----

  datatype Call =
    | OpenChannel(ctype: nat, cookie: Payload)
    | CloseChannel(id: nat)
    | WriteChannel(id: nat, payload: Payload)
    | PendChannel(id: nat)
    | ResumeChannel(id: nat)
    | ExpireChannel(id: nat)      // a timeout found by the checkpoint
    | KeepAlive(id: nat)          // a keep-alive due at the checkpoint
    | CloseAll(id: nat, reason: Reason)  // one channel of multiplex_handler_close_channels

  /** What a call does; `env.sent` is the lower layer's answer. */
  ghost function OnCall(e: Endpoint, c: Call, env: Env): (r: (Endpoint, seq<Packet>))
    requires Valid(e)
    ensures Valid(r.0)
  {
    match c
    case OpenChannel(ctype, cookie) =>
      if ctype > 2 || NewId(e) == -1 then (e, [])
      else
        var id := NewId(e);
        var e1 := Create(e, ctype, 0, Active);
        if env.sent then (e1, [Packet(OPEN, ctype, 0, id, cookie)]) else (Drop(e1, id, env.freed), [])
    case CloseChannel(id) =>
      if id !in e.table then (e, [])
      else (Drop(Notify(e, id, Closed(Normal)), id, env.freed),
            if e.table[id].remote != 0 && env.sent then [Packet(CLOSE, 0, e.table[id].remote, id, [])] else [])
    case WriteChannel(id, payload) =>
      if id == 0 then
        if env.sent then (e.(streamOut := e.streamOut + [payload]), [Packet(DATA, 0, 0, 0, payload)]) else (e, [])
      else if !Usable(e, id) || !env.sent then (e, [])
      else (Wrote(e, id, payload), [Packet(DATA, 0, e.table[id].remote, id, payload)])
    case PendChannel(id) =>
      (e, if Usable(e, id) && env.sent then [Packet(PENDING, 0, e.table[id].remote, id, [])] else [])
    case ResumeChannel(id) =>
      (e, if Usable(e, id) && env.sent then [Packet(RESUME, 0, e.table[id].remote, id, [])] else [])
    case ExpireChannel(id) =>
      if id !in e.table then (e, []) else (Drop(Notify(e, id, Closed(Timeout)), id, env.freed), [])
    case KeepAlive(id) =>
      (e, if id in e.table && env.sent then [Packet(KEEPALIVE, 0, e.table[id].remote, id, [])] else [])
    case CloseAll(id, reason) =>
      if id !in e.table then (e, []) else (Drop(Notify(e, id, Closed(reason)), id, env.freed), [])
  }

  /** The state checks of write, pend and resume. */
  ghost predicate Usable(e: Endpoint, id: nat) {
    id in e.table && e.table[id].status != Opening && e.table[id].remote != 0
  }

  ghost function Wrote(e: Endpoint, id: nat, payload: Payload): (f: Endpoint)
    requires Valid(e) && id in e.table
    ensures Valid(f)
  {
    Look(e);
    var n := e.table[id].num;
    e.(written := e.written[n := WrittenOn(e, n) + [payload]])
  }

  // ----- the callback traces -----

  datatype Phase = Start | Up | Held | Done | Bad

  /** The callbacks of a channel so far, as a protocol. */
  function PhaseOf(t: seq<Event>): Phase {
    if t == [] then Start else Next(PhaseOf(t[..|t| - 1]), t[|t| - 1])
  }

  function Next(p: Phase, ev: Event): Phase {
    match (p, ev)
    case (Start, Opened) => Up
    case (Up, Data(_)) => Up
    case (Held, Data(_)) => Held
    case (Up, Pend) => Held
    case (Held, Resume) => Up
    case (Start, Closed(_)) => Done
    case (Up, Closed(_)) => Done
    case (Held, Closed(_)) => Done
    case _ => Bad
  }

  function Expected(s: Status): Phase {
    match s case Opening => Start case Open => Up case Pending => Held
  }

  lemma PhaseSnoc(t: seq<Event>, ev: Event)
    ensures PhaseOf(t + [ev]) == Next(PhaseOf(t), ev)
  {
    assert (t + [ev])[..|t|] == t;
  }

  ghost predicate Listed(table: Table, n: nat) {
    exists id :: id in table && table[id].num == n
  }

  ghost predicate InTable(e: Endpoint, n: nat) { Listed(e.table, n) }

  /** Every channel of the table is in the phase its status says; a channel that left the
      table was never opened and saw nothing, or ended with its close. */
  ghost predicate Traced(table: Table, log: Log) { InPhase(table, log) && OthersDone(table, log) }

  ghost predicate InPhase(table: Table, log: Log) {
    forall id :: id in table ==> PhaseOf(EventsIn(log, table[id].num)) == Expected(table[id].status)
  }

  ghost predicate OthersDone(table: Table, log: Log) {
    forall n :: n in log && !Listed(table, n) ==> PhaseOf(log[n]) == Done
  }

  ghost predicate TracesOk(e: Endpoint) { Traced(e.table, e.events) }

  ghost predicate Unique(table: Table) {
    forall id, jd :: id in table && jd in table && id != jd ==> table[id].num != table[jd].num
  }

  lemma AdvanceInPhase(table: Table, log: Log, id: nat, ch: Channel, ev: Event)
    requires InPhase(table, log) && Unique(table) && id in table && ch.num == table[id].num
    requires Next(Expected(table[id].status), ev) == Expected(ch.status)
    ensures InPhase(table[id := ch], log[ch.num := EventsIn(log, ch.num) + [ev]])
  {
    PhaseSnoc(EventsIn(log, ch.num), ev);
  }

  lemma AdvanceOthers(table: Table, log: Log, id: nat, ch: Channel, t: seq<Event>)
    requires OthersDone(table, log) && id in table && ch.num == table[id].num
    ensures OthersDone(table[id := ch], log[ch.num := t])
  {
    forall n | Listed(table, n) ensures Listed(table[id := ch], n) { ListedStill(table, id, ch, n); }
    assert Listed(table[id := ch], ch.num) by { assert table[id := ch][id].num == ch.num; }
  }

  lemma AdvanceTraced(table: Table, log: Log, id: nat, ch: Channel, ev: Event)
    requires Traced(table, log) && Unique(table) && id in table && ch.num == table[id].num
    requires Next(Expected(table[id].status), ev) == Expected(ch.status)
    ensures Traced(table[id := ch], log[ch.num := EventsIn(log, ch.num) + [ev]])
  {
    AdvanceInPhase(table, log, id, ch, ev);
    AdvanceOthers(table, log, id, ch, EventsIn(log, ch.num) + [ev]);
  }

  lemma ListedStill(table: Table, id: nat, ch: Channel, n: nat)
    requires id in table && ch.num == table[id].num && Listed(table, n)
    ensures Listed(table[id := ch], n)
  {
    var jd :| jd in table && table[jd].num == n;
    assert table[id := ch][jd].num == n;
  }

  lemma CloseInPhase(table: Table, log: Log, id: nat, t: seq<Event>)
    requires InPhase(table, log) && Unique(table) && id in table
    ensures InPhase(table - {id}, log[table[id].num := t])
  {
  }

  lemma CloseOthers(table: Table, log: Log, id: nat, t: seq<Event>)
    requires OthersDone(table, log) && id in table && PhaseOf(t) == Done
    ensures OthersDone(table - {id}, log[table[id].num := t])
  {
    forall n | Listed(table, n) && n != table[id].num ensures Listed(table - {id}, n) {
      var jd :| jd in table && table[jd].num == n;
      assert jd in table - {id};
    }
  }

  lemma CloseTraced(table: Table, log: Log, id: nat, reason: Reason)
    requires Traced(table, log) && Unique(table) && id in table
    ensures Traced(table - {id}, log[table[id].num := EventsIn(log, table[id].num) + [Closed(reason)]])
  {
    var t := EventsIn(log, table[id].num) + [Closed(reason)];
    PhaseSnoc(EventsIn(log, table[id].num), Closed(reason));
    CloseInPhase(table, log, id, t);
    CloseOthers(table, log, id, t);
  }

  lemma EnterTraced(table: Table, log: Log, id: nat, ch: Channel)
    requires Traced(table, log) && id !in table && ch.num !in log && ch.status == Opening
    ensures Traced(table[id := ch], log)
  {
    forall n | Listed(table, n) ensures Listed(table[id := ch], n) {
      var jd :| jd in table && table[jd].num == n;
      assert jd in table[id := ch];
    }
  }

  lemma TakenBack(table: Table, id: nat, ch: Channel)
    requires id !in table
    ensures table[id := ch] - {id} == table
  {
  }

  /** A callback that the protocol allows, together with the status it leads to. */
  lemma AdvanceKeepsTraces(e: Endpoint, id: nat, remote: nat, status: Status, ev: Event)
    requires Valid(e) && TracesOk(e) && id in e.table && Next(Expected(e.table[id].status), ev) == Expected(status)
    ensures TracesOk(Notify(SetChannel(e, id, remote, status), id, ev))
  {
    Look(e);
    AdvanceTraced(e.table, e.events, id, e.table[id].(remote := remote, status := status), ev);
  }

  /** A close callback followed by the removal. */
  lemma CloseKeepsTraces(e: Endpoint, id: nat, reason: Reason, freed: bool)
    requires Valid(e) && TracesOk(e) && id in e.table
    ensures TracesOk(Drop(Notify(e, id, Closed(reason)), id, freed))
  {
    Look(e);
    CloseTraced(e.table, e.events, id, reason);
  }

  lemma CreateKeepsTraces(e: Endpoint, ctype: nat, remote: nat, origin: Origin, freed: bool)
    requires Valid(e) && TracesOk(e) && NewId(e) != -1
    ensures TracesOk(Create(e, ctype, remote, origin))
    ensures TracesOk(Drop(Create(e, ctype, remote, origin), NewId(e), freed))
    ensures NewId(e) !in e.table
  {
    NewIsFresh(e);
    var ch := Channel(remote, ctype, Opening, e.made + 1);
    EnterTraced(e.table, e.events, NewId(e), ch);
    TakenBack(e.table, NewId(e), ch);
  }

  lemma NewIsFresh(e: Endpoint)
    requires Valid(e) && NewId(e) != -1
    ensures NewId(e) >= 1 && NewId(e) !in e.table && e.made + 1 !in e.events && !Listed(e.table, e.made + 1)
  {
    Look(e);
  }

  lemma PacketKeepsTraces(e: Endpoint, p: Packet, env: Env)
    requires Valid(e) && TracesOk(e)
    ensures TracesOk(OnPacket(e, p, env).0)
  {
    if p.ptype == DATA && p.local == 0 && p.remote == 0 {
      SameChannelsKeepTraces(e, OnPacket(e, p, env).0);
    } else if p.ptype == OPEN {
      if TypeAllowed(p.option, env) && NewId(e) != -1 {
        var e1 := Create(e, p.option, p.remote, Passive(p.remote));
        CreateKeepsTraces(e, p.option, p.remote, Passive(p.remote), env.freed);
        if env.accept && !env.sent {
          CloseKeepsTraces(e1, NewId(e), Error, env.freed);
        } else if env.accept {
          AdvanceKeepsTraces(e1, NewId(e), p.remote, Open, Opened);
        }
      }
    } else if p.local in e.table {
      ChannelPacketKeepsTraces(e, p, env);
    }
  }

  lemma DataKeepsTraces(e: Endpoint, id: nat, payload: Payload)
    requires Valid(e) && TracesOk(e) && id in e.table && e.table[id].status != Opening
    ensures TracesOk(Notify(e, id, Data(payload)))
  {
    Look(e);
    AdvanceTraced(e.table, e.events, id, e.table[id], Data(payload));
    assert e.table[id := e.table[id]] == e.table;
  }

  lemma ChannelPacketKeepsTraces(e: Endpoint, p: Packet, env: Env)
    requires Valid(e) && TracesOk(e) && p.local in e.table
    ensures TracesOk(OnChannel(e, p, env))
  {
    var id, ch := p.local, e.table[p.local];
    if p.ptype == CONFIRM && ch.status == Opening {
      if p.remote != 0 {
        AdvanceKeepsTraces(e, id, p.remote, Open, Opened);
      } else {
        CloseKeepsTraces(e, id, Error, env.freed);
      }
    } else if p.ptype == DATA && ch.status != Opening {
      DataKeepsTraces(e, id, p.payload);
      if !env.keep { CloseKeepsTraces(Notify(e, id, Data(p.payload)), id, Error, env.freed); }
    } else if p.ptype == PENDING && ch.status == Open {
      AdvanceKeepsTraces(e, id, ch.remote, Pending, Pend);
    } else if p.ptype == RESUME && ch.status == Pending {
      AdvanceKeepsTraces(e, id, ch.remote, Open, Resume);
    } else if p.ptype == CLOSE {
      CloseKeepsTraces(e, id, Normal, env.freed);
    }
  }

  lemma SameChannelsKeepTraces(e: Endpoint, f: Endpoint)
    requires TracesOk(e) && f.table == e.table && f.events == e.events
    ensures TracesOk(f)
  {
  }

  lemma CallKeepsTraces(e: Endpoint, c: Call, env: Env)
    requires Valid(e) && TracesOk(e)
    ensures TracesOk(OnCall(e, c, env).0)
  {
    var f := OnCall(e, c, env).0;
    match c
    case OpenChannel(ctype, cookie) =>
      if ctype <= 2 && NewId(e) != -1 { CreateKeepsTraces(e, ctype, 0, Active, env.freed); }
    case CloseChannel(id) => if id in e.table { CloseKeepsTraces(e, id, Normal, env.freed); }
    case ExpireChannel(id) => if id in e.table { CloseKeepsTraces(e, id, Timeout, env.freed); }
    case CloseAll(id, reason) => if id in e.table { CloseKeepsTraces(e, id, reason, env.freed); }
    case _ => QuietCalls(e, c, env); SameChannelsKeepTraces(e, f);
  }

  /** The other calls make no callbacks and keep the table. */
  lemma QuietCalls(e: Endpoint, c: Call, env: Env)
    requires Valid(e) && (c.WriteChannel? || c.PendChannel? || c.ResumeChannel? || c.KeepAlive?)
    ensures OnCall(e, c, env).0.table == e.table && OnCall(e, c, env).0.events == e.events
  {
  }

  // ----- runs of one endpoint against any peer -----

  datatype Input = Received(packet: Packet, env: Env) | Called(call: Call, env: Env)

  ghost function Step(e: Endpoint, i: Input): (r: (Endpoint, seq<Packet>))
    requires Valid(e)
    ensures Valid(r.0)
  {
    match i
    case Received(p, env) => OnPacket(e, p, env)
    case Called(c, env) => OnCall(e, c, env)
  }

  ghost function RunFrom(e: Endpoint, inputs: seq<Input>): (f: Endpoint)
    requires Valid(e)
    ensures Valid(f)
  {
    if inputs == [] then e else Step(RunFrom(e, inputs[..|inputs| - 1]), inputs[|inputs| - 1]).0
  }

  /** The packets a run sends. */
  ghost function Outputs(e: Endpoint, inputs: seq<Input>): seq<Packet>
    requires Valid(e)
  {
    if inputs == [] then [] else
      Outputs(e, inputs[..|inputs| - 1]) + Step(RunFrom(e, inputs[..|inputs| - 1]), inputs[|inputs| - 1]).1
  }

  lemma FreshValid()
    ensures Valid(Fresh)
  {
  }

  ghost function Run(inputs: seq<Input>): (e: Endpoint)
    ensures Valid(e)
  {
    FreshValid();
    RunFrom(Fresh, inputs)
  }

  lemma RunSnoc(e: Endpoint, inputs: seq<Input>, i: Input)
    requires Valid(e)
    ensures RunFrom(e, inputs + [i]) == Step(RunFrom(e, inputs), i).0
    ensures Outputs(e, inputs + [i]) == Outputs(e, inputs) + Step(RunFrom(e, inputs), i).1
  {
    assert (inputs + [i])[..|inputs|] == inputs;
  }

  lemma RunOne(e: Endpoint, i: Input)
    requires Valid(e)
    ensures RunFrom(e, [i]) == Step(e, i).0 && Outputs(e, [i]) == Step(e, i).1
  {
    RunSnoc(e, [], i);
    assert [] + [i] == [i] && [] + Step(e, i).1 == Step(e, i).1;
  }

  lemma {:induction false} RunAppend(e: Endpoint, a: seq<Input>, b: seq<Input>)
    requires Valid(e)
    ensures RunFrom(e, a + b) == RunFrom(RunFrom(e, a), b)
    ensures Outputs(e, a + b) == Outputs(e, a) + Outputs(RunFrom(e, a), b)
  {
    if b == [] {
      assert a + b == a && Outputs(e, a) + [] == Outputs(e, a);
    } else {
      var n := |b| - 1;
      RunAppend(e, a, b[..n]);
      AppendLast(a, b);
      BothSnoc(e, RunFrom(e, a), a + b[..n], b[..n], b[n], Outputs(e, a));
    }
  }

  /** Two runs in the same state do the same on the same input. */
  lemma BothSnoc(e: Endpoint, f: Endpoint, a: seq<Input>, b: seq<Input>, i: Input, sent: seq<Packet>)
    requires Valid(e) && Valid(f) && RunFrom(e, a) == RunFrom(f, b) && Outputs(e, a) == sent + Outputs(f, b)
    ensures RunFrom(e, a + [i]) == RunFrom(f, b + [i]) && Outputs(e, a + [i]) == sent + Outputs(f, b + [i])
  {
    RunSnoc(e, a, i);
    RunSnoc(f, b, i);
    AppendAppend(sent, Outputs(f, b), Step(RunFrom(f, b), i).1);
  }

  /** Whatever the peer sends and the user calls, every channel's callbacks follow the protocol. */
  lemma {:induction false} RunKeepsTraces(inputs: seq<Input>)
    ensures TracesOk(Run(inputs))
  {
    if inputs != [] {
      var e, i := Run(inputs[..|inputs| - 1]), inputs[|inputs| - 1];
      RunKeepsTraces(inputs[..|inputs| - 1]);
      match i
      case Received(p, env) => PacketKeepsTraces(e, p, env);
      case Called(c, env) => CallKeepsTraces(e, c, env);
    }
  }

  // ----- the protocol in plain words -----

  /** Data, pending and resume come only after opened, and opened comes once. */
  ghost predicate OpenedFirst(t: seq<Event>) {
    && (forall i :: 0 <= i < |t| && (t[i].Data? || t[i].Pend? || t[i].Resume?) ==> OpenedBefore(t, i))
    && (forall i :: 0 <= i < |t| && t[i].Opened? ==> i == 0)
  }

  ghost predicate OpenedBefore(t: seq<Event>, i: int)
    requires i <= |t|
  {
    0 < i && t[0].Opened?
  }

  /** Nothing comes after a close. */
  ghost predicate ClosedLast(t: seq<Event>) {
    forall i :: 0 <= i < |t| && t[i].Closed? ==> i == |t| - 1
  }

  /** The pending and resume callbacks alone. */
  function Holds(t: seq<Event>): seq<Event> {
    if t == [] then [] else
      Holds(t[..|t| - 1]) + (if t[|t| - 1].Pend? || t[|t| - 1].Resume? then [t[|t| - 1]] else [])
  }

  /** They alternate, pending first. */
  ghost predicate Alternating(h: seq<Event>) {
    forall i :: 0 <= i < |h| ==> h[i] == if i % 2 == 0 then Pend else Resume
  }

  /** What a trace without a bad step looks like. */
  lemma {:induction false} PhaseInWords(t: seq<Event>)
    requires PhaseOf(t) != Bad
    ensures OpenedFirst(t) && ClosedLast(t)
    ensures PhaseOf(t) == Start <==> t == []
    ensures PhaseOf(t) in {Up, Held} ==> t[0].Opened? && forall i :: 0 <= i < |t| ==> !t[i].Closed?
    ensures PhaseOf(t) == Done ==> |t| > 0 && t[|t| - 1].Closed?
  {
    if t != [] {
      var u, ev := t[..|t| - 1], t[|t| - 1];
      PhaseInWords(u);
      assert forall i :: 0 <= i < |u| ==> t[i] == u[i];
    }
  }

  lemma {:induction false} PhaseAlternates(t: seq<Event>)
    requires PhaseOf(t) != Bad
    ensures Alternating(Holds(t))
    ensures PhaseOf(t) == Start ==> Holds(t) == []
    ensures PhaseOf(t) == Up ==> |Holds(t)| % 2 == 0
    ensures PhaseOf(t) == Held ==> |Holds(t)| % 2 == 1
  {
    if t != [] {
      PhaseAlternates(t[..|t| - 1]);
    }
  }

  /** The callbacks of channel n are in order, and if it was reported open it has been closed
      exactly once when it is no longer in the table. */
  ghost predicate FollowsProtocol(e: Endpoint, n: nat) {
    var t := EventsOf(e, n);
    && OpenedFirst(t) && ClosedLast(t) && Alternating(Holds(t))
    && (InTable(e, n) ==> forall i :: 0 <= i < |t| ==> !t[i].Closed?)
    && (!InTable(e, n) ==> t == [] || t[|t| - 1].Closed?)
  }

  /** In every run this is so for every channel ever created. */
  lemma CallbackProtocol(inputs: seq<Input>, n: nat)
    ensures FollowsProtocol(Run(inputs), n)
  {
    RunKeepsTraces(inputs);
    var e := Run(inputs);
    var t := EventsOf(e, n);
    if InTable(e, n) {
      var id :| id in e.table && e.table[id].num == n;
      assert PhaseOf(t) == Expected(e.table[id].status);
    }
    PhaseInWords(t);
    PhaseAlternates(t);
  }
}
