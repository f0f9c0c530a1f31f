/** Whole runs of a multiplexer handler: they are runs of the endpoint, so its own log follows
    the callback protocol. */
module HandlerRuns {
  import opened Bytes
  import opened Options
  import opened Wire
  import opened Multiplexer
  import opened MultiplexHandler

  datatype HandlerOp =
    | Deliver(frame: seq<Byte>, w: World)
    | Request(ctype: Byte, cookie: Payload, timeout: int, w: World)
    | Shut(id: nat, w: World)
    | Write(id: nat, payload: Payload, w: World)
    | Pause(id: nat, w: World)
    | Continue(id: nat, w: World)
    | Check(w: World)
    | ShutAll(reason: Reason, w: World)

  /** The call of an operation. */
  function CallOf(op: HandlerOp): Call
    requires op.Request? || op.Shut? || op.Write? || op.Pause? || op.Continue?
  {
    match op
    case Request(ctype, cookie, _, _) => Call.OpenChannel(ctype, cookie)
    case Shut(id, _) => Call.CloseChannel(id)
    case Write(id, payload, _) => Call.WriteChannel(id, payload)
    case Pause(id, _) => Call.PendChannel(id)
    case Continue(id, _) => Call.ResumeChannel(id)
  }

  /** The order names every channel of the table once. */
  ghost predicate InOrder(o: seq<nat>, table: Table) { Distinct(o) && forall id :: id in table <==> id in o }

  /** The inputs an operation stands for at an endpoint with these clocks. Open are only whether
      ids got free, and the order in which the table is gone through. */
  ghost predicate Stands(op: HandlerOp, e: Endpoint, c: Clocks, ins: seq<Input>) {
    match op
    case Deliver(frame, w) =>
      if Parse(frame) == None then ins == []
      else |ins| == 1 && ins[0] == Input.Received(Parse(frame).value, EnvOf(w, ins[0].env.freed))
    case Check(w) =>
      exists o, fs :: InOrder(o, e.table) && |fs| == |o| && Covers(o, c) && ins == Decisions(o, c, w, fs)
    case ShutAll(reason, w) =>
      exists o, fs :: InOrder(o, e.table) && |fs| == |o| && ins == Closings(o, reason, w, fs)
    case _ => |ins| == 1 && ins[0] == Called(CallOf(op), EnvOf(op.w, ins[0].env.freed))
  }

  /** The clocks after an operation. */
  ghost function NextClocks(op: HandlerOp, e: Endpoint, c: Clocks, ins: seq<Input>): Clocks
    requires Multiplexer.Valid(e) && Stands(op, e, c, ins)
  {
    match op
    case Deliver(frame, w) =>
      if Parse(frame) == None then c else OnPacketClocks(e, c, Parse(frame).value, ins[0].env, w.now)
    case Request(ctype, _, timeout, w) =>
      if ctype > 2 || !w.sent || NewId(e) == -1 then c else c[NewId(e) := Clock(timeout, w.now, w.now, Time(0, 0))]
    case Shut(id, _) => c - {id}
    case Check(w) => Checked(c, w)
    case ShutAll(_, _) => map[]
    case Write(id, _, w) => if id == 0 || OnCall(e, CallOf(op), ins[0].env).1 == [] then c else Spoken(c, id, w.now)
    case _ => if OnCall(e, CallOf(op), ins[0].env).1 == [] then c else Spoken(c, op.id, op.w.now)
  }

  ghost function Spoken(c: Clocks, id: nat, now: Time): Clocks { if id in c then c[id := Spoke(c[id], now)] else c }

  /** A checkpoint takes the expired channels away and reminds those that are due. */
  ghost function Checked(c: Clocks, w: World): Clocks {
    map id | id in c && !Expired(c[id], w.now) ::
      if Due(c[id], w.now) && w.takes(id) then c[id].(spoke := w.now) else c[id]
  }

  ghost predicate AllCalled(ins: seq<Input>) { forall i :: 0 <= i < |ins| ==> ins[i].Called? }

  /** Cookies and data are those of the operation. */
  ghost predicate LengthsOf(op: HandlerOp, ins: seq<Input>)
    requires AllCalled(ins)
  {
    forall i :: 0 <= i < |ins| ==>
      && (ins[i].call.OpenChannel? ==> op.Request? && ins[i].call.cookie == op.cookie)
      && (ins[i].call.WriteChannel? ==> op.Write? && ins[i].call.payload == op.payload)
  }

  lemma StandsForCalls(op: HandlerOp, e: Endpoint, c: Clocks, ins: seq<Input>)
    requires !op.Deliver? && Stands(op, e, c, ins)
    ensures AllCalled(ins) && LengthsOf(op, ins)
  {
    match op
    case Check(w) =>
      var o, fs :| InOrder(o, e.table) && |fs| == |o| && Covers(o, c) && ins == Decisions(o, c, w, fs);
      DecisionsAreCalls(o, c, w, fs);
    case ShutAll(reason, w) =>
      var o, fs :| InOrder(o, e.table) && |fs| == |o| && ins == Closings(o, reason, w, fs);
      ClosingsAreCalls(o, reason, w, fs);
    case _ =>
  }

  /** Calls without cookie or data. */
  ghost predicate AllBare(ins: seq<Input>)
    requires AllCalled(ins)
  {
    forall i :: 0 <= i < |ins| ==> !ins[i].call.OpenChannel? && !ins[i].call.WriteChannel?
  }

  lemma {:induction false} DecisionsAreCalls(o: seq<nat>, c: Clocks, w: World, fs: seq<bool>)
    requires |fs| == |o| && Covers(o, c)
    ensures AllCalled(Decisions(o, c, w, fs)) && AllBare(Decisions(o, c, w, fs))
  {
    if o != [] { DecisionsAreCalls(o[..|o| - 1], c, w, fs[..|o| - 1]); }
  }

  lemma {:induction false} ClosingsAreCalls(o: seq<nat>, reason: Reason, w: World, fs: seq<bool>)
    requires |fs| == |o|
    ensures AllCalled(Closings(o, reason, w, fs)) && AllBare(Closings(o, reason, w, fs))
  {
    if o != [] { ClosingsAreCalls(o[..|o| - 1], reason, w, fs[..|o| - 1]); }
  }

  /** Every operation of the handler is the run of the endpoint that it stands for, and sends
      what that run sends. */
  method Perform(h: Handler, op: HandlerOp) returns (out: seq<Packet>, ghost ins: seq<Input>)
    requires h.Valid()
    modifies h.Repr()
    ensures h.Valid() && fresh(h.Repr() - old(h.Repr())) && Multiplexer.Valid(old(h.state))
    ensures h.state == RunFrom(old(h.state), ins) && out == Outputs(old(h.state), ins)
    ensures Stands(op, old(h.state), old(h.clocks), ins)
    ensures h.clocks == NextClocks(op, old(h.state), old(h.clocks), ins)
  {
    match op {
      case Deliver(frame, w) => out, ins := PerformFrame(h, frame, w);
      case Check(w) => out, ins := PerformCheck(h, w);
      case ShutAll(reason, w) => out, ins := PerformShutAll(h, reason, w);
      case Request(_, _, _, _) => out, ins := PerformRequest(h, op);
      case Shut(_, _) => out, ins := PerformShut(h, op);
      case _ => out, ins := PerformSend(h, op);
    }
  }

  method PerformFrame(h: Handler, frame: seq<Byte>, w: World) returns (out: seq<Packet>, ghost ins: seq<Input>)
    requires h.Valid()
    modifies h.Repr()
    ensures h.Valid() && fresh(h.Repr() - old(h.Repr())) && Multiplexer.Valid(old(h.state))
    ensures h.state == RunFrom(old(h.state), ins) && out == Outputs(old(h.state), ins)
    ensures Stands(Deliver(frame, w), old(h.state), old(h.clocks), ins)
    ensures h.clocks == NextClocks(Deliver(frame, w), old(h.state), old(h.clocks), ins)
  {
    ghost var e, freed := h.state, false;
    h.Inside();
    out, freed := h.NotifyFrame(frame, w);
    ins := [];
    if Parse(frame).Some? {
      ins := [Input.Received(Parse(frame).value, EnvOf(w, freed))];
      RunOne(e, ins[0]);
    }
  }

  method PerformCheck(h: Handler, w: World) returns (out: seq<Packet>, ghost ins: seq<Input>)
    requires h.Valid()
    modifies h.Repr()
    ensures h.Valid() && fresh(h.Repr() - old(h.Repr())) && Multiplexer.Valid(old(h.state))
    ensures h.state == RunFrom(old(h.state), ins) && out == Outputs(old(h.state), ins)
    ensures Stands(Check(w), old(h.state), old(h.clocks), ins) && h.clocks == Checked(old(h.clocks), w)
  {
    ghost var fs, o, e, c := [], h.index.order, h.state, h.clocks;
    AsOrdered(h);
    out, fs := h.Checkpoint(w);
    ins := Decisions(o, c, w, fs);
    assert Stands(Check(w), e, c, ins);
    CheckedAll(o, c, w);
  }

  lemma AsOrdered(h: Handler)
    requires h.Valid()
    ensures InOrder(h.index.order, h.state.table) && Covers(h.index.order, h.clocks)
    ensures h.clocks.Keys == h.state.table.Keys && forall id :: id in h.clocks ==> id in h.index.order
  {
    h.Inside();
    h.Ordered();
    h.AllListed();
  }

  lemma CheckedAll(o: seq<nat>, c: Clocks, w: World)
    requires Covers(o, c) && forall id :: id in c ==> id in o
    ensures CheckedClocks(o, c, w) == Checked(c, w)
  {
  }

  method PerformShutAll(h: Handler, reason: Reason, w: World) returns (out: seq<Packet>, ghost ins: seq<Input>)
    requires h.Valid()
    modifies h.Repr()
    ensures h.Valid() && fresh(h.Repr() - old(h.Repr())) && Multiplexer.Valid(old(h.state))
    ensures h.state == RunFrom(old(h.state), ins) && out == Outputs(old(h.state), ins)
    ensures Stands(ShutAll(reason, w), old(h.state), old(h.clocks), ins) && h.clocks == map[]
  {
    ghost var e, o := h.state, h.index.order;
    AsOrdered(h);
    h.Inside();
    var fs := h.CloseChannels(reason, w);
    ins := Closings(o, reason, w, fs);
    ClosingsAreSilent(e, o, reason, w, fs);
    h.Inside();
    out := [];
  }

  lemma {:induction false} ClosingsAreSilent(e: Endpoint, o: seq<nat>, reason: Reason, w: World, fs: seq<bool>)
    requires Multiplexer.Valid(e) && |fs| == |o|
    ensures Outputs(e, Closings(o, reason, w, fs)) == []
  {
    if o != [] {
      var n := |o| - 1;
      ClosingsAreSilent(e, o[..n], reason, w, fs[..n]);
      SilentNext(e, Closings(o[..n], reason, w, fs[..n]), o[n], reason, EnvOf(w, fs[n]));
    }
  }

  lemma SilentNext(e: Endpoint, ins: seq<Input>, id: nat, reason: Reason, env: Env)
    requires Multiplexer.Valid(e) && Outputs(e, ins) == []
    ensures Outputs(e, ins + [Called(CloseAll(id, reason), env)]) == []
  {
    RunSnoc(e, ins, Called(CloseAll(id, reason), env));
  }

  method PerformRequest(h: Handler, op: HandlerOp) returns (out: seq<Packet>, ghost ins: seq<Input>)
    requires h.Valid() && op.Request?
    modifies h.Repr()
    ensures h.Valid() && fresh(h.Repr() - old(h.Repr())) && Multiplexer.Valid(old(h.state))
    ensures h.state == RunFrom(old(h.state), ins) && out == Outputs(old(h.state), ins)
    ensures Stands(op, old(h.state), old(h.clocks), ins)
    ensures h.clocks == NextClocks(op, old(h.state), old(h.clocks), ins)
  {
    ghost var e, freed := h.state, false;
    var rc;
    h.Inside();
    rc, out, freed := h.OpenChannel(op.ctype, op.cookie, op.timeout, op.w);
    ins := [Called(CallOf(op), EnvOf(op.w, freed))];
    RunOne(e, ins[0]);
  }

  method PerformShut(h: Handler, op: HandlerOp) returns (out: seq<Packet>, ghost ins: seq<Input>)
    requires h.Valid() && op.Shut?
    modifies h.Repr()
    ensures h.Valid() && fresh(h.Repr() - old(h.Repr())) && Multiplexer.Valid(old(h.state))
    ensures h.state == RunFrom(old(h.state), ins) && out == Outputs(old(h.state), ins)
    ensures Stands(op, old(h.state), old(h.clocks), ins) && h.clocks == old(h.clocks) - {op.id}
  {
    ghost var e, freed := h.state, false;
    var rc;
    h.Inside();
    rc, out, freed := h.CloseChannel(op.id, op.w);
    ins := [Called(CallOf(op), EnvOf(op.w, freed))];
    RunOne(e, ins[0]);
  }

  method PerformSend(h: Handler, op: HandlerOp) returns (out: seq<Packet>, ghost ins: seq<Input>)
    requires h.Valid() && (op.Write? || op.Pause? || op.Continue?)
    modifies h
    ensures h.Valid() && h.Repr() == old(h.Repr()) && Multiplexer.Valid(old(h.state))
    ensures h.state == RunFrom(old(h.state), ins) && out == Outputs(old(h.state), ins)
    ensures Stands(op, old(h.state), old(h.clocks), ins)
    ensures h.clocks == NextClocks(op, old(h.state), old(h.clocks), ins)
  {
    ghost var e := h.state;
    var rc;
    h.Inside();
    ins := [Called(CallOf(op), EnvOf(op.w, false))];
    match op {
      case Write(id, payload, w) => rc, out := h.WriteChannel(id, payload, w);
      case Pause(id, w) => rc, out := h.Signal(PENDING, id, w);
      case Continue(id, w) => rc, out := h.Signal(RESUME, id, w);
    }
    RunOne(e, ins[0]);
  }

  // ----- runs -----

  /** The clocks after a run. */
  ghost function ClocksAfter(e: Endpoint, c: Clocks, ops: seq<HandlerOp>, parts: seq<seq<Input>>): Clocks
    requires Multiplexer.Valid(e) && Serves(e, c, ops, parts)
    decreases |ops|, 1
  {
    if ops == [] then c
    else
      var n := |ops| - 1;
      NextClocks(ops[n], RunFrom(e, Concat(parts[..n])), ClocksAfter(e, c, ops[..n], parts[..n]), parts[n])
  }

  /** Every operation of a run stands for its part of the inputs. */
  ghost predicate Serves(e: Endpoint, c: Clocks, ops: seq<HandlerOp>, parts: seq<seq<Input>>)
    requires Multiplexer.Valid(e)
    decreases |ops|, 0
  {
    && |parts| == |ops|
    && (ops != [] ==>
          var n := |ops| - 1;
          && Serves(e, c, ops[..n], parts[..n])
          && Stands(ops[n], RunFrom(e, Concat(parts[..n])), ClocksAfter(e, c, ops[..n], parts[..n]), parts[n]))
  }

  lemma ServesNext(e: Endpoint, c: Clocks, ops: seq<HandlerOp>, parts: seq<seq<Input>>, i: nat, ins: seq<Input>)
    requires Multiplexer.Valid(e) && i < |ops| && Serves(e, c, ops[..i], parts)
    requires Stands(ops[i], RunFrom(e, Concat(parts)), ClocksAfter(e, c, ops[..i], parts), ins)
    ensures Serves(e, c, ops[..i + 1], parts + [ins]) && Concat(parts + [ins]) == Concat(parts) + ins
    ensures ClocksAfter(e, c, ops[..i + 1], parts + [ins])
            == NextClocks(ops[i], RunFrom(e, Concat(parts)), ClocksAfter(e, c, ops[..i], parts), ins)
  {
    assert ops[..i + 1][..i] == ops[..i] && (parts + [ins])[..i] == parts;
    ConcatAppend(parts, [ins]);
    ConcatOne(ins);
  }

  /** Any run of a handler is the run of the endpoint that its operations stand for. */
  method Drive(h: Handler, ops: seq<HandlerOp>) returns (out: seq<Packet>, ghost parts: seq<seq<Input>>)
    requires h.Valid()
    modifies h.Repr()
    ensures h.Valid() && fresh(h.Repr() - old(h.Repr())) && Multiplexer.Valid(old(h.state))
    ensures Serves(old(h.state), old(h.clocks), ops, parts)
    ensures h.state == RunFrom(old(h.state), Concat(parts)) && out == Outputs(old(h.state), Concat(parts))
    ensures h.clocks == ClocksAfter(old(h.state), old(h.clocks), ops, parts)
  {
    h.Inside();
    ghost var e, c := h.state, h.clocks;
    out, parts := [], [];
    for i := 0 to |ops|
      invariant h.Valid() && fresh(h.Repr() - old(h.Repr()))
      invariant Serves(e, c, ops[..i], parts) && h.clocks == ClocksAfter(e, c, ops[..i], parts)
      invariant h.state == RunFrom(e, Concat(parts)) && out == Outputs(e, Concat(parts))
    {
      var sent, ins := Perform(h, ops[i]);
      RunAppend(e, Concat(parts), ins);
      ServesNext(e, c, ops, parts, i, ins);
      out, parts := out + sent, parts + [ins];
    }
    assert ops[..|ops|] == ops;
  }

  /** A handler from its creation on: its own log of callbacks follows the protocol, for every
      channel, whatever arrives, is called and expires. */
  method Serve(ops: seq<HandlerOp>) returns (h: Handler, out: seq<Packet>, ghost parts: seq<seq<Input>>)
    ensures fresh(h) && h.Valid()
    ensures (FreshValid(); Serves(Fresh, map[], ops, parts))
    ensures h.state == Run(Concat(parts)) && forall n :: FollowsProtocol(h.state, n)
  {
    h := new Handler();
    out, parts := Drive(h, ops);
    forall n ensures FollowsProtocol(h.state, n) { CallbackProtocol(Concat(parts), n); }
  }
}
