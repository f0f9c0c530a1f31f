/** Two handlers with their reassembly buffers, joined by byte streams: they do what the system
    over bytes does. */
module PeerRuns {
  import opened Bytes
  import opened Options
  import opened FlexBuffers
  import opened Reassembly
  import opened Wire
  import opened Multiplexer
  import opened MultiplexHandler
  import opened HandlerRuns
  import opened TwoPeers
  import opened BytePeers
  import opened Sealing

  class Peer {
    const handler: Handler
    const assembler: Reassembler

    ghost function Repr(): set<object>
      reads handler.index
    {
      handler.Repr() + {this, assembler, assembler.incomplete, assembler.incomplete.buffer}
    }

    ghost predicate Valid()
      reads this, handler.index, Repr()
    {
      && assembler.Valid()
      && forall i {:trigger Unsealed(Peering, i)} :: Unsealed(Peering, i) ==> Working()
    }

    ghost predicate Working()
      reads handler.index, handler.Repr()
    {
      handler.Valid() && handler.Repr() !! {this, assembler, assembler.incomplete, assembler.incomplete.buffer}
    }

    lemma Inside()
      requires Valid()
      ensures Working()
    {
      assert Unsealed(Peering, 0);
    }

    ghost function View(): Station
      requires assembler.Valid()
      reads handler, assembler, assembler.incomplete, assembler.incomplete.buffer
    {
      Station(handler.state, assembler.Pending())
    }

    constructor ()
      ensures Valid() && fresh(Repr()) && View() == Station(Fresh, []) && handler.clocks == map[]
    {
      handler := new Handler();
      assembler := new Reassembler();
    }

    /** A call on the handler; what it sends goes out as bytes. */
    method Act(op: HandlerOp) returns (out: seq<Byte>, ghost ins: seq<Input>)
      requires Valid() && !op.Deliver?
      modifies Repr()
      ensures Valid() && fresh(Repr() - old(Repr())) && Multiplexer.Valid(old(handler.state))
      ensures Stands(op, old(handler.state), old(handler.clocks), ins)
      ensures View() == old(View()).(endpoint := RunFrom(old(handler.state), ins))
      ensures out == BytesOf(Outputs(old(handler.state), ins))
      ensures handler.clocks == NextClocks(op, old(handler.state), old(handler.clocks), ins)
    {
      Inside();
      var packets;
      packets, ins := Perform(handler, op);
      out := BytesOf(packets);
    }

    /** A chunk arrives: the frames that are complete are handed to the handler. */
    method Arrive(chunk: seq<Byte>, ws: nat -> World) returns (out: seq<Byte>, ghost envs: seq<Env>)
      requires Valid()
      modifies Repr()
      ensures Valid() && fresh(Repr() - old(Repr())) && Multiplexer.Valid(old(handler.state))
      ensures var fed := Feed(old(View()).pending, chunk); var r := TakeFrames(old(handler.state), fed.0, envs);
              && View() == Station(r.0, fed.1) && out == BytesOf(r.1)
              && |envs| == |fed.0| && Answers(envs, ws)
              && handler.clocks == FrameClocks(old(handler.state), old(handler.clocks), fed.0, envs, ws)
    {
      Inside();
      handler.Inside();
      var buf := new FlexBuffer.From(FLEX_PADDING_LEN, chunk);
      var handed := assembler.NotifyData(buf);
      var packets;
      packets, envs := HandOn(handed, ws);
      out := BytesOf(packets);
    }

    method HandOn(handed: seq<seq<Byte>>, ws: nat -> World) returns (out: seq<Packet>, ghost envs: seq<Env>)
      requires Working() && assembler.Valid()
      modifies handler.Repr()
      ensures Working() && assembler.Valid()
      ensures fresh(handler.Repr() - old(handler.Repr())) && Multiplexer.Valid(old(handler.state))
      ensures (handler.state, out) == TakeFrames(old(handler.state), handed, envs)
      ensures assembler.Pending() == old(assembler.Pending()) && |envs| == |handed| && Answers(envs, ws)
      ensures handler.clocks == FrameClocks(old(handler.state), old(handler.clocks), handed, envs, ws)
    {
      handler.Inside();
      ghost var e, c := handler.state, handler.clocks;
      out, envs := [], [];
      for i := 0 to |handed|
        invariant Working() && assembler.Valid() && fresh(handler.Repr() - old(handler.Repr()))
        invariant |envs| == i && Answers(envs, ws)
        invariant (handler.state, out) == TakeFrames(e, handed[..i], envs)
        invariant handler.clocks == FrameClocks(e, c, handed[..i], envs, ws)
        invariant assembler.Pending() == old(assembler.Pending())
      {
        out, envs := HandOne(handed, i, ws, out, e, c, envs);
      }
      assert handed[..|handed|] == handed;
    }

    /** One frame goes to the handler. */
    method HandOne(handed: seq<seq<Byte>>, i: nat, ws: nat -> World, out: seq<Packet>, ghost e: Endpoint,
                   ghost c: Clocks, ghost envs: seq<Env>)
      returns (out': seq<Packet>, ghost envs': seq<Env>)
      requires Working() && i < |handed| && |envs| == i && Answers(envs, ws) && Multiplexer.Valid(e)
      requires (handler.state, out) == TakeFrames(e, handed[..i], envs)
      requires handler.clocks == FrameClocks(e, c, handed[..i], envs, ws)
      modifies handler.Repr()
      ensures Working() && fresh(handler.Repr() - old(handler.Repr()))
      ensures |envs'| == i + 1 && Answers(envs', ws)
      ensures (handler.state, out') == TakeFrames(e, handed[..i + 1], envs')
      ensures handler.clocks == FrameClocks(e, c, handed[..i + 1], envs', ws)
    {
      var more;
      ghost var ins;
      more, ins := PerformFrame(handler, handed[i], ws(i));
      ghost var env := if ins == [] then EnvOf(ws(i), false) else ins[0].env;
      TakeFramesNext(e, handed, envs, i, ins, env);
      FrameClocksNext(e, c, handed, envs, i, env, ws);
      out', envs' := out + more, envs + [env];
    }
  }

  /** The callbacks and the lower layer answered as given. */
  ghost predicate Answers(envs: seq<Env>, ws: nat -> World) {
    forall i :: 0 <= i < |envs| ==> envs[i] == EnvOf(ws(i), envs[i].freed)
  }

  /** The clocks of a handler after it was handed frames. */
  ghost function FrameClocks(e: Endpoint, c: Clocks, frames: seq<seq<Byte>>, envs: seq<Env>, ws: nat -> World): Clocks
    requires Multiplexer.Valid(e)
  {
    if frames == [] then c
    else
      var n := |frames| - 1;
      var before := FrameClocks(e, c, frames[..n], envs, ws);
      if Parse(frames[n]) == None then before
      else
        OnPacketClocks(TakeFrames(e, frames[..n], envs).0, before, Parse(frames[n]).value, EnvAt(envs, n), ws(n).now)
  }

  lemma FrameClocksNext(e: Endpoint, c: Clocks, frames: seq<seq<Byte>>, envs: seq<Env>, i: nat, env: Env,
                        ws: nat -> World)
    requires Multiplexer.Valid(e) && i < |frames| && |envs| == i
    ensures var before := FrameClocks(e, c, frames[..i], envs, ws);
            FrameClocks(e, c, frames[..i + 1], envs + [env], ws) ==
            if Parse(frames[i]) == None then before
            else OnPacketClocks(TakeFrames(e, frames[..i], envs).0, before, Parse(frames[i]).value, env, ws(i).now)
  {
    assert frames[..i + 1][..i] == frames[..i];
    LaterEnvs(e, frames[..i], envs, env);
    LaterClocks(e, c, frames[..i], envs, env, ws);
  }

  lemma {:induction false} LaterClocks(e: Endpoint, c: Clocks, frames: seq<seq<Byte>>, envs: seq<Env>, env: Env,
                                       ws: nat -> World)
    requires Multiplexer.Valid(e) && |frames| <= |envs|
    ensures FrameClocks(e, c, frames, envs + [env], ws) == FrameClocks(e, c, frames, envs, ws)
  {
    if frames != [] {
      LaterEnvs(e, frames[..|frames| - 1], envs, env);
      LaterClocks(e, c, frames[..|frames| - 1], envs, env, ws);
    }
  }

  lemma TakeFramesNext(e: Endpoint, frames: seq<seq<Byte>>, envs: seq<Env>, i: nat, ins: seq<Input>, env: Env)
    requires Multiplexer.Valid(e) && i < |frames| && |envs| == i
    requires if Parse(frames[i]).Some? then ins == [Input.Received(Parse(frames[i]).value, env)] else ins == []
    ensures var before := TakeFrames(e, frames[..i], envs);
            TakeFrames(e, frames[..i + 1], envs + [env]) == (RunFrom(before.0, ins), before.1 + Outputs(before.0, ins))
  {
    var before := TakeFrames(e, frames[..i], envs);
    assert frames[..i + 1][..i] == frames[..i];
    LaterEnvs(e, frames[..i], envs, env);
    if ins == [] {
      assert before.1 + [] == before.1;
    } else {
      RunOne(before.0, ins[0]);
    }
  }

  lemma {:induction false} LaterEnvs(e: Endpoint, frames: seq<seq<Byte>>, envs: seq<Env>, env: Env)
    requires Multiplexer.Valid(e) && |frames| <= |envs|
    ensures TakeFrames(e, frames, envs + [env]) == TakeFrames(e, frames, envs)
  {
    if frames != [] { LaterEnvs(e, frames[..|frames| - 1], envs, env); }
  }

  /** Something happens on one side: an operation there, or the next n bytes arrive. */
  datatype PeerOp = Does(at: Side, op: HandlerOp) | Gets(at: Side, n: nat, ws: nat -> World)

  /** The operations that decide the length of a packet. */
  ghost predicate SmallOp(op: PeerOp) {
    && (op.Does? && op.op.Request? ==> |op.op.cookie| + PROTOCOL_HEAD_LEN <= ROOM)
    && (op.Does? && op.op.Write? ==> |op.op.payload| + PROTOCOL_HEAD_LEN <= ROOM)
  }

  lemma SmallMovesMore(moves: seq<ByteMove>, op: PeerOp, b: ByteSystem, c: Clocks, ms: seq<ByteMove>, d: Clocks)
    requires Sound(b) && SmallMoves(moves) && SmallOp(op) && MovesOf(op, b, c, ms, d) && (op.Does? ==> !op.op.Deliver?)
    ensures SmallMoves(moves + ms)
  {
    assert Unsealed(Telling, 0);
    if op.Does? {
      var e := Here(b, op.at).endpoint;
      var ins :| Stands(op.op, e, c, ins) && AllCalled(ins) && ms == ActMoves(op.at, ins);
      StandsForCalls(op.op, e, c, ins);
    }
  }

  /** The moves that something stands for in a system of peers where that side has the clocks c,
      and its clocks afterwards; open are whether ids got free, and the order of the tables. */
  ghost predicate MovesOf(op: PeerOp, b: ByteSystem, c: Clocks, ms: seq<ByteMove>, d: Clocks)
    requires Sound(b)
  {
    forall i {:trigger Unsealed(Telling, i)} :: Unsealed(Telling, i) ==> MeantBy(op, b, c, ms, d)
  }

  ghost predicate MeantBy(op: PeerOp, b: ByteSystem, c: Clocks, ms: seq<ByteMove>, d: Clocks)
    requires Sound(b)
  {
    match op
    case Does(at, o) =>
      var e := Here(b, at).endpoint;
      exists ins :: Stands(o, e, c, ins) && AllCalled(ins) && ms == ActMoves(at, ins) && d == NextClocks(o, e, c, ins)
    case Gets(at, n, ws) =>
      var frames := Feed(Here(b, at).pending, WireTo(b, at)[..Least(n, |WireTo(b, at)|)]).0;
      && |ms| == 1 && ms[0].Arrives? && ms[0] == Arrives(at, n, ms[0].envs) && Answers(ms[0].envs, ws)
      && |ms[0].envs| == |frames| && d == FrameClocks(Here(b, at).endpoint, c, frames, ms[0].envs, ws)
  }

  /** The clocks of one side after the last of the operations there. */
  ghost function ClocksOf(ops: seq<PeerOp>, times: seq<Clocks>, at: Side): Clocks
    requires |times| == |ops|
  {
    if ops == [] then map[]
    else
      var n := |ops| - 1;
      if ops[n].at == at then times[n] else ClocksOf(ops[..n], times[..n], at)
  }

  /** Each operation of a run stands for its part of the moves and leaves the clocks it should. */
  ghost predicate Tells(ops: seq<PeerOp>, parts: seq<seq<ByteMove>>, times: seq<Clocks>) {
    && |parts| == |ops| == |times|
    && (ops != [] ==>
          var n := |ops| - 1;
          && Tells(ops[..n], parts[..n], times[..n])
          && MovesOf(ops[n], ByteAfter(Concat(parts[..n])), ClocksOf(ops[..n], times[..n], ops[n].at),
                     parts[n], times[n]))
  }

  ghost predicate SmallOps(ops: seq<PeerOp>) { forall i :: 0 <= i < |ops| ==> SmallOp(ops[i]) }

  /** The run so far: the operations before i, by their parts of the moves, with the clocks of
      both sides. */
  ghost predicate Told(ops: seq<PeerOp>, i: nat, parts: seq<seq<ByteMove>>, times: seq<Clocks>, l: Clocks, r: Clocks) {
    forall k {:trigger Unsealed(Telling, k)} :: Unsealed(Telling, k) ==>
      && i <= |ops| && Tells(ops[..i], parts, times) && (SmallOps(ops[..i]) ==> SmallMoves(Concat(parts)))
      && l == ClocksOf(ops[..i], times, Left) && r == ClocksOf(ops[..i], times, Right)
  }

  lemma ToldNothing(ops: seq<PeerOp>)
    ensures Told(ops, 0, [], [], map[], map[])
  {
    assert ops[..0] == [];
  }

  lemma ToldNext(ops: seq<PeerOp>, i: nat, parts: seq<seq<ByteMove>>, times: seq<Clocks>, l: Clocks, r: Clocks,
                 ms: seq<ByteMove>, d: Clocks)
    requires i < |ops| && Told(ops, i, parts, times, l, r)
    requires MovesOf(ops[i], ByteAfter(Concat(parts)), if ops[i].at == Left then l else r, ms, d)
    requires ops[i].Does? ==> !ops[i].op.Deliver?
    ensures Told(ops, i + 1, parts + [ms], times + [d],
                 if ops[i].at == Left then d else l, if ops[i].at == Left then r else d)
    ensures Concat(parts + [ms]) == Concat(parts) + ms
  {
    assert Unsealed(Telling, 0);
    TellsNext(ops, parts, times, i, ms, d);
    if SmallOps(ops[..i + 1]) {
      assert forall j :: 0 <= j < i ==> ops[..i][j] == ops[..i + 1][j];
      assert ops[..i + 1][i] == ops[i];
      SmallMovesMore(Concat(parts), ops[i], ByteAfter(Concat(parts)), if ops[i].at == Left then l else r, ms, d);
    }
  }

  lemma AllTold(ops: seq<PeerOp>, parts: seq<seq<ByteMove>>, times: seq<Clocks>, l: Clocks, r: Clocks)
    requires Told(ops, |ops|, parts, times, l, r)
    ensures Tells(ops, parts, times) && (SmallOps(ops) ==> SmallMoves(Concat(parts)))
    ensures l == ClocksOf(ops, times, Left) && r == ClocksOf(ops, times, Right)
  {
    assert Unsealed(Telling, 0);
    assert ops[..|ops|] == ops;
  }

  lemma TellsNext(ops: seq<PeerOp>, parts: seq<seq<ByteMove>>, times: seq<Clocks>, i: nat, ms: seq<ByteMove>, d: Clocks)
    requires i < |ops| && Tells(ops[..i], parts, times)
    requires MovesOf(ops[i], ByteAfter(Concat(parts)), ClocksOf(ops[..i], times, ops[i].at), ms, d)
    ensures Tells(ops[..i + 1], parts + [ms], times + [d]) && Concat(parts + [ms]) == Concat(parts) + ms
    ensures forall at :: ClocksOf(ops[..i + 1], times + [d], at) ==
                         if ops[i].at == at then d else ClocksOf(ops[..i], times, at)
  {
    assert ops[..i + 1][..i] == ops[..i] && (parts + [ms])[..i] == parts && (times + [d])[..i] == times;
    ConcatAppend(parts, [ms]);
    ConcatOne(ms);
  }

  ghost function ActMoves(at: Side, ins: seq<Input>): seq<ByteMove>
    requires AllCalled(ins)
  {
    seq(|ins|, i requires 0 <= i < |ins| => Acts(at, ins[i].call, ins[i].env))
  }

  /** Several calls in a row. */
  lemma {:induction false} ActsInARow(moves: seq<ByteMove>, at: Side, ins: seq<Input>)
    requires AllCalled(ins)
    ensures var b := ByteAfter(moves); var t := Here(b, at);
            ByteAfter(moves + ActMoves(at, ins))
            == Moved(b, at, t.(endpoint := RunFrom(t.endpoint, ins)), WireTo(b, at), BytesOf(Outputs(t.endpoint, ins)))
  {
    var b := ByteAfter(moves);
    var e := Here(b, at).endpoint;
    if ins == [] {
      assert moves + [] == moves;
      NothingMoved(b, at);
    } else {
      var n := |ins| - 1;
      var i, front := ins[n], ins[..n];
      ActsInARow(moves, at, front);
      ActMovesLast(moves, at, ins);
      ByteLast(moves + ActMoves(at, front), Acts(at, i.call, i.env));
      RunSnoc(e, front, i);
      OneMoreAct(b, at, RunFrom(e, front), Outputs(e, front), i.call, i.env);
    }
  }

  lemma ActMovesLast(moves: seq<ByteMove>, at: Side, ins: seq<Input>)
    requires AllCalled(ins) && ins != []
    ensures var n := |ins| - 1;
            && ins == ins[..n] + [ins[n]]
            && moves + ActMoves(at, ins) == (moves + ActMoves(at, ins[..n])) + [Acts(at, ins[n].call, ins[n].env)]
  {
  }

  lemma NothingMoved(b: ByteSystem, at: Side)
    ensures Moved(b, at, Here(b, at), WireTo(b, at), BytesOf([])) == b
  {
    assert BytesOf([]) == [] && b.toLeft + [] == b.toLeft && b.toRight + [] == b.toRight;
  }

  lemma OneMoreAct(b: ByteSystem, at: Side, e: Endpoint, out: seq<Packet>, c: Call, env: Env)
    requires Sound(b) && Multiplexer.Valid(e)
    ensures var t := Here(b, at); var m := Moved(b, at, t.(endpoint := e), WireTo(b, at), BytesOf(out));
            && Sound(m)
            && ByteAdvance(m, Acts(at, c, env))
               == Moved(b, at, t.(endpoint := OnCall(e, c, env).0), WireTo(b, at), BytesOf(out + OnCall(e, c, env).1))
  {
    var more := OnCall(e, c, env).1;
    BytesAppend(out, more);
    AppendAppend(if at == Left then b.toRight else b.toLeft, BytesOf(out), BytesOf(more));
  }

  /** The peers and their wires are this system. */
  ghost predicate Are(b: ByteSystem, left: Peer, right: Peer, toRight: seq<Byte>, toLeft: seq<Byte>)
    requires left.assembler.Valid() && right.assembler.Valid()
    reads left.handler, left.assembler, left.assembler.incomplete, left.assembler.incomplete.buffer
    reads right.handler, right.assembler, right.assembler.incomplete, right.assembler.incomplete.buffer
  {
    b == ByteSystem(left.View(), right.View(), toRight, toLeft)
  }

  /** One step of two peers, seen from the side where it happens. */
  method Step(mine: Peer, at: Side, op: PeerOp, wire: seq<Byte>, ghost moves: seq<ByteMove>)
    returns (wire': seq<Byte>, out: seq<Byte>, ghost ms: seq<ByteMove>)
    requires mine.Valid() && op.at == at && (op.Does? ==> !op.op.Deliver?)
    requires Here(ByteAfter(moves), at) == mine.View() && WireTo(ByteAfter(moves), at) == wire
    modifies mine.Repr()
    ensures mine.Valid() && fresh(mine.Repr() - old(mine.Repr()))
    ensures MovesOf(op, ByteAfter(moves), old(mine.handler.clocks), ms, mine.handler.clocks)
    ensures ByteAfter(moves + ms) == Moved(ByteAfter(moves), at, mine.View(), wire', out)
  {
    match op {
      case Does(_, handlerOp) =>
        ghost var ins;
        out, ins := mine.Act(handlerOp);
        wire' := wire;
        StandsForCalls(handlerOp, old(mine.handler.state), old(mine.handler.clocks), ins);
        ActsInARow(moves, at, ins);
        ms := ActMoves(at, ins);
      case Gets(_, n, ws) =>
        var k := Least(n, |wire|);
        ghost var envs;
        out, envs := mine.Arrive(wire[..k], ws);
        wire' := wire[k..];
        ByteLast(moves, Arrives(at, n, envs));
        ms := [Arrives(at, n, envs)];
    }
  }

  /** Two peers from their creation on, whatever is called and however the bytes are cut: a run
      of the system over bytes. If every cookie and every payload makes a packet that fits, and
      neither side made more channels than there are ids, the peers are faithful, with the
      packets whose bytes are in the buffers and on the wires. */
  method Converse(ops: seq<PeerOp>)
    returns (left: Peer, right: Peer, toRight: seq<Byte>, toLeft: seq<Byte>,
             ghost parts: seq<seq<ByteMove>>, ghost times: seq<Clocks>,
             ghost onRight: seq<Packet>, ghost onLeft: seq<Packet>)
    requires forall i :: 0 <= i < |ops| && ops[i].Does? ==> !ops[i].op.Deliver?
    ensures left.Valid() && right.Valid() && Tells(ops, parts, times)
    ensures Are(ByteAfter(Concat(parts)), left, right, toRight, toLeft)
    ensures left.handler.clocks == ClocksOf(ops, times, Left) && right.handler.clocks == ClocksOf(ops, times, Right)
    ensures SmallOps(ops) && WithinIdsAt(ByteAfter(Concat(parts))) ==>
              && Carries(onRight, right.View().pending, toRight) && Carries(onLeft, left.View().pending, toLeft)
              && Faithful(left.handler.state, right.handler.state, onRight)
              && Faithful(right.handler.state, left.handler.state, onLeft)
  {
    left, right := Meet();
    toRight, toLeft, parts, times := Talk(left, right, ops);
    onRight, onLeft := InFlight(Concat(parts));
  }

  method Meet() returns (left: Peer, right: Peer)
    ensures left.Valid() && right.Valid() && fresh(left.Repr()) && fresh(right.Repr()) && left.Repr() !! right.Repr()
    ensures Are(ByteAfter([]), left, right, [], []) && left.handler.clocks == map[] && right.handler.clocks == map[]
  {
    left := new Peer();
    right := new Peer();
  }

  lemma InFlight(moves: seq<ByteMove>) returns (onRight: seq<Packet>, onLeft: seq<Packet>)
    ensures var b := ByteAfter(moves);
            SmallMoves(moves) && WithinIdsAt(b) ==>
              && Carries(onRight, b.right.pending, b.toRight) && Carries(onLeft, b.left.pending, b.toLeft)
              && Faithful(b.left.endpoint, b.right.endpoint, onRight)
              && Faithful(b.right.endpoint, b.left.endpoint, onLeft)
  {
    onRight, onLeft := [], [];
    if SmallMoves(moves) && WithinIdsAt(ByteAfter(moves)) { onRight, onLeft := BytePeersAreFaithful(moves); }
  }

  method Talk(left: Peer, right: Peer, ops: seq<PeerOp>)
    returns (toRight: seq<Byte>, toLeft: seq<Byte>, ghost parts: seq<seq<ByteMove>>, ghost times: seq<Clocks>)
    requires left.Valid() && right.Valid() && left.Repr() !! right.Repr()
    requires left.handler.clocks == map[] && right.handler.clocks == map[]
    requires forall i :: 0 <= i < |ops| && ops[i].Does? ==> !ops[i].op.Deliver?
    requires Are(ByteAfter([]), left, right, [], [])
    modifies left.Repr(), right.Repr()
    ensures left.Valid() && right.Valid() && Tells(ops, parts, times)
    ensures Are(ByteAfter(Concat(parts)), left, right, toRight, toLeft)
    ensures left.handler.clocks == ClocksOf(ops, times, Left) && right.handler.clocks == ClocksOf(ops, times, Right)
    ensures SmallOps(ops) ==> SmallMoves(Concat(parts))
  {
    toRight, toLeft, parts, times := [], [], [], [];
    ToldNothing(ops);
    for i := 0 to |ops|
      invariant left.Valid() && right.Valid() && left.Repr() !! right.Repr()
      invariant fresh(left.Repr() - old(left.Repr())) && fresh(right.Repr() - old(right.Repr()))
      invariant Told(ops, i, parts, times, left.handler.clocks, right.handler.clocks)
      invariant Are(ByteAfter(Concat(parts)), left, right, toRight, toLeft)
    {
      toRight, toLeft, parts, times := TalkOne(left, right, ops, i, toRight, toLeft, parts, times);
    }
    AllTold(ops, parts, times, left.handler.clocks, right.handler.clocks);
  }

  method TalkOne(left: Peer, right: Peer, ops: seq<PeerOp>, i: nat, toRight: seq<Byte>, toLeft: seq<Byte>,
                 ghost parts: seq<seq<ByteMove>>, ghost times: seq<Clocks>)
    returns (toRight': seq<Byte>, toLeft': seq<Byte>, ghost parts': seq<seq<ByteMove>>, ghost times': seq<Clocks>)
    requires left.Valid() && right.Valid() && left.Repr() !! right.Repr()
    requires i < |ops| && (ops[i].Does? ==> !ops[i].op.Deliver?)
    requires Told(ops, i, parts, times, left.handler.clocks, right.handler.clocks)
    requires Are(ByteAfter(Concat(parts)), left, right, toRight, toLeft)
    modifies left.Repr(), right.Repr()
    ensures left.Valid() && right.Valid() && left.Repr() !! right.Repr()
    ensures fresh(left.Repr() - old(left.Repr())) && fresh(right.Repr() - old(right.Repr()))
    ensures Told(ops, i + 1, parts', times', left.handler.clocks, right.handler.clocks)
    ensures Are(ByteAfter(Concat(parts')), left, right, toRight', toLeft')
  {
    ghost var l, r, ms := left.handler.clocks, right.handler.clocks, [];
    toRight', toLeft', ms := Exchange(left, right, ops[i], toRight, toLeft, Concat(parts));
    ghost var d := if ops[i].at == Left then left.handler.clocks else right.handler.clocks;
    ToldNext(ops, i, parts, times, l, r, ms, d);
    parts', times' := parts + [ms], times + [d];
  }

  method Exchange(left: Peer, right: Peer, op: PeerOp, toRight: seq<Byte>, toLeft: seq<Byte>,
                  ghost moves: seq<ByteMove>)
    returns (toRight': seq<Byte>, toLeft': seq<Byte>, ghost ms: seq<ByteMove>)
    requires left.Valid() && right.Valid() && left.Repr() !! right.Repr() && (op.Does? ==> !op.op.Deliver?)
    requires Are(ByteAfter(moves), left, right, toRight, toLeft)
    modifies left.Repr(), right.Repr()
    ensures left.Valid() && right.Valid() && left.Repr() !! right.Repr()
    ensures fresh(left.Repr() - old(left.Repr())) && fresh(right.Repr() - old(right.Repr()))
    ensures var mine := if op.at == Left then left else right; var other := if op.at == Left then right else left;
            && MovesOf(op, ByteAfter(moves), old(mine.handler.clocks), ms, mine.handler.clocks)
            && other.handler.clocks == old(other.handler.clocks)
    ensures Are(ByteAfter(moves + ms), left, right, toRight', toLeft')
  {
    var out;
    if op.at == Left {
      toLeft', out, ms := StepBeside(left, right, Left, op, toLeft, moves);
      toRight' := toRight + out;
    } else {
      toRight', out, ms := StepBeside(right, left, Right, op, toRight, moves);
      toLeft' := toLeft + out;
    }
  }

  /** The step leaves the other peer alone. */
  method StepBeside(mine: Peer, ghost other: Peer, at: Side, op: PeerOp, wire: seq<Byte>, ghost moves: seq<ByteMove>)
    returns (wire': seq<Byte>, out: seq<Byte>, ghost ms: seq<ByteMove>)
    requires mine.Valid() && other.Valid() && mine.Repr() !! other.Repr() && op.at == at
    requires op.Does? ==> !op.op.Deliver?
    requires Here(ByteAfter(moves), at) == mine.View() && WireTo(ByteAfter(moves), at) == wire
    modifies mine.Repr()
    ensures mine.Valid() && fresh(mine.Repr() - old(mine.Repr())) && other.Valid() && other.View() == old(other.View())
    ensures other.handler.clocks == old(other.handler.clocks)
    ensures other.Repr() == old(other.Repr()) && mine.Repr() !! other.Repr()
    ensures MovesOf(op, ByteAfter(moves), old(mine.handler.clocks), ms, mine.handler.clocks)
    ensures ByteAfter(moves + ms) == Moved(ByteAfter(moves), at, mine.View(), wire', out)
  {
    wire', out, ms := StepApart(mine, other.Repr(), at, op, wire, moves);
  }

  /** It makes the peer grow by new objects only. */
  method StepApart(mine: Peer, ghost apart: set<object>, at: Side, op: PeerOp, wire: seq<Byte>,
                   ghost moves: seq<ByteMove>)
    returns (wire': seq<Byte>, out: seq<Byte>, ghost ms: seq<ByteMove>)
    requires mine.Valid() && mine.Repr() !! apart && op.at == at && (op.Does? ==> !op.op.Deliver?)
    requires Here(ByteAfter(moves), at) == mine.View() && WireTo(ByteAfter(moves), at) == wire
    modifies mine.Repr()
    ensures mine.Valid() && fresh(mine.Repr() - old(mine.Repr())) && mine.Repr() !! apart
    ensures MovesOf(op, ByteAfter(moves), old(mine.handler.clocks), ms, mine.handler.clocks)
    ensures ByteAfter(moves + ms) == Moved(ByteAfter(moves), at, mine.View(), wire', out)
  {
    wire', out, ms := Step(mine, at, op, wire, moves);
  }
}
