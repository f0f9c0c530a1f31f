/** Two handlers on reliable streams: the links carry bytes, which arrive in arbitrary chunks
    and go through the reassembly buffers. As long as every packet fits the buffer this is the
    system of two peers that exchange packets. */
module BytePeers {
  import opened Bytes
  import opened Reassembly
  import opened Wire
  import opened Multiplexer
  import opened TwoPeers

  // ----- packets as bytes -----

  function EncodeAll(ps: seq<Packet>): (fs: seq<seq<Byte>>)
    ensures |fs| == |ps| && forall i :: 0 <= i < |ps| ==> fs[i] == Encode(ps[i])
  {
    seq(|ps|, i requires 0 <= i < |ps| => Encode(ps[i]))
  }

  function BytesOf(ps: seq<Packet>): seq<Byte> { Concat(EncodeAll(ps)) }

  /** Packets that go over the wire and through the buffer unharmed. */
  ghost predicate Small(p: Packet) { Sendable(p) && |Encode(p)| <= ROOM }

  ghost predicate AllSmall(ps: seq<Packet>) { forall i :: 0 <= i < |ps| ==> Small(ps[i]) }

  lemma EncodeAllParts(ps: seq<Packet>, k: nat)
    requires k <= |ps|
    ensures EncodeAll(ps)[..k] == EncodeAll(ps[..k]) && EncodeAll(ps)[k..] == EncodeAll(ps[k..])
    ensures EncodeAll(ps) == EncodeAll(ps[..k]) + EncodeAll(ps[k..])
  {
  }

  lemma BytesAppend(a: seq<Packet>, b: seq<Packet>)
    ensures BytesOf(a + b) == BytesOf(a) + BytesOf(b)
  {
    assert EncodeAll(a + b) == EncodeAll(a) + EncodeAll(b);
    ConcatAppend(EncodeAll(a), EncodeAll(b));
  }

  lemma SmallFrames(ps: seq<Packet>)
    requires AllSmall(ps)
    ensures forall f :: f in EncodeAll(ps) ==> WellFormed(f) && |f| <= ROOM
  {
    forall f | f in EncodeAll(ps) ensures WellFormed(f) && |f| <= ROOM {
      var i :| 0 <= i < |ps| && EncodeAll(ps)[i] == f;
      ParseEncode(ps[i]);
    }
  }

  lemma {:induction false} Recompose(s: seq<Byte>)
    ensures s == Concat(Packets(s)) + Rest(s)
    decreases |s|
  {
    if Complete(s) {
      var n := PacketLen(s);
      Recompose(s[n..]);
      var ps := Packets(s[n..]);
      assert Packets(s) == [s[..n]] + ps && ([s[..n]] + ps)[1..] == ps;
      AppendAppend(s[..n], Concat(ps), Rest(s[n..]));
      assert s == s[..n] + s[n..];
    }
  }

  /** A chunk of what is on the way completes the first k packets and leaves the beginning of
      the next in the buffer. */
  lemma ChunkCuts(q: seq<Packet>, pending: seq<Byte>, chunk: seq<Byte>, wire: seq<Byte>) returns (k: nat)
    requires AllSmall(q) && BytesOf(q) == (pending + chunk) + wire && !Complete(pending)
    ensures k <= |q| && Feed(pending, chunk).0 == EncodeAll(q[..k])
    ensures !Complete(Feed(pending, chunk).1) && BytesOf(q[k..]) == Feed(pending, chunk).1 + wire
  {
    var s, frames := pending + chunk, EncodeAll(q);
    SmallFrames(q);
    assert Concat(frames) + [] == Concat(frames);
    ConcatFits(frames, [], ROOM);
    CutConcat(frames, []);
    FitsLater(s, wire, ROOM);
    FeedFits(pending, chunk);
    CutLater(s, wire);
    k := |Packets(s)|;
    assert Packets(s) == frames[..k];
    EncodeAllParts(q, k);
    Recompose(s);
    RestOf(Concat(frames[..k]), Rest(s), wire, BytesOf(q[k..]), frames, k);
  }

  lemma RestOf(a: seq<Byte>, rest: seq<Byte>, wire: seq<Byte>, more: seq<Byte>, frames: seq<seq<Byte>>, k: nat)
    requires k <= |frames| && a == Concat(frames[..k]) && more == Concat(frames[k..])
             && Concat(frames) == (a + rest) + wire
    ensures more == rest + wire
  {
    assert frames == frames[..k] + frames[k..];
    ConcatAppend(frames[..k], frames[k..]);
    AppendAppend(a, rest, wire);
    assert (a + more)[|a|..] == more && (a + (rest + wire))[|a|..] == rest + wire;
  }

  // ----- what is sent is small -----

  ghost predicate RemotesOk(e: Endpoint) { forall id :: id in e.table ==> e.table[id].remote < 0x1_0000 }

  /** The calls that decide the length of a packet. */
  ghost predicate SmallCall(c: Call) {
    && (c.OpenChannel? ==> |c.cookie| + PROTOCOL_HEAD_LEN <= ROOM)
    && (c.WriteChannel? ==> |c.payload| + PROTOCOL_HEAD_LEN <= ROOM)
  }

  lemma IdsAreSmall(e: Endpoint)
    requires Valid(e)
    ensures -1 <= NewId(e) <= MAX_CHANNEL_ID && forall id :: id in e.table ==> 1 <= id <= MAX_CHANNEL_ID
  {
    Look(e);
  }

  lemma BareIsSmall(p: Packet)
    requires p.local < 0x1_0000 && p.remote < 0x1_0000 && |p.payload| + PROTOCOL_HEAD_LEN <= ROOM
    ensures Small(p)
  {
  }

  lemma PacketAnswersSmall(e: Endpoint, p: Packet, env: Env)
    requires Valid(e) && p.remote < 0x1_0000
    ensures AllSmall(OnPacket(e, p, env).1)
  {
    IdsAreSmall(e);
    var out := OnPacket(e, p, env).1;
    if out != [] { BareIsSmall(out[0]); }
  }

  lemma PacketKeepsRemotes(e: Endpoint, p: Packet, env: Env)
    requires Valid(e) && RemotesOk(e) && p.remote < 0x1_0000
    ensures RemotesOk(OnPacket(e, p, env).0)
  {
  }

  lemma CallSendsSmall(e: Endpoint, c: Call, env: Env)
    requires Valid(e) && RemotesOk(e) && SmallCall(c)
    ensures AllSmall(OnCall(e, c, env).1)
  {
    IdsAreSmall(e);
    var out := OnCall(e, c, env).1;
    if out != [] { BareIsSmall(out[0]); }
  }

  lemma CallKeepsRemotes(e: Endpoint, c: Call, env: Env)
    requires Valid(e) && RemotesOk(e)
    ensures RemotesOk(OnCall(e, c, env).0)
  {
  }

  // ----- one side of the system -----

  ghost function Mine(s: System, at: Side): Endpoint { if at == Left then s.left else s.right }
  ghost function Incoming(s: System, at: Side): seq<Packet> { if at == Left then s.toLeft else s.toRight }
  ghost function Outgoing(s: System, at: Side): seq<Packet> { if at == Left then s.toRight else s.toLeft }

  /** The side is in a new state, has taken k packets and sent some. */
  ghost function Changed(s: System, at: Side, e: Endpoint, k: nat, out: seq<Packet>): System
    requires k <= |Incoming(s, at)|
  {
    if at == Left then System(e, s.right, s.toRight + out, s.toLeft[k..])
    else System(s.left, e, s.toRight[k..], s.toLeft + out)
  }

  lemma CallMoves(s: System, at: Side, c: Call, env: Env)
    requires Valid(s.left) && Valid(s.right)
    ensures Advance(s, Calls(at, c, env))
            == Changed(s, at, OnCall(Mine(s, at), c, env).0, 0, OnCall(Mine(s, at), c, env).1)
  {
    assert s.toLeft[0..] == s.toLeft && s.toRight[0..] == s.toRight;
  }

  lemma ReceiptMoves(s: System, at: Side, env: Env)
    requires Valid(s.left) && Valid(s.right) && Incoming(s, at) != []
    ensures var r := OnPacket(Mine(s, at), Incoming(s, at)[0], env);
            Advance(s, Receives(at, env)) == Changed(s, at, r.0, 1, r.1)
  {
  }

  lemma MovesSnoc(s: System, moves: seq<Move>, m: Move)
    requires Valid(s.left) && Valid(s.right)
    ensures AfterFrom(s, moves + [m]) == Advance(AfterFrom(s, moves), m)
  {
    assert (moves + [m])[..|moves|] == moves;
  }

  lemma MovesFrom(s: System, m: Move)
    requires Valid(s.left) && Valid(s.right)
    ensures AfterFrom(s, [m]) == Advance(s, m)
  {
    MovesSnoc(s, [], m);
    assert [] + [m] == [m];
  }

  lemma {:induction false} MovesAppend(s: System, a: seq<Move>, b: seq<Move>)
    requires Valid(s.left) && Valid(s.right)
    ensures AfterFrom(s, a + b) == AfterFrom(AfterFrom(s, a), b)
  {
    if b == [] {
      assert a + b == a;
    } else {
      var n := |b| - 1;
      MovesAppend(s, a, b[..n]);
      AppendLast(a, b);
      MovesSnoc(s, a + b[..n], b[n]);
      MovesSnoc(AfterFrom(s, a), b[..n], b[n]);
    }
  }

  lemma ChangedTwice(s: System, at: Side, e: Endpoint, k: nat, out: seq<Packet>, f: Endpoint, more: seq<Packet>)
    requires k < |Incoming(s, at)|
    ensures var t := Changed(s, at, e, k, out);
            && Mine(t, at) == e && Incoming(t, at) == Incoming(s, at)[k..]
            && Changed(t, at, f, 1, more) == Changed(s, at, f, k + 1, out + more)
  {
    var t, q := Changed(s, at, e, k, out), Incoming(s, at);
    assert q[k..][1..] == q[k + 1..];
    AppendAppend(Outgoing(s, at), out, more);
  }

  // ----- taking several packets -----

  const Quiet := Env(false, false, false, false, false, false)

  function EnvAt(envs: seq<Env>, i: nat): Env { if i < |envs| then envs[i] else Quiet }

  ghost function TakeAll(e: Endpoint, ps: seq<Packet>, envs: seq<Env>): (r: (Endpoint, seq<Packet>))
    requires Valid(e)
    ensures Valid(r.0)
  {
    if ps == [] then (e, []) else
      var n := |ps| - 1;
      var before := TakeAll(e, ps[..n], envs);
      var last := OnPacket(before.0, ps[n], EnvAt(envs, n));
      (last.0, before.1 + last.1)
  }

  lemma TakeAllNext(e: Endpoint, q: seq<Packet>, envs: seq<Env>, k: nat)
    requires Valid(e) && k < |q|
    ensures var before := TakeAll(e, q[..k], envs); var last := OnPacket(before.0, q[k], EnvAt(envs, k));
            TakeAll(e, q[..k + 1], envs) == (last.0, before.1 + last.1)
  {
    assert q[..k + 1][..k] == q[..k];
  }

  ghost function TakeMoves(at: Side, envs: seq<Env>, k: nat): seq<Move> {
    if k == 0 then [] else TakeMoves(at, envs, k - 1) + [Receives(at, EnvAt(envs, k - 1))]
  }

  lemma {:induction false} TakeAllMoves(s: System, at: Side, envs: seq<Env>, k: nat)
    requires Valid(s.left) && Valid(s.right) && k <= |Incoming(s, at)|
    ensures var r := TakeAll(Mine(s, at), Incoming(s, at)[..k], envs);
            AfterFrom(s, TakeMoves(at, envs, k)) == Changed(s, at, r.0, k, r.1)
  {
    if k == 0 {
      Unchanged(s, at);
    } else {
      var q := Incoming(s, at);
      var r := TakeAll(Mine(s, at), q[..k - 1], envs);
      TakeAllMoves(s, at, envs, k - 1);
      var t := Changed(s, at, r.0, k - 1, r.1);
      MovesSnoc(s, TakeMoves(at, envs, k - 1), Receives(at, EnvAt(envs, k - 1)));
      TakeOneMore(s, t, at, envs, k - 1, r.0, r.1);
    }
  }

  lemma Unchanged(s: System, at: Side)
    ensures Changed(s, at, Mine(s, at), 0, []) == s
  {
    assert s.toLeft[0..] == s.toLeft && s.toRight[0..] == s.toRight && s.toLeft + [] == s.toLeft
           && s.toRight + [] == s.toRight;
  }

  lemma TakeOneMore(s: System, t: System, at: Side, envs: seq<Env>, k: nat, e: Endpoint, out: seq<Packet>)
    requires Valid(s.left) && Valid(s.right) && Valid(e) && k < |Incoming(s, at)| && t == Changed(s, at, e, k, out)
    requires TakeAll(Mine(s, at), Incoming(s, at)[..k], envs) == (e, out)
    ensures Valid(t.left) && Valid(t.right)
    ensures var r := TakeAll(Mine(s, at), Incoming(s, at)[..k + 1], envs);
            Advance(t, Receives(at, EnvAt(envs, k))) == Changed(s, at, r.0, k + 1, r.1)
  {
    var q := Incoming(s, at);
    TakeAllNext(Mine(s, at), q, envs, k);
    var last := OnPacket(e, q[k], EnvAt(envs, k));
    ChangedTwice(s, at, e, k, out, last.0, last.1);
    ReceiptMoves(t, at, EnvAt(envs, k));
  }

  lemma {:induction false} TakeAllSmall(e: Endpoint, ps: seq<Packet>, envs: seq<Env>)
    requires Valid(e) && RemotesOk(e) && AllSmall(ps)
    ensures RemotesOk(TakeAll(e, ps, envs).0) && AllSmall(TakeAll(e, ps, envs).1)
  {
    if ps != [] {
      var n := |ps| - 1;
      TakeAllSmall(e, ps[..n], envs);
      var f := TakeAll(e, ps[..n], envs).0;
      PacketAnswersSmall(f, ps[n], EnvAt(envs, n));
      PacketKeepsRemotes(f, ps[n], EnvAt(envs, n));
    }
  }

  // ----- the system over bytes -----

  /** An endpoint with its reassembly buffer. */
  datatype Station = Station(endpoint: Endpoint, pending: seq<Byte>)

  datatype ByteSystem = ByteSystem(left: Station, right: Station, toRight: seq<Byte>, toLeft: seq<Byte>)

  /** A call on one side, or the next n bytes arrive there at once. */
  datatype ByteMove = Acts(at: Side, call: Call, env: Env) | Arrives(at: Side, n: nat, envs: seq<Env>)

  ghost predicate Sound(b: ByteSystem) { Valid(b.left.endpoint) && Valid(b.right.endpoint) }

  ghost function Here(b: ByteSystem, at: Side): Station { if at == Left then b.left else b.right }
  ghost function WireTo(b: ByteSystem, at: Side): seq<Byte> { if at == Left then b.toLeft else b.toRight }

  /** The station has changed, its incoming wire too, and it has sent bytes. */
  ghost function Moved(b: ByteSystem, at: Side, t: Station, wire: seq<Byte>, out: seq<Byte>): ByteSystem {
    if at == Left then ByteSystem(t, b.right, b.toRight + out, wire) else ByteSystem(b.left, t, wire, b.toLeft + out)
  }

  /** Handing frames to the endpoint; what is no packet is dropped. */
  ghost function TakeFrames(e: Endpoint, frames: seq<seq<Byte>>, envs: seq<Env>): (r: (Endpoint, seq<Packet>))
    requires Valid(e)
    ensures Valid(r.0)
  {
    if frames == [] then (e, []) else
      var n := |frames| - 1;
      var before := TakeFrames(e, frames[..n], envs);
      if Parse(frames[n]).Some? then
        var last := OnPacket(before.0, Parse(frames[n]).value, EnvAt(envs, n));
        (last.0, before.1 + last.1)
      else before
  }

  function Least(a: nat, b: nat): nat { if a < b then a else b }

  ghost function ByteAdvance(b: ByteSystem, m: ByteMove): (c: ByteSystem)
    requires Sound(b)
    ensures Sound(c)
  {
    var t, wire := Here(b, m.at), WireTo(b, m.at);
    match m
    case Acts(at, call, env) =>
      var r := OnCall(t.endpoint, call, env);
      Moved(b, at, t.(endpoint := r.0), wire, BytesOf(r.1))
    case Arrives(at, n, envs) =>
      var k := Least(n, |wire|);
      var fed := Feed(t.pending, wire[..k]);
      var r := TakeFrames(t.endpoint, fed.0, envs);
      Moved(b, at, Station(r.0, fed.1), wire[k..], BytesOf(r.1))
  }

  const IdleBytes := ByteSystem(Station(Fresh, []), Station(Fresh, []), [], [])

  ghost function ByteAfter(moves: seq<ByteMove>): (b: ByteSystem)
    ensures Sound(b)
  {
    FreshValid();
    if moves == [] then IdleBytes else ByteAdvance(ByteAfter(moves[..|moves| - 1]), moves[|moves| - 1])
  }

  /** The calls of a run make only packets that fit. */
  ghost predicate SmallMoves(moves: seq<ByteMove>) {
    forall i :: 0 <= i < |moves| && moves[i].Acts? ==> SmallCall(moves[i].call)
  }

  /** The bytes in the buffer and on the wire are those of the packets. */
  ghost predicate Carries(q: seq<Packet>, pending: seq<Byte>, wire: seq<Byte>) {
    AllSmall(q) && !Complete(pending) && BytesOf(q) == pending + wire
  }

  ghost predicate Simulates(b: ByteSystem, s: System) {
    && b.left.endpoint == s.left && b.right.endpoint == s.right && RemotesOk(s.left) && RemotesOk(s.right)
    && Carries(s.toRight, b.right.pending, b.toRight) && Carries(s.toLeft, b.left.pending, b.toLeft)
  }

  lemma CarriesMore(q: seq<Packet>, pending: seq<Byte>, wire: seq<Byte>, out: seq<Packet>)
    requires Carries(q, pending, wire) && AllSmall(out)
    ensures Carries(q + out, pending, wire + BytesOf(out))
  {
    BytesAppend(q, out);
    AppendAppend(pending, wire, BytesOf(out));
  }

  lemma ActSimulates(b: ByteSystem, s: System, at: Side, c: Call, env: Env)
    requires Sound(b) && Simulates(b, s) && SmallCall(c)
    ensures Valid(s.left) && Valid(s.right)
    ensures Simulates(ByteAdvance(b, Acts(at, c, env)), Advance(s, Calls(at, c, env)))
  {
    var e := Mine(s, at);
    var r := OnCall(e, c, env);
    CallSendsSmall(e, c, env);
    CallKeepsRemotes(e, c, env);
    CallMoves(s, at, c, env);
    StationMoved(b, s, at, r.0, Here(b, at).pending, 0, WireTo(b, at), r.1);
  }

  /** A side that took k packets and sent some, over bytes and over packets. */
  lemma StationMoved(b: ByteSystem, s: System, at: Side, e: Endpoint, pending: seq<Byte>, k: nat, wire: seq<Byte>,
                     out: seq<Packet>)
    requires Simulates(b, s) && RemotesOk(e) && AllSmall(out) && k <= |Incoming(s, at)|
    requires Carries(Incoming(s, at)[k..], pending, wire)
    ensures Simulates(Moved(b, at, Station(e, pending), wire, BytesOf(out)), Changed(s, at, e, k, out))
  {
    if at == Left {
      CarriesMore(s.toRight, b.right.pending, b.toRight, out);
    } else {
      CarriesMore(s.toLeft, b.left.pending, b.toLeft, out);
    }
  }

  lemma {:induction false} FramesArePackets(e: Endpoint, ps: seq<Packet>, envs: seq<Env>)
    requires Valid(e) && AllSmall(ps)
    ensures TakeFrames(e, EncodeAll(ps), envs) == TakeAll(e, ps, envs)
  {
    if ps != [] {
      var n := |ps| - 1;
      assert EncodeAll(ps)[..n] == EncodeAll(ps[..n]);
      FramesArePackets(e, ps[..n], envs);
      ParseEncode(ps[n]);
    }
  }

  lemma ArrivalSimulates(b: ByteSystem, s: System, at: Side, n: nat, envs: seq<Env>) returns (k: nat)
    requires Sound(b) && Simulates(b, s)
    ensures Valid(s.left) && Valid(s.right)
    ensures Simulates(ByteAdvance(b, Arrives(at, n, envs)), AfterFrom(s, TakeMoves(at, envs, k)))
  {
    var q, wire, pending := Incoming(s, at), WireTo(b, at), Here(b, at).pending;
    var m := Least(n, |wire|);
    assert wire == wire[..m] + wire[m..];
    AppendAppend(pending, wire[..m], wire[m..]);
    k := ChunkCuts(q, pending, wire[..m], wire[m..]);
    var e := Mine(s, at);
    FramesArePackets(e, q[..k], envs);
    TakeAllSmall(e, q[..k], envs);
    TakeAllMoves(s, at, envs, k);
    var r := TakeAll(e, q[..k], envs);
    StationMoved(b, s, at, r.0, Feed(pending, wire[..m]).1, k, wire[m..], r.1);
  }

  /** Every run over bytes, however they are cut, is a run over packets, as long as the calls
      make only packets that fit the buffer. */
  lemma {:induction false} BytesSimulate(moves: seq<ByteMove>) returns (packets: seq<Move>)
    requires SmallMoves(moves)
    ensures Simulates(ByteAfter(moves), After(packets))
  {
    if moves == [] {
      packets := [];
      assert BytesOf([]) == [];
    } else {
      var n := |moves| - 1;
      var before := BytesSimulate(moves[..n]);
      var more := AdvanceSimulates(ByteAfter(moves[..n]), After(before), moves[n]);
      FreshValid();
      MovesAppend(Idle, before, more);
      packets := before + more;
    }
  }

  lemma AdvanceSimulates(b: ByteSystem, s: System, m: ByteMove) returns (more: seq<Move>)
    requires Sound(b) && Simulates(b, s) && (m.Acts? ==> SmallCall(m.call))
    ensures Valid(s.left) && Valid(s.right) && Simulates(ByteAdvance(b, m), AfterFrom(s, more))
  {
    match m
    case Acts(at, c, env) =>
      ActSimulates(b, s, at, c, env);
      more := [Calls(at, c, env)];
      MovesFrom(s, Calls(at, c, env));
    case Arrives(at, n, envs) =>
      var k := ArrivalSimulates(b, s, at, n, envs);
      more := TakeMoves(at, envs, k);
  }

  ghost predicate WithinIdsAt(b: ByteSystem) {
    b.left.endpoint.made <= MAX_CHANNEL_ID && b.right.endpoint.made <= MAX_CHANNEL_ID
  }

  /** So peers over byte streams are faithful: as `PeersAreFaithful` says, with the packets whose
      bytes are in the buffer and on the wire. */
  lemma BytePeersAreFaithful(moves: seq<ByteMove>) returns (toRight: seq<Packet>, toLeft: seq<Packet>)
    requires SmallMoves(moves) && WithinIdsAt(ByteAfter(moves))
    ensures var b := ByteAfter(moves);
            && Carries(toRight, b.right.pending, b.toRight) && Carries(toLeft, b.left.pending, b.toLeft)
            && Faithful(b.left.endpoint, b.right.endpoint, toRight)
            && Faithful(b.right.endpoint, b.left.endpoint, toLeft)
  {
    var packets := BytesSimulate(moves);
    PeersAreFaithful(packets);
    toRight, toLeft := After(packets).toRight, After(packets).toLeft;
  }

  // ----- packets that do not fit -----

  /** A frame that does not fit is dropped, also when it arrives in one piece. */
  lemma LongFramesAreLost(e: Endpoint, f: seq<Byte>, envs: seq<Env>)
    requires Valid(e) && WellFormed(f) && |f| > ROOM
    ensures Feed([], f) == ([Clip(f)], []) && TakeFrames(e, [Clip(f)], envs) == (e, [])
  {
    OversizedEnd(f, [], f, []);
    assert [] + f == f && f + [] == f && [Clip(f)] + [] == [Clip(f)];
    assert [Clip(f)][..0] == [];
  }

  function Other(at: Side): Side { if at == Left then Right else Left }

  /** One receiver with the long frame f behind what is on its way, and one without it: until
      f begins to arrive, while it arrives, and after it. */
  ghost predicate Before(t: Station, u: Station, wt: seq<Byte>, wu: seq<Byte>, f: seq<Byte>) {
    t == u && wt == wu + f && exists q :: Carries(q, u.pending, wu)
  }

  ghost predicate Amid(t: Station, u: Station, wt: seq<Byte>, wu: seq<Byte>, f: seq<Byte>) {
    && t.endpoint == u.endpoint && u.pending == [] && wu == [] && 0 < |wt| <= |f|
    && wt == f[|f| - |wt|..] && t.pending == Clip(f[..|f| - |wt|])
  }

  ghost predicate Behind(t: Station, u: Station, wt: seq<Byte>, wu: seq<Byte>) {
    t.endpoint == u.endpoint && u.pending == [] && wu == [] && wt == []
  }

  ghost predicate Alike(t: Station, u: Station, wt: seq<Byte>, wu: seq<Byte>, f: seq<Byte>) {
    Before(t, u, wt, wu, f) || Amid(t, u, wt, wu, f) || Behind(t, u, wt, wu)
  }

  /** A chunk arrives: the station, the rest of the wire, and the packets sent. */
  ghost function Arrival(t: Station, wire: seq<Byte>, n: nat, envs: seq<Env>): (Station, seq<Byte>, seq<Packet>)
    requires Valid(t.endpoint)
  {
    var k := Least(n, |wire|);
    var fed := Feed(t.pending, wire[..k]);
    var r := TakeFrames(t.endpoint, fed.0, envs);
    (Station(r.0, fed.1), wire[k..], r.1)
  }

  lemma ArrivalAlike(t: Station, u: Station, wt: seq<Byte>, wu: seq<Byte>, f: seq<Byte>, n: nat, envs: seq<Env>)
    requires Valid(t.endpoint) && Valid(u.endpoint) && WellFormed(f) && |f| > ROOM && Alike(t, u, wt, wu, f)
    ensures var x, y := Arrival(t, wt, n, envs), Arrival(u, wu, n, envs);
            Alike(x.0, y.0, x.1, y.1, f) && x.2 == y.2
  {
    if Before(t, u, wt, wu, f) {
      var q :| Carries(q, u.pending, wu);
      if n <= |wu| {
        BeforeStays(t, u, wt, wu, f, n, envs, q);
      } else {
        BeforeEnds(t, u, wt, wu, f, n, envs, q);
      }
    } else if Amid(t, u, wt, wu, f) {
      AmidOn(t, u, wt, wu, f, n, envs);
    }
  }

  lemma BeforeStays(t: Station, u: Station, wt: seq<Byte>, wu: seq<Byte>, f: seq<Byte>, n: nat, envs: seq<Env>,
                    q: seq<Packet>)
    requires Valid(t.endpoint) && t == u && wt == wu + f && Carries(q, u.pending, wu) && n <= |wu|
    ensures var x, y := Arrival(t, wt, n, envs), Arrival(u, wu, n, envs);
            Before(x.0, y.0, x.1, y.1, f) && x.2 == y.2
  {
    assert wt[..n] == wu[..n] && wt[n..] == wu[n..] + f && wu == wu[..n] + wu[n..];
    AppendAppend(u.pending, wu[..n], wu[n..]);
    var k := ChunkCuts(q, u.pending, wu[..n], wu[n..]);
    assert Carries(q[k..], Feed(u.pending, wu[..n]).1, wu[n..]);
  }

  lemma BeforeEnds(t: Station, u: Station, wt: seq<Byte>, wu: seq<Byte>, f: seq<Byte>, n: nat, envs: seq<Env>,
                   q: seq<Packet>)
    requires Valid(t.endpoint) && WellFormed(f) && |f| > ROOM
    requires t == u && wt == wu + f && Carries(q, u.pending, wu) && n > |wu|
    ensures var x, y := Arrival(t, wt, n, envs), Arrival(u, wu, n, envs);
            Alike(x.0, y.0, x.1, y.1, f) && x.2 == y.2
  {
    AllArrive(q, u.pending, wu);
    assert wu[..|wu|] == wu && wu[|wu|..] == [];
    if n < |wt| {
      FrontArrives(t, u, wt, wu, f, n, envs, q);
    } else {
      WholeArrives(t, u, wt, wu, f, n, envs, q);
    }
  }

  lemma FrontArrives(t: Station, u: Station, wt: seq<Byte>, wu: seq<Byte>, f: seq<Byte>, n: nat, envs: seq<Env>,
                     q: seq<Packet>)
    requires Valid(t.endpoint) && WellFormed(f) && |f| > ROOM
    requires t == u && wt == wu + f && Carries(q, u.pending, wu) && |wu| < n < |wt|
    ensures var x, r := Arrival(t, wt, n, envs), TakeFrames(u.endpoint, EncodeAll(q), envs);
            Amid(x.0, Station(r.0, []), x.1, [], f) && x.2 == r.1
  {
    var j := n - |wu|;
    TailArrives(q, u.pending, wu, f, j);
    FrontOf(f, j);
    CutIn(wu, f, wt, n);
    NoneMore(EncodeAll(q));
    ArrivalOf(t, wt, n, envs, EncodeAll(q), Clip(f[..j]));
  }

  lemma CutIn(wu: seq<Byte>, f: seq<Byte>, wt: seq<Byte>, n: nat)
    requires wt == wu + f && |wu| <= n < |wt|
    ensures wt[..n] == wu + f[..n - |wu|] && wt[n..] == f[n - |wu|..] == f[|f| - |wt[n..]|..]
  {
  }

  lemma NoneMore<T>(s: seq<T>)
    ensures s + [] == s
  {
  }

  lemma ArrivalOf(t: Station, wire: seq<Byte>, n: nat, envs: seq<Env>, frames: seq<seq<Byte>>, pending: seq<Byte>)
    requires Valid(t.endpoint) && n < |wire| && Feed(t.pending, wire[..n]) == (frames, pending)
    ensures var r := TakeFrames(t.endpoint, frames, envs);
            Arrival(t, wire, n, envs) == (Station(r.0, pending), wire[n..], r.1)
  {
  }

  lemma WholeArrives(t: Station, u: Station, wt: seq<Byte>, wu: seq<Byte>, f: seq<Byte>, n: nat, envs: seq<Env>,
                     q: seq<Packet>)
    requires Valid(t.endpoint) && WellFormed(f) && |f| > ROOM
    requires t == u && wt == wu + f && Carries(q, u.pending, wu) && n >= |wt|
    ensures var x, r := Arrival(t, wt, n, envs), TakeFrames(u.endpoint, EncodeAll(q), envs);
            Behind(x.0, Station(r.0, []), x.1, []) && x.2 == r.1
  {
    TailArrives(q, u.pending, wu, f, |f|);
    LongFramesAreLost(u.endpoint, f, envs);
    ClippedLast(u.endpoint, EncodeAll(q), f, envs);
    assert f[..|f|] == f && wt[..|wt|] == wt && wt[|wt|..] == [];
  }

  /** What is on its way to a buffer arrives with nothing behind it. */
  lemma AllArrive(q: seq<Packet>, pending: seq<Byte>, wire: seq<Byte>)
    requires Carries(q, pending, wire)
    ensures Feed(pending, wire) == (EncodeAll(q), [])
  {
    TailArrives(q, pending, wire, [], 0);
    assert wire + [] == wire && EncodeAll(q) + [] == EncodeAll(q);
  }

  lemma TailArrives(q: seq<Packet>, pending: seq<Byte>, wire: seq<Byte>, f: seq<Byte>, j: nat)
    requires Carries(q, pending, wire) && j <= |f|
    ensures Feed(pending, wire + f[..j]) == (EncodeAll(q) + Feed([], f[..j]).0, Feed([], f[..j]).1)
  {
    SmallFrames(q);
    AppendAppend(pending, wire, f[..j]);
    PendingFits(q, pending, wire);
    FeedThrough(pending, wire + f[..j], EncodeAll(q), f[..j]);
  }

  lemma PendingFits(q: seq<Packet>, pending: seq<Byte>, wire: seq<Byte>)
    requires Carries(q, pending, wire)
    ensures |pending| <= ROOM
  {
    if q != [] {
      SmallFrames(q);
      var f := EncodeAll(q)[0];
      assert f in EncodeAll(q);
      LongerIsComplete(pending, wire, f, Concat(EncodeAll(q)[1..]));
    }
  }

  /** The beginning of a long frame. */
  lemma FrontOf(f: seq<Byte>, j: nat)
    requires WellFormed(f) && |f| > ROOM && j < |f|
    ensures Feed([], f[..j]) == ([], Clip(f[..j])) && |f[j..]| == |f| - j
  {
    assert [] + (f[..j] + f[j..]) == f && [] + f[..j] == f[..j];
    OversizedChunk(f, [], f[..j], f[j..]);
  }

  lemma ClippedLast(e: Endpoint, frames: seq<seq<Byte>>, f: seq<Byte>, envs: seq<Env>)
    requires Valid(e) && WellFormed(f) && |f| > ROOM
    ensures TakeFrames(e, frames + [Clip(f)], envs) == TakeFrames(e, frames, envs)
  {
    OversizedEnd(f, [], f, []);
    assert [] + f == f;
    assert (frames + [Clip(f)])[..|frames|] == frames;
  }

  lemma AmidOn(t: Station, u: Station, wt: seq<Byte>, wu: seq<Byte>, f: seq<Byte>, n: nat, envs: seq<Env>)
    requires Valid(t.endpoint) && Valid(u.endpoint) && WellFormed(f) && |f| > ROOM && Amid(t, u, wt, wu, f)
    ensures var x, y := Arrival(t, wt, n, envs), Arrival(u, wu, n, envs);
            Alike(x.0, y.0, x.1, y.1, f) && x.2 == y.2
  {
    var at, k := |f| - |wt|, Least(n, |wt|);
    var a, c := f[..at], wt[..k];
    assert a + c == f[..at + k] && f == a + (c + wt[k..]);
    if k < |wt| {
      OversizedChunk(f, a, c, wt[k..]);
      ArrivalOf(t, wt, n, envs, [], Clip(a + c));
      assert Amid(Arrival(t, wt, n, envs).0, u, wt[k..], [], f);
    } else {
      assert wt[..k] == wt && wt + [] == wt && f == a + wt;
      OversizedEnd(f, a, wt, []);
      ClippedLast(t.endpoint, [], f, envs);
      assert [] + [Clip(f)] == [Clip(f)] && [Clip(f)] + [] == [Clip(f)];
    }
  }

  // ----- a request that is lost -----

  lemma ByteLast(moves: seq<ByteMove>, m: ByteMove)
    ensures ByteAfter(moves + [m]) == ByteAdvance(ByteAfter(moves), m)
  {
    assert (moves + [m])[..|moves|] == moves;
  }

  lemma OpenSends(b: ByteSystem, at: Side, ctype: nat, cookie: Payload, env: Env)
    requires Sound(b) && ctype <= 2 && NewId(Here(b, at).endpoint) != -1 && env.sent
    ensures var id := NewId(Here(b, at).endpoint); var c := ByteAdvance(b, Acts(at, OpenChannel(ctype, cookie), env));
            && Here(c, Other(at)) == Here(b, Other(at)) && id in Here(c, at).endpoint.table
            && WireTo(c, Other(at)) == WireTo(b, Other(at)) + Encode(Packet(OPEN, ctype, 0, id, cookie))
  {
    var p := Packet(OPEN, ctype, 0, NewId(Here(b, at).endpoint), cookie);
    ConcatOne(Encode(p));
    assert EncodeAll([p]) == [Encode(p)];
  }

  /** Nothing bounds the cookie of an open call. At any point of any run, one that makes the
      packet too long for the buffer is sent and the channel enters the table; however the bytes
      then arrive, the other side ends up as if nothing had been sent. */
  lemma {:induction false} LongCookiesAreLost(moves: seq<ByteMove>, at: Side, ctype: nat, cookie: Payload, env: Env,
                                              arrivals: seq<ByteMove>)
    requires SmallMoves(moves) && ctype <= 2 && env.sent && NewId(Here(ByteAfter(moves), at).endpoint) != -1
    requires 2176 < |cookie| + 8 && |cookie| < 0x1_0000
    requires forall i :: 0 <= i < |arrivals| ==> arrivals[i].Arrives? && arrivals[i].at == Other(at)
    ensures var sent := ByteAfter(moves + [Acts(at, OpenChannel(ctype, cookie), env)] + arrivals);
            && NewId(Here(ByteAfter(moves), at).endpoint) in Here(sent, at).endpoint.table
            && Here(sent, Other(at)).endpoint == Here(ByteAfter(moves + arrivals), Other(at)).endpoint
    decreases |arrivals|
  {
    var f := Encode(Packet(OPEN, ctype, 0, NewId(Here(ByteAfter(moves), at).endpoint), cookie));
    LostSoFar(moves, at, ctype, cookie, env, arrivals, f);
  }

  lemma {:induction false} LostSoFar(moves: seq<ByteMove>, at: Side, ctype: nat, cookie: Payload, env: Env,
                                     arrivals: seq<ByteMove>, f: seq<Byte>)
    requires SmallMoves(moves) && ctype <= 2 && env.sent && NewId(Here(ByteAfter(moves), at).endpoint) != -1
    requires ROOM < |cookie| + PROTOCOL_HEAD_LEN && |cookie| < 0x1_0000
    requires f == Encode(Packet(OPEN, ctype, 0, NewId(Here(ByteAfter(moves), at).endpoint), cookie))
    requires forall i :: 0 <= i < |arrivals| ==> arrivals[i].Arrives? && arrivals[i].at == Other(at)
    ensures var b := ByteAfter(moves + [Acts(at, OpenChannel(ctype, cookie), env)] + arrivals);
            var c := ByteAfter(moves + arrivals);
            && NewId(Here(ByteAfter(moves), at).endpoint) in Here(b, at).endpoint.table
            && Alike(Here(b, Other(at)), Here(c, Other(at)), WireTo(b, Other(at)), WireTo(c, Other(at)), f)
    decreases |arrivals|
  {
    var m := Acts(at, OpenChannel(ctype, cookie), env);
    if arrivals == [] {
      assert moves + [m] + [] == moves + [m] && moves + [] == moves;
      LostAtFirst(moves, at, ctype, cookie, env, f);
    } else {
      var n := |arrivals| - 1;
      LostSoFar(moves, at, ctype, cookie, env, arrivals[..n], f);
      AppendLast(moves + [m], arrivals);
      AppendLast(moves, arrivals);
      RequestIsLong(ByteAfter(moves), at, ctype, cookie, f);
      LostNext(moves + [m] + arrivals[..n], moves + arrivals[..n], at, arrivals[n], f);
    }
  }

  lemma LostAtFirst(moves: seq<ByteMove>, at: Side, ctype: nat, cookie: Payload, env: Env, f: seq<Byte>)
    requires SmallMoves(moves) && ctype <= 2 && env.sent && NewId(Here(ByteAfter(moves), at).endpoint) != -1
    requires f == Encode(Packet(OPEN, ctype, 0, NewId(Here(ByteAfter(moves), at).endpoint), cookie))
    ensures var b, c := ByteAfter(moves + [Acts(at, OpenChannel(ctype, cookie), env)]), ByteAfter(moves);
            && NewId(Here(ByteAfter(moves), at).endpoint) in Here(b, at).endpoint.table
            && Alike(Here(b, Other(at)), Here(c, Other(at)), WireTo(b, Other(at)), WireTo(c, Other(at)), f)
  {
    ByteLast(moves, Acts(at, OpenChannel(ctype, cookie), env));
    OpenSends(ByteAfter(moves), at, ctype, cookie, env);
    var packets := BytesSimulate(moves);
    var q := if at == Left then After(packets).toRight else After(packets).toLeft;
    assert Carries(q, Here(ByteAfter(moves), Other(at)).pending, WireTo(ByteAfter(moves), Other(at)));
  }

  lemma LostNext(before: seq<ByteMove>, without: seq<ByteMove>, at: Side, m: ByteMove, f: seq<Byte>)
    requires WellFormed(f) && |f| > ROOM && m.Arrives? && m.at == Other(at)
    requires Alike(Here(ByteAfter(before), Other(at)), Here(ByteAfter(without), Other(at)),
                   WireTo(ByteAfter(before), Other(at)), WireTo(ByteAfter(without), Other(at)), f)
    ensures var b, c := ByteAfter(before + [m]), ByteAfter(without + [m]);
            && Here(b, at).endpoint == Here(ByteAfter(before), at).endpoint
            && Alike(Here(b, Other(at)), Here(c, Other(at)), WireTo(b, Other(at)), WireTo(c, Other(at)), f)
  {
    var b, c := ByteAfter(before), ByteAfter(without);
    ByteLast(before, m);
    ByteLast(without, m);
    ArrivalAlike(Here(b, Other(at)), Here(c, Other(at)), WireTo(b, Other(at)), WireTo(c, Other(at)), f, m.n, m.envs);
  }

  lemma RequestIsLong(b: ByteSystem, at: Side, ctype: nat, cookie: Payload, f: seq<Byte>)
    requires Sound(b) && ctype <= 2 && NewId(Here(b, at).endpoint) != -1
    requires ROOM < |cookie| + PROTOCOL_HEAD_LEN && |cookie| < 0x1_0000
    requires f == Encode(Packet(OPEN, ctype, 0, NewId(Here(b, at).endpoint), cookie))
    ensures WellFormed(f) && |f| > ROOM
  {
    IdsAreSmall(Here(b, at).endpoint);
    ParseEncode(Packet(OPEN, ctype, 0, NewId(Here(b, at).endpoint), cookie));
  }
}
