/** When a channel loses its other end without being told: which ends leave quietly, and that
    an open channel is told of every other end that is gone. */
module PeerEnds {
  import opened Bytes
  import opened Wire
  import opened Multiplexer
  import opened TwoPeers

  /** A close packet for channel a is on the way. */
  ghost predicate HasClose(q: seq<Packet>, a: nat) {
    exists k :: 0 <= k < |q| && q[k].ptype == CLOSE && q[k].local == a
  }

  /** A close packet from channel b is among these. */
  ghost predicate ClosedBy(out: seq<Packet>, b: nat) {
    exists k :: 0 <= k < |out| && out[k].ptype == CLOSE && out[k].remote == b
  }

  /** The channels that a step from y to z ends, or makes and ends, without sending a close
      packet for them. */
  ghost function Quieted(y: Endpoint, z: Endpoint, out: seq<Packet>): set<nat> {
    set n | n in z.origin && n !in z.table && (n in y.table || n !in y.origin) && !ClosedBy(out, n)
  }

  /** What x is told of the channels of y over the link r, when `quiet` are those that y ended
      quietly: close packets come from ends that are gone and not quiet, and every such end
      has its close packet on the way as long as the channel of x is there. */
  ghost predicate Informed(x: Endpoint, y: Endpoint, r: seq<Packet>, quiet: set<nat>) {
    && (forall b :: b in quiet ==> b in y.origin && b !in y.table)
    && (forall k :: 0 <= k < |r| && r[k].ptype == CLOSE ==>
          && r[k].remote in y.origin && r[k].remote !in y.table && r[k].remote !in quiet
          && Linked(y.origin, x.origin, r[k].remote, r[k].local))
    && (forall a, b :: a in x.table && b in y.origin && Linked(x.origin, y.origin, a, b) && b !in y.table && b !in quiet
          ==> HasClose(r, a))
    && (forall k :: 0 <= k < |r| && r[k].ptype == OPEN ==> r[k].remote in y.table || r[k].remote in quiet)
  }

  /** What a step of an endpoint may do: make one channel, end channels, and send close packets
      from channels that it ends and open packets for the channel that it makes. */
  ghost predicate Shaped(x: Endpoint, y: Endpoint, z: Endpoint, out: seq<Packet>) {
    && (z.origin == y.origin || (y.made + 1 !in y.origin && z.origin.Keys == y.origin.Keys + {y.made + 1}))
    && (forall n :: n in y.origin ==> n in z.origin && z.origin[n] == y.origin[n])
    && (forall n :: n in z.table ==> n in z.origin && (n in y.table || n !in y.origin))
    && (forall k :: 0 <= k < |out| && out[k].ptype == CLOSE ==>
          && out[k].remote in y.table && out[k].remote in y.origin && out[k].remote !in z.table
          && Linked(y.origin, x.origin, out[k].remote, out[k].local))
    && (forall k :: 0 <= k < |out| && out[k].ptype == OPEN ==> out[k].remote in z.table)
  }

  lemma HasCloseAppend(r: seq<Packet>, out: seq<Packet>, a: nat)
    ensures HasClose(r, a) || HasClose(out, a) ==> HasClose(r + out, a)
  {
    if HasClose(r, a) {
      var k :| 0 <= k < |r| && r[k].ptype == CLOSE && r[k].local == a;
      assert (r + out)[k] == r[k];
    } else if HasClose(out, a) {
      var k :| 0 <= k < |out| && out[k].ptype == CLOSE && out[k].local == a;
      assert (r + out)[|r| + k] == out[k];
    }
  }

  /** A step of y keeps x informed. */
  lemma StepInforms(x: Endpoint, y: Endpoint, z: Endpoint, r: seq<Packet>, out: seq<Packet>, quiet: set<nat>)
    requires Informed(x, y, r, quiet) && Shaped(x, y, z, out) && Opens(y.origin, x.origin, r)
    requires Pairing(x.origin, y.origin) && Pairing(y.origin, x.origin)
    ensures Informed(x, z, r + out, quiet + Quieted(y, z, out))
  {
    var more := quiet + Quieted(y, z, out);
    forall a, b | a in x.table && b in z.origin && Linked(x.origin, z.origin, a, b) && b !in z.table && b !in more
      ensures HasClose(r + out, a)
    {
      HasCloseAppend(r, out, a);
      if b !in y.table {
        assert b in y.origin && Linked(x.origin, y.origin, a, b);
      } else {
        LastWord(x, y, z, out, a, b);
      }
    }
    StillClosed(x, y, z, r, out, quiet);
  }

  /** An end that leaves and is not quiet sends its close packet to the right channel. */
  lemma LastWord(x: Endpoint, y: Endpoint, z: Endpoint, out: seq<Packet>, a: nat, b: nat)
    requires Shaped(x, y, z, out) && Pairing(x.origin, y.origin) && Pairing(y.origin, x.origin)
    requires b in y.table && b in z.origin && b !in z.table && b !in Quieted(y, z, out)
    requires Linked(x.origin, z.origin, a, b)
    ensures HasClose(out, a)
  {
    assert ClosedBy(out, b);
    var k :| 0 <= k < |out| && out[k].ptype == CLOSE && out[k].remote == b;
    LinkedUnique(y.origin, x.origin);
    assert b in y.origin && Linked(x.origin, y.origin, a, b);
    LinkedSymmetric(x.origin, y.origin, a, b);
  }

  lemma StillClosed(x: Endpoint, y: Endpoint, z: Endpoint, r: seq<Packet>, out: seq<Packet>, quiet: set<nat>)
    requires Informed(x, y, r, quiet) && Shaped(x, y, z, out) && Opens(y.origin, x.origin, r)
    ensures var more, s := quiet + Quieted(y, z, out), r + out;
            && (forall k :: 0 <= k < |s| && s[k].ptype == CLOSE ==>
                  && s[k].remote in z.origin && s[k].remote !in z.table && s[k].remote !in more
                  && Linked(z.origin, x.origin, s[k].remote, s[k].local))
            && (forall k :: 0 <= k < |s| && s[k].ptype == OPEN ==> s[k].remote in z.table || s[k].remote in more)
  {
    var more, s := quiet + Quieted(y, z, out), r + out;
    forall k | 0 <= k < |s| && s[k].ptype == CLOSE
      ensures s[k].remote in z.origin && s[k].remote !in z.table && s[k].remote !in more
      ensures Linked(z.origin, x.origin, s[k].remote, s[k].local)
    {
      if k < |r| {
        assert s[k] == r[k];
      } else {
        assert s[k] == out[k - |r|];
        assert ClosedBy(out, s[k].remote);
      }
    }
    forall k | 0 <= k < |s| && s[k].ptype == OPEN ensures s[k].remote in z.table || s[k].remote in more {
      if k < |r| { StillOpen(x, y, z, r, out, quiet, k); } else { assert s[k] == out[k - |r|]; }
    }
  }

  /** A channel whose open packet is on the way has no other end yet, so it can only leave quietly. */
  lemma StillOpen(x: Endpoint, y: Endpoint, z: Endpoint, r: seq<Packet>, out: seq<Packet>, quiet: set<nat>, k: nat)
    requires Informed(x, y, r, quiet) && Shaped(x, y, z, out) && k < |r| && r[k].ptype == OPEN
    requires Opens(y.origin, x.origin, r)
    ensures r[k].remote in z.table || r[k].remote in quiet + Quieted(y, z, out)
  {
    var n := r[k].remote;
    assert y.origin[n] == Active;
    assert forall b :: b in x.origin ==> x.origin[b] != Passive(n);
    assert forall l :: !Linked(y.origin, x.origin, n, l);
    assert !ClosedBy(out, n);
  }

  /** What a step of y may do to what x sent: a channel that a packet closes is gone, and the
      channel that it makes is for the open packet it takes. */
  ghost predicate Taken(y: Endpoint, z: Endpoint, q: seq<Packet>, rest: seq<Packet>) {
    && (rest == q || (q != [] && rest == q[1..]))
    && (rest != q && q[0].ptype == CLOSE ==> q[0].local !in z.table)
    && (forall n :: n in z.table && n !in y.table ==>
          && n !in y.origin && n in z.origin
          && (z.origin[n] == Active || (rest != q && q[0].ptype == OPEN && z.origin[n] == Passive(q[0].remote))))
  }

  /** A step of y keeps y informed of x. */
  lemma StepStaysInformed(x: Endpoint, y: Endpoint, z: Endpoint, q: seq<Packet>, rest: seq<Packet>, out: seq<Packet>,
                          quiet: set<nat>)
    requires Informed(y, x, q, quiet) && Shaped(x, y, z, out) && Taken(y, z, q, rest)
    requires Ends(y.origin, x.origin, y.table)
    requires Pairing(x.origin, y.origin) && Pairing(y.origin, x.origin)
    ensures Informed(z, x, rest, quiet)
  {
    forall b, a | b in z.table && a in x.origin && Linked(z.origin, x.origin, b, a) && a !in x.table && a !in quiet
      ensures HasClose(rest, b)
    {
      if b in y.table {
        assert Linked(y.origin, x.origin, b, a) && HasClose(q, b);
        CloseStays(q, rest, z, b);
      } else {
        NewEnd(x, y, z, q, rest, quiet, b, a);
      }
    }
    forall k | 0 <= k < |rest|
      ensures rest[k].ptype == CLOSE ==>
                && rest[k].remote in x.origin && rest[k].remote !in x.table && rest[k].remote !in quiet
                && Linked(x.origin, z.origin, rest[k].remote, rest[k].local)
      ensures rest[k].ptype == OPEN ==> rest[k].remote in x.table || rest[k].remote in quiet
    {
      assert rest[k] == q[if rest == q then k else k + 1];
    }
  }

  lemma CloseStays(q: seq<Packet>, rest: seq<Packet>, z: Endpoint, b: nat)
    requires HasClose(q, b) && b in z.table && (rest == q || (q != [] && rest == q[1..]))
    requires rest != q && q[0].ptype == CLOSE ==> q[0].local !in z.table
    ensures HasClose(rest, b)
  {
    var k :| 0 <= k < |q| && q[k].ptype == CLOSE && q[k].local == b;
    if rest != q { assert rest[k - 1] == q[k]; }
  }

  /** The other end of a new channel is there, or left quietly. */
  lemma NewEnd(x: Endpoint, y: Endpoint, z: Endpoint, q: seq<Packet>, rest: seq<Packet>, quiet: set<nat>,
               b: nat, a: nat)
    requires Informed(y, x, q, quiet) && Taken(y, z, q, rest) && Pairing(y.origin, x.origin)
    requires b in z.table && b !in y.table && a in x.origin && Linked(z.origin, x.origin, b, a)
    ensures a in x.table || a in quiet
  {
  }

  // ----- the steps of an endpoint -----

  lemma NoneMadeShaped(x: Endpoint, y: Endpoint, z: Endpoint, out: seq<Packet>, q: seq<Packet>, rest: seq<Packet>)
    requires Ends(y.origin, x.origin, y.table) && NoneMade(y, z)
    requires forall k :: 0 <= k < |out| ==> out[k].ptype != OPEN && out[k].ptype != CLOSE
    requires rest == q || (q != [] && rest == q[1..] && (q[0].ptype == CLOSE ==> q[0].local !in z.table))
    ensures Shaped(x, y, z, out) && Taken(y, z, q, rest)
  {
  }

  lemma MadeShaped(x: Endpoint, y: Endpoint, z: Endpoint, o: Origin, out: seq<Packet>, q: seq<Packet>,
                   rest: seq<Packet>)
    requires Ends(y.origin, x.origin, y.table) && y.made + 1 !in y.origin && z.origin == y.origin[y.made + 1 := o]
    requires z.table.Keys <= y.table.Keys + {y.made + 1}
    requires forall k :: 0 <= k < |out| ==>
               out[k].ptype != CLOSE && (out[k].ptype == OPEN ==> out[k].remote in z.table)
    requires (rest == q && o == Active) ||
             (q != [] && rest == q[1..] && rest != q && q[0].ptype == OPEN && o == Passive(q[0].remote))
    ensures Shaped(x, y, z, out) && Taken(y, z, q, rest)
  {
  }

  /** A channel is closed, with or without a close packet. */
  lemma CloseShaped(x: Endpoint, y: Endpoint, id: nat, env: Env, q: seq<Packet>)
    requires Numbered(y) && Ends(y.origin, x.origin, y.table) && id in y.table
    ensures var s := OnCall(y, CloseChannel(id), env); Shaped(x, y, s.0, s.1) && Taken(y, s.0, q, q)
  {
    var s := OnCall(y, CloseChannel(id), env);
    ClosedMakesNone(y, id, Normal, env.freed);
    assert s.0.table == y.table - {id};
    NoneMadeShaped(x, y, s.0, [], q, q);
  }

  lemma OpenShaped(x: Endpoint, y: Endpoint, c: Call, env: Env, q: seq<Packet>)
    requires Numbered(y) && Ends(y.origin, x.origin, y.table) && c.OpenChannel? && c.ctype <= 2
    requires NewId(y) == y.made + 1
    ensures var s := OnCall(y, c, env); Shaped(x, y, s.0, s.1) && Taken(y, s.0, q, q)
  {
    var s := OnCall(y, c, env);
    assert s.0.origin == y.origin[y.made + 1 := Active];
    MadeShaped(x, y, s.0, Active, s.1, q, q);
  }

  lemma CallShaped(x: Endpoint, y: Endpoint, c: Call, env: Env, q: seq<Packet>)
    requires Numbered(y) && Ends(y.origin, x.origin, y.table) && OnCall(y, c, env).0.made <= MAX_CHANNEL_ID
    ensures var s := OnCall(y, c, env); Shaped(x, y, s.0, s.1) && Taken(y, s.0, q, q)
  {
    if c.OpenChannel? && c.ctype <= 2 && NewId(y) != -1 {
      IdIsNumber(y);
      OpenShaped(x, y, c, env, q);
    } else if c.CloseChannel? && c.id in y.table {
      CloseShaped(x, y, c.id, env, q);
    } else {
      CallMakesNone(y, c, env);
      NoneMadeShaped(x, y, OnCall(y, c, env).0, OnCall(y, c, env).1, q, q);
    }
  }

  lemma CallMakesNone(y: Endpoint, c: Call, env: Env)
    requires Valid(y) && (c.OpenChannel? ==> c.ctype > 2 || NewId(y) == -1) && (c.CloseChannel? ==> c.id !in y.table)
    ensures NoneMade(y, OnCall(y, c, env).0)
    ensures forall p :: p in OnCall(y, c, env).1 ==> p.ptype != OPEN && p.ptype != CLOSE
  {
    if c.ExpireChannel? && c.id in y.table { ClosedMakesNone(y, c.id, Timeout, env.freed); }
    if c.CloseAll? && c.id in y.table { ClosedMakesNone(y, c.id, c.reason, env.freed); }
  }

  lemma AnswerShaped(x: Endpoint, y: Endpoint, q: seq<Packet>, env: Env)
    requires Numbered(y) && Ends(y.origin, x.origin, y.table) && q != [] && q[0].ptype == OPEN
    requires TypeAllowed(q[0].option, env) && NewId(y) == y.made + 1
    ensures var s := OnOpen(y, q[0], env); Shaped(x, y, s.0, s.1) && Taken(y, s.0, q, q[1..])
  {
    var s := OnOpen(y, q[0], env);
    assert |q[1..]| != |q|;
    assert s.0.origin == y.origin[y.made + 1 := Passive(q[0].remote)];
    MadeShaped(x, y, s.0, Passive(q[0].remote), s.1, q, q[1..]);
  }

  lemma PacketShaped(x: Endpoint, y: Endpoint, q: seq<Packet>, env: Env)
    requires Numbered(y) && Ends(y.origin, x.origin, y.table) && q != []
    requires OnPacket(y, q[0], env).0.made <= MAX_CHANNEL_ID
    ensures var s := OnPacket(y, q[0], env); Shaped(x, y, s.0, s.1) && Taken(y, s.0, q, q[1..])
  {
    var p, s := q[0], OnPacket(y, q[0], env);
    if p.ptype == OPEN && TypeAllowed(p.option, env) && NewId(y) != -1 {
      IdIsNumber(y);
      AnswerShaped(x, y, q, env);
    } else {
      PacketMakesNone(y, p, env);
      NoneMadeShaped(x, y, s.0, s.1, q, q[1..]);
    }
  }

  lemma PacketMakesNone(y: Endpoint, p: Packet, env: Env)
    requires Valid(y) && (p.ptype == OPEN ==> !TypeAllowed(p.option, env) || NewId(y) == -1)
    ensures NoneMade(y, OnPacket(y, p, env).0) && (p.ptype == CLOSE ==> p.local !in OnPacket(y, p, env).0.table)
    ensures forall a :: a in OnPacket(y, p, env).1 ==> a.ptype == CONFIRM
  {
    if p.ptype != OPEN && p.local in y.table {
      ChannelPacketMakesNone(y, p, env);
      if p.ptype == CLOSE { assert OnChannel(y, p, env).table == y.table - {p.local}; }
    }
  }

  // ----- runs -----

  /** The channels of the two sides that ended quietly. */
  datatype Silence = Silence(left: set<nat>, right: set<nat>)

  ghost function Silenced(s: System, m: Move, w: Silence): Silence
    requires Multiplexer.Valid(s.left) && Multiplexer.Valid(s.right)
  {
    match m
    case Calls(Left, c, env) =>
      w.(left := w.left + Quieted(s.left, OnCall(s.left, c, env).0, OnCall(s.left, c, env).1))
    case Calls(Right, c, env) =>
      w.(right := w.right + Quieted(s.right, OnCall(s.right, c, env).0, OnCall(s.right, c, env).1))
    case Receives(Left, env) =>
      if s.toLeft == [] then w else
      var r := OnPacket(s.left, s.toLeft[0], env);
      w.(left := w.left + Quieted(s.left, r.0, r.1))
    case Receives(Right, env) =>
      if s.toRight == [] then w else
      var r := OnPacket(s.right, s.toRight[0], env);
      w.(right := w.right + Quieted(s.right, r.0, r.1))
  }

  ghost function SilenceAfter(moves: seq<Move>): Silence {
    if moves == [] then Silence({}, {})
    else Silenced(After(moves[..|moves| - 1]), moves[|moves| - 1], SilenceAfter(moves[..|moves| - 1]))
  }

  ghost predicate BothInformed(s: System, w: Silence) {
    Informed(s.right, s.left, s.toRight, w.left) && Informed(s.left, s.right, s.toLeft, w.right)
  }

  /** A step of y, for both directions. */
  lemma StepKeepsBoth(x: Endpoint, y: Endpoint, z: Endpoint, q: seq<Packet>, rest: seq<Packet>, r: seq<Packet>,
                      out: seq<Packet>, quiet: set<nat>, others: set<nat>)
    requires Halves(x, y, q, r) && Shaped(x, y, z, out) && Taken(y, z, q, rest)
    requires Informed(x, y, r, quiet) && Informed(y, x, q, others)
    ensures Informed(x, z, r + out, quiet + Quieted(y, z, out)) && Informed(z, x, rest, others)
  {
    LookBoth(x, y, q, r);
    StepInforms(x, y, z, r, out, quiet);
    StepStaysInformed(x, y, z, q, rest, out, others);
  }

  lemma MoveKeepsBoth(s: System, m: Move, w: Silence)
    requires Inv(s) && WithinIds(Advance(s, m)) && BothInformed(s, w)
    ensures BothInformed(Advance(s, m), Silenced(s, m, w))
  {
    HalvesSymmetric(s.left, s.right, s.toRight, s.toLeft);
    LookBoth(s.left, s.right, s.toRight, s.toLeft);
    match m {
      case Calls(Left, c, env) =>
        var r := OnCall(s.left, c, env);
        CallShaped(s.right, s.left, c, env, s.toLeft);
        StepKeepsBoth(s.right, s.left, r.0, s.toLeft, s.toLeft, s.toRight, r.1, w.left, w.right);
      case Calls(Right, c, env) =>
        var r := OnCall(s.right, c, env);
        CallShaped(s.left, s.right, c, env, s.toRight);
        StepKeepsBoth(s.left, s.right, r.0, s.toRight, s.toRight, s.toLeft, r.1, w.right, w.left);
      case Receives(Left, env) =>
        if s.toLeft != [] {
          var r := OnPacket(s.left, s.toLeft[0], env);
          PacketShaped(s.right, s.left, s.toLeft, env);
          StepKeepsBoth(s.right, s.left, r.0, s.toLeft, s.toLeft[1..], s.toRight, r.1, w.left, w.right);
        }
      case Receives(Right, env) =>
        if s.toRight != [] {
          var r := OnPacket(s.right, s.toRight[0], env);
          PacketShaped(s.left, s.right, s.toRight, env);
          StepKeepsBoth(s.left, s.right, r.0, s.toRight, s.toRight[1..], s.toLeft, r.1, w.right, w.left);
        }
    }
  }

  lemma {:induction false} RunInforms(moves: seq<Move>)
    requires WithinIds(After(moves))
    ensures BothInformed(After(moves), SilenceAfter(moves))
  {
    if moves != [] {
      var n := |moves| - 1;
      MadeGrows(After(moves[..n]), moves[n]);
      RunInforms(moves[..n]);
      RunKeepsInv(moves[..n]);
      MoveKeepsBoth(After(moves[..n]), moves[n], SilenceAfter(moves[..n]));
    }
  }

  /** Exactly one of three for every channel of x that is open: its other end is there, a close
      packet for it is on the way, or the other end left quietly. */
  ghost predicate EndsAccounted(x: Endpoint, y: Endpoint, r: seq<Packet>, quiet: set<nat>) {
    forall a :: a in x.table && x.table[a].status != Opening ==>
      var b := x.table[a].remote;
      && b in y.origin
      && (b in y.table ==> !HasClose(r, a) && b !in quiet)
      && (HasClose(r, a) ==> b !in quiet)
      && (b in y.table || HasClose(r, a) || b in quiet)
  }

  lemma InformedAccounts(x: Endpoint, y: Endpoint, q: seq<Packet>, r: seq<Packet>, quiet: set<nat>)
    requires Halves(x, y, q, r) && Informed(x, y, r, quiet)
    ensures EndsAccounted(x, y, r, quiet)
  {
    LookBoth(x, y, q, r);
    forall a | a in x.table && x.table[a].status != Opening
      ensures var b := x.table[a].remote; b in y.origin && (HasClose(r, a) ==> b !in y.table && b !in quiet)
    {
      var b := x.table[a].remote;
      assert Linked(x.origin, y.origin, a, b);
      if HasClose(r, a) { CloserIsOther(x, y, r, quiet, a, b); }
    }
  }

  lemma CloserIsOther(x: Endpoint, y: Endpoint, r: seq<Packet>, quiet: set<nat>, a: nat, b: nat)
    requires Informed(x, y, r, quiet) && HasClose(r, a) && Linked(x.origin, y.origin, a, b)
    requires Pairing(x.origin, y.origin) && Pairing(y.origin, x.origin)
    ensures b !in y.table && b !in quiet
  {
    LinkedUnique(x.origin, y.origin);
    var k :| 0 <= k < |r| && r[k].ptype == CLOSE && r[k].local == a;
    LinkedSymmetric(x.origin, y.origin, a, r[k].remote);
  }

  /** In every run of two peers within the ids: a channel that is open has lost its other end,
      with nothing on the way that would tell, if and only if that end left quietly. */
  lemma LostEndsExactly(moves: seq<Move>)
    requires WithinIds(After(moves))
    ensures var s, w := After(moves), SilenceAfter(moves);
            EndsAccounted(s.left, s.right, s.toLeft, w.right) && EndsAccounted(s.right, s.left, s.toRight, w.left)
  {
    var s, w := After(moves), SilenceAfter(moves);
    RunInforms(moves);
    RunKeepsInv(moves);
    HalvesSymmetric(s.left, s.right, s.toRight, s.toLeft);
    InformedAccounts(s.left, s.right, s.toRight, s.toLeft, w.right);
    InformedAccounts(s.right, s.left, s.toLeft, s.toRight, w.left);
  }

  /** Which calls end a channel quietly: closing one that was not confirmed yet or whose close
      packet the lower layer does not take, and every expiry and shutdown. */
  lemma QuietCalls(e: Endpoint, c: Call, env: Env, id: nat)
    requires Numbered(e) && id in e.table
    ensures var s := OnCall(e, c, env);
            id in Quieted(e, s.0, s.1) <==>
            || (c == CloseChannel(id) && (e.table[id].remote == 0 || !env.sent))
            || c == ExpireChannel(id) || (c.CloseAll? && c.id == id)
  {
    var s := OnCall(e, c, env);
    StaysInTable(e, c, env, id);
    if c.CloseChannel? && c.id == id && e.table[id].remote != 0 && env.sent {
      assert s.1[0].remote == id;
      assert ClosedBy(s.1, id);
    }
  }

  ghost predicate Closes(c: Call, id: nat) {
    c == CloseChannel(id) || c == ExpireChannel(id) || (c.CloseAll? && c.id == id)
  }

  lemma StaysInTable(e: Endpoint, c: Call, env: Env, id: nat)
    requires Numbered(e) && id in e.table
    ensures id in OnCall(e, c, env).0.table <==> !Closes(c, id)
    ensures id in OnCall(e, c, env).0.origin
  {
    if c.OpenChannel? { OpenKeepsOthers(e, c, env, id); }
  }

  lemma OpenKeepsOthers(e: Endpoint, c: Call, env: Env, id: nat)
    requires Numbered(e) && id in e.table && c.OpenChannel?
    ensures id in OnCall(e, c, env).0.table && id in OnCall(e, c, env).0.origin
  {
    if NewId(e) != -1 { NewIsFresh(e); }
  }

  /** Which packets do: the refusal of a channel, data that the callback refuses, and the close
      packet of an end that is gone itself. */
  lemma QuietPackets(e: Endpoint, p: Packet, env: Env, id: nat)
    requires Numbered(e) && id in e.table
    ensures var s := OnPacket(e, p, env);
            id in Quieted(e, s.0, s.1) <==>
            p.local == id && (|| (p.ptype == CONFIRM && e.table[id].status == Opening && p.remote == 0)
                              || (p.ptype == DATA && e.table[id].status != Opening && !env.keep)
                              || p.ptype == CLOSE)
  {
    var s := OnPacket(e, p, env);
    if p.ptype == OPEN {
      AnswerKeepsOthers(e, p, env, id);
    } else if p.local in e.table {
      ChannelPacketMakesNone(e, p, env);
      assert !ClosedBy(s.1, id);
    }
  }

  lemma AnswerKeepsOthers(e: Endpoint, p: Packet, env: Env, id: nat)
    requires Numbered(e) && id in e.table && p.ptype == OPEN
    ensures id in OnPacket(e, p, env).0.table
  {
    if NewId(e) != -1 { NewIsFresh(e); }
  }

  const Go := Env(true, true, true, true, false, false)

  /** Such an end in its shortest run: the left side opens a channel and closes it before the
      confirmation arrives. No close packet is sent, and the right side keeps an open channel. */
  lemma EarlyCloseLosesEnd()
    ensures var moves := [Calls(Left, Call.OpenChannel(0, []), Go), Calls(Left, CloseChannel(1), Go),
                          Receives(Right, Go), Receives(Left, Go)];
            var s := After(moves);
            && s.left.table == map[] && s.toLeft == [] && s.toRight == []
            && 1 in s.right.table && s.right.table[1].status == Open && s.right.table[1].remote == 1
            && 1 in SilenceAfter(moves).left
  {
    var m1, m2 := Calls(Left, Call.OpenChannel(0, []), Go), Calls(Left, CloseChannel(1), Go);
    var m3, m4 := Receives(Right, Go), Receives(Left, Go);
    FirstOpened();
    FirstClosed();
    FirstAnswered();
    var e, f := OnCall(Fresh, Call.OpenChannel(0, []), Go).0, OnPacket(Fresh, Packet(OPEN, 0, 0, 1, []), Go).0;
    var g := OnCall(e, CloseChannel(1), Go).0;
    var ask, answer := Packet(OPEN, 0, 0, 1, []), Packet(CONFIRM, 0, 1, 1, []);
    RunSteps(m1, m2, m3, m4);
    assert [] + [ask] == [ask] && [ask] + [] == [ask] && [ask][1..] == [] && [] + [answer] == [answer];
    assert After([m1]) == System(e, Fresh, [ask], []);
    assert After([m1, m2]) == System(g, Fresh, [ask], []);
    assert After([m1, m2, m3]) == System(g, f, [], [answer]);
    var none: seq<Packet> := [];
    assert [answer][1..] == [] && none + [] == [];
    assert After([m1, m2, m3, m4]) == System(g, f, [], []);
  }

  lemma FirstOpened()
    ensures Valid(Fresh) && var r := OnCall(Fresh, Call.OpenChannel(0, []), Go);
            && r.0.table == map[1 := Channel(0, 0, Opening, 1)] && 1 in r.0.origin
            && r.1 == [Packet(OPEN, 0, 0, 1, [])]
  {
    FreshValid();
    IdIsNumber(Fresh);
  }

  lemma FirstClosed()
    requires Valid(Fresh)
    ensures var e := OnCall(Fresh, Call.OpenChannel(0, []), Go).0; var r := OnCall(e, CloseChannel(1), Go);
            1 in e.table && r.0.table == map[] && r.1 == [] && 1 in Quieted(e, r.0, r.1)
            && OnPacket(r.0, Packet(CONFIRM, 0, 1, 1, []), Go) == (r.0, [])
  {
    FirstOpened();
    var e := OnCall(Fresh, Call.OpenChannel(0, []), Go).0;
    var r := OnCall(e, CloseChannel(1), Go);
    assert r.0.table == e.table - {1} == map[];
    assert !ClosedBy(r.1, 1);
  }

  lemma FirstAnswered()
    requires Valid(Fresh)
    ensures var r := OnPacket(Fresh, Packet(OPEN, 0, 0, 1, []), Go);
            r.0.table == map[1 := Channel(1, 0, Open, 1)] && r.1 == [Packet(CONFIRM, 0, 1, 1, [])]
  {
    IdIsNumber(Fresh);
  }

  lemma RunSnoc(moves: seq<Move>, m: Move)
    ensures After(moves + [m]) == Advance(After(moves), m)
    ensures SilenceAfter(moves + [m]) == Silenced(After(moves), m, SilenceAfter(moves))
  {
    assert (moves + [m])[..|moves|] == moves;
  }

  lemma RunSteps(m1: Move, m2: Move, m3: Move, m4: Move)
    ensures After([]) == Idle && After([m1]) == Advance(Idle, m1) && After([m1, m2]) == Advance(After([m1]), m2)
    ensures After([m1, m2, m3]) == Advance(After([m1, m2]), m3)
    ensures After([m1, m2, m3, m4]) == Advance(After([m1, m2, m3]), m4)
    ensures SilenceAfter([m1, m2]) == Silenced(After([m1]), m2, SilenceAfter([m1]))
    ensures SilenceAfter([m1, m2, m3]) == Silenced(After([m1, m2]), m3, SilenceAfter([m1, m2]))
    ensures SilenceAfter([m1, m2, m3, m4]) == Silenced(After([m1, m2, m3]), m4, SilenceAfter([m1, m2, m3]))
  {
    assert [] + [m1] == [m1] && [m1] + [m2] == [m1, m2] && [m1, m2] + [m3] == [m1, m2, m3];
    assert [m1, m2, m3] + [m4] == [m1, m2, m3, m4];
    RunSnoc([], m1);
    RunSnoc([m1], m2);
    RunSnoc([m1, m2], m3);
    RunSnoc([m1, m2, m3], m4);
  }
}
