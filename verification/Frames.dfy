/** What the multiplexer puts on the wire, byte by byte, and what it takes to be answered. */
module Frames {
  import opened Bytes
  import opened Wire
  import opened Multiplexer
  import opened TwoPeers
  import opened BytePeers
  import IdAllocator

  /** One packet is sent, with these bytes. */
  ghost predicate OneFrame(out: seq<Packet>, ptype: Byte, option: Byte, local: nat, remote: nat, payload: Payload) {
    |out| == 1 && Frame(Encode(out[0]), ptype, option, local, remote, payload)
  }

  /** The channel can be used: it is there and its other end is known. */
  ghost predicate Up(e: Endpoint, id: nat) {
    id in e.table && (e.table[id].status == Open || e.table[id].status == Pending) && e.table[id].remote != 0
  }

  lemma OneSent(p: Packet)
    requires Sendable(p)
    ensures OneFrame([p], p.ptype, p.option, p.local, p.remote, p.payload)
  {
    EncodeIsFrame(p);
  }

  /** Opening sends type 1 with the cookie, closing type 7 once the other end is known, writing
      type 3 with the data. */
  lemma CallFrames(e: Endpoint, c: Call, env: Env)
    requires Valid(e) && RemotesOk(e)
    requires (c.OpenChannel? ==> |c.cookie| < 0x1_0000) && (c.WriteChannel? ==> |c.payload| < 0x1_0000)
    ensures var out := OnCall(e, c, env).1;
            && (c.OpenChannel? ==>
                  if c.ctype <= 2 && NewId(e) != -1 && env.sent
                  then OneFrame(out, 1, c.ctype, 0, NewId(e), c.cookie) else out == [])
            && (c.CloseChannel? ==>
                  if c.id in e.table && e.table[c.id].remote != 0 && env.sent
                  then OneFrame(out, 7, 0, e.table[c.id].remote, c.id, []) else out == [])
            && (c.WriteChannel? ==>
                  if c.id == 0 && env.sent then OneFrame(out, 3, 0, 0, 0, c.payload)
                  else if c.id != 0 && Up(e, c.id) && env.sent
                  then OneFrame(out, 3, 0, e.table[c.id].remote, c.id, c.payload) else out == [])
  {
    IdsAreSmall(e);
    var out := OnCall(e, c, env).1;
    if out != [] {
      assert out == [out[0]];
      OneSent(out[0]);
    }
  }

  /** A pend sends type 5, a resume type 6, a keep-alive type 4, an expiry and a shutdown nothing. */
  lemma SignalFrames(e: Endpoint, c: Call, env: Env)
    requires Valid(e) && RemotesOk(e) && !c.OpenChannel? && !c.CloseChannel? && !c.WriteChannel?
    ensures var out := OnCall(e, c, env).1;
            && (c.PendChannel? ==>
                  if Up(e, c.id) && env.sent then OneFrame(out, 5, 0, e.table[c.id].remote, c.id, []) else out == [])
            && (c.ResumeChannel? ==>
                  if Up(e, c.id) && env.sent then OneFrame(out, 6, 0, e.table[c.id].remote, c.id, []) else out == [])
            && (c.KeepAlive? ==>
                  if c.id in e.table && env.sent
                    then OneFrame(out, 4, 0, e.table[c.id].remote, c.id, []) else out == [])
            && (c.ExpireChannel? || c.CloseAll? ==> out == [])
  {
    IdsAreSmall(e);
    var out := OnCall(e, c, env).1;
    if out != [] {
      assert out == [out[0]];
      OneSent(out[0]);
    }
  }

  /** Opening makes a channel that waits for its other end. */
  lemma CallMakes(e: Endpoint, c: Call, env: Env)
    requires Valid(e) && c.OpenChannel?
    ensures var f := OnCall(e, c, env).0;
            if c.ctype <= 2 && NewId(e) != -1 && env.sent
            then f.table == e.table[NewId(e) := Channel(0, c.ctype, Opening, e.made + 1)]
            else f.table == e.table
  {
    if NewId(e) != -1 { NewIsFresh(e); }
  }

  /** Channels have the ids 1 to 2048, at the positions before them; there is none left exactly if
      all positions are marked. */
  lemma IdsRunOut(e: Endpoint)
    requires Valid(e)
    ensures NewId(e) == -1 || 1 <= NewId(e) <= 2048
    ensures NewId(e) == -1 <==> forall p :: 0 <= p < 2048 ==> p in e.ids.marks
    ensures NewId(e) != -1 ==> NewId(e) - 1 !in e.ids.marks && NewId(e) !in e.table
  {
    Look(e);
    IdsAreSmall(e);
    IdAllocator.RefusesOnlyWhenFull(e.ids);
    if NewId(e) != -1 { NewIsFresh(e); }
  }

  /** Users may open channels of type 0 from the other side, forwarding those of type 1, and of
      type 2 where the stream is reliable. */
  ghost predicate Permitted(ctype: nat, env: Env) {
    ctype == 0 || (ctype == 1 && env.forwarding) || (ctype == 2 && env.forwarding && env.reliable)
  }

  /** A request, type 1, is answered by type 2: with the new channel, or with 0 where the callback
      refuses it; without the asking channel where ids have run out. Nothing else is answered. */
  lemma AnswerFrames(e: Endpoint, p: Packet, env: Env)
    requires Valid(e) && p.remote < 0x1_0000
    ensures var out := OnPacket(e, p, env).1;
            if p.ptype == 1 && Permitted(p.option, env) && env.sent
            then OneFrame(out, 2, 0, if NewId(e) == -1 then 0 else p.remote,
                          if NewId(e) == -1 || !env.accept then 0 else NewId(e), [])
            else out == []
  {
    IdsAreSmall(e);
    var out := OnPacket(e, p, env).1;
    if out != [] {
      assert out == [out[0]];
      OneSent(out[0]);
    }
  }

  /** It makes a channel, of the type asked for and with its other end, exactly if it is
      permitted, an id is free, the callback accepts it and the answer is taken. */
  lemma RequestMakes(e: Endpoint, p: Packet, env: Env)
    requires Valid(e) && p.ptype == 1
    ensures var f := OnPacket(e, p, env).0;
            if Permitted(p.option, env) && NewId(e) != -1 && env.accept && env.sent
            then f.table == e.table[NewId(e) := Channel(p.remote, p.option, Open, e.made + 1)]
            else f.table == e.table
  {
    if NewId(e) != -1 { NewIsFresh(e); }
  }

  /** In every run: data written on a channel whose other end is known goes out, also while the
      channel is pending. */
  lemma WritesGoOut(moves: seq<Move>, id: nat, payload: Payload, env: Env)
    requires WithinIds(After(moves)) && env.sent
    requires id in After(moves).left.table && After(moves).left.table[id].status != Opening
    ensures var s := After(moves); var t := Advance(s, Calls(Left, WriteChannel(id, payload), env));
            && WrittenOn(t.left, id) == WrittenOn(s.left, id) + [payload]
            && t.toRight == s.toRight + [Packet(3, 0, s.left.table[id].remote, id, payload)]
  {
    RunKeepsInv(moves);
    var s := After(moves);
    LookBoth(s.left, s.right, s.toRight, s.toLeft);
  }
}
