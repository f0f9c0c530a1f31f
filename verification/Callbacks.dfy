/** The callbacks of one channel: what each input tells it, and why it was closed. */
module Callbacks {
  import opened Bytes
  import opened Wire
  import opened Multiplexer

  /** What an input tells the channel with this id, by the types on the wire: 2 confirms, 3 is
      data, 5 and 6 hold and release, 7 closes. */
  ghost function Told(e: Endpoint, i: Input, id: nat): seq<Event>
    requires id in e.table
  {
    var status := e.table[id].status;
    match i
    case Received(p, env) =>
      if p.local != id then []
      else if p.ptype == 2 && status == Opening then [if p.remote == 0 then Closed(Error) else Opened]
      else if p.ptype == 3 && status != Opening then
        [Data(p.payload)] + if env.keep then [] else [Closed(Error)]
      else if p.ptype == 5 && status == Open then [Pend]
      else if p.ptype == 6 && status == Pending then [Resume]
      else if p.ptype == 7 then [Closed(Normal)]
      else []
    case Called(c, env) =>
      if c == CloseChannel(id) then [Closed(Normal)]
      else if c == ExpireChannel(id) then [Closed(Timeout)]
      else if c.CloseAll? && c.id == id then [Closed(c.reason)]
      else []
  }

  ghost predicate Ends(told: seq<Event>) { told != [] && told[|told| - 1].Closed? }

  /** What the callbacks of a channel hear that the peer asked for: that it is open; or that it is
      closed again, when the answer cannot be sent; or nothing, when they refused it. */
  ghost function FirstTold(i: Input): seq<Event> {
    if i.Received? && i.env.accept then [if i.env.sent then Opened else Closed(Error)] else []
  }

  /** Every channel of the table is told exactly this, and leaves the table exactly if it is told
      that it is closed; a new channel is told exactly that; no other is told anything. */
  lemma CallbacksExactly(e: Endpoint, i: Input, n: nat)
    requires Valid(e)
    ensures var f := Step(e, i).0;
            && (forall id :: id in e.table && e.table[id].num == n ==>
                  && EventsOf(f, n) == EventsOf(e, n) + Told(e, i, id)
                  && (id in f.table <==> !Ends(Told(e, i, id))))
            && (!Listed(e.table, n) ==>
                  EventsOf(f, n) == EventsOf(e, n) + if n == f.made > e.made then FirstTold(i) else [])
  {
    Look(e);
    assert EventsOf(e, n) + [] == EventsOf(e, n);
    match i
    case Received(p, env) =>
      if p.ptype == OPEN {
        RequestTells(e, p, env, n);
      } else if p.local in e.table {
        PacketTells(e, p, env, n);
      }
    case Called(c, env) => CallTells(e, c, env, n);
  }

  lemma Notified(e: Endpoint, id: nat, ev: Event, n: nat)
    requires Valid(e) && id in e.table
    ensures EventsOf(Notify(e, id, ev), n) == EventsOf(e, n) + if n == e.table[id].num then [ev] else []
  {
    assert EventsOf(e, n) + [] == EventsOf(e, n);
  }

  lemma RequestTells(e: Endpoint, p: Packet, env: Env, n: nat)
    requires Valid(e) && Consistent(e) && p.ptype == OPEN
    ensures var f := OnOpen(e, p, env).0;
            && (forall id :: id in e.table ==> id in f.table)
            && EventsOf(f, n) == EventsOf(e, n) + if n == f.made > e.made then FirstTold(Received(p, env)) else []
  {
    assert EventsOf(e, n) + [] == EventsOf(e, n);
    if TypeAllowed(p.option, env) && NewId(e) != -1 {
      NewIsFresh(e);
      var id := NewId(e);
      var e1 := Create(e, p.option, p.remote, Passive(p.remote));
      Notified(e1, id, Closed(Error), n);
      Notified(SetChannel(e1, id, p.remote, Open), id, Opened, n);
    }
  }

  /** Of the channels of the table, this one is told what it should be, and the others nothing. */
  ghost predicate ToldOne(e: Endpoint, f: Endpoint, i: Input, id: nat, n: nat)
    requires id in e.table
  {
    && f.made == e.made
    && (forall k :: k in e.table && k != id ==> k in f.table)
    && (id in f.table <==> !Ends(Told(e, i, id)))
    && EventsOf(f, n) == EventsOf(e, n) + if n == e.table[id].num then Told(e, i, id) else []
  }

  lemma PacketTells(e: Endpoint, p: Packet, env: Env, n: nat)
    requires Valid(e) && Consistent(e) && p.ptype != OPEN && p.local in e.table
    ensures ToldOne(e, OnPacket(e, p, env).0, Received(p, env), p.local, n)
  {
    if p.ptype == DATA {
      DataTells(e, p, env, n);
    } else if p.ptype == CONFIRM {
      ConfirmTells(e, p, env, n);
    } else {
      SignalTells(e, p, env, n);
    }
  }

  lemma ConfirmTells(e: Endpoint, p: Packet, env: Env, n: nat)
    requires Valid(e) && p.ptype == CONFIRM && p.local in e.table
    ensures ToldOne(e, OnPacket(e, p, env).0, Received(p, env), p.local, n)
  {
    var id := p.local;
    assert EventsOf(e, n) + [] == EventsOf(e, n);
    if e.table[id].status == Opening {
      if p.remote != 0 {
        Notified(SetChannel(e, id, p.remote, Open), id, Opened, n);
      } else {
        Notified(e, id, Closed(Error), n);
      }
    }
  }

  lemma SignalTells(e: Endpoint, p: Packet, env: Env, n: nat)
    requires Valid(e) && p.ptype != CONFIRM && p.ptype != DATA && p.ptype != OPEN && p.local in e.table
    ensures ToldOne(e, OnPacket(e, p, env).0, Received(p, env), p.local, n)
  {
    var id, ch := p.local, e.table[p.local];
    assert EventsOf(e, n) + [] == EventsOf(e, n);
    if p.ptype == PENDING && ch.status == Open {
      Notified(SetChannel(e, id, ch.remote, Pending), id, Pend, n);
    } else if p.ptype == RESUME && ch.status == Pending {
      Notified(SetChannel(e, id, ch.remote, Open), id, Resume, n);
    } else if p.ptype == CLOSE {
      Notified(e, id, Closed(Normal), n);
    }
  }

  lemma DataTells(e: Endpoint, p: Packet, env: Env, n: nat)
    requires Valid(e) && p.ptype == DATA && p.local in e.table && p.local != 0
    ensures ToldOne(e, OnPacket(e, p, env).0, Received(p, env), p.local, n)
  {
    var id := p.local;
    var f := Notify(e, id, Data(p.payload));
    assert EventsOf(e, n) + [] == EventsOf(e, n);
    Notified(e, id, Data(p.payload), n);
    Notified(f, id, Closed(Error), n);
    AppendAppend(EventsOf(e, n), [Data(p.payload)], [Closed(Error)]);
  }

  lemma CallTells(e: Endpoint, c: Call, env: Env, n: nat)
    requires Valid(e) && Consistent(e)
    ensures var f := OnCall(e, c, env).0;
            && (forall id :: id in e.table && e.table[id].num == n ==>
                  && EventsOf(f, n) == EventsOf(e, n) + Told(e, Called(c, env), id)
                  && (id in f.table <==> !Ends(Told(e, Called(c, env), id))))
            && (!Listed(e.table, n) ==> EventsOf(f, n) == EventsOf(e, n))
  {
    assert EventsOf(e, n) + [] == EventsOf(e, n);
    if c.OpenChannel? {
      if NewId(e) != -1 { NewIsFresh(e); }
    } else if c.CloseChannel? || c.ExpireChannel? || c.CloseAll? {
      CloseTells(e, c, env, n);
    }
  }

  lemma CloseTells(e: Endpoint, c: Call, env: Env, n: nat)
    requires Valid(e) && Consistent(e) && (c.CloseChannel? || c.ExpireChannel? || c.CloseAll?)
    ensures var f := OnCall(e, c, env).0;
            && (forall id :: id in e.table && e.table[id].num == n ==>
                  && EventsOf(f, n) == EventsOf(e, n) + Told(e, Called(c, env), id)
                  && (id in f.table <==> !Ends(Told(e, Called(c, env), id))))
            && (!Listed(e.table, n) ==> EventsOf(f, n) == EventsOf(e, n))
  {
    assert EventsOf(e, n) + [] == EventsOf(e, n);
    if c.id in e.table {
      var r := if c.CloseChannel? then Normal else if c.ExpireChannel? then Timeout else c.reason;
      Notified(e, c.id, Closed(r), n);
      assert e.table[c.id].num == n ==> Listed(e.table, n);
    }
  }

  // ----- why a channel was closed -----

  /** What closes the channel with this id, for this reason. */
  ghost predicate Causes(e: Endpoint, i: Input, id: nat, r: Reason)
    requires id in e.table
  {
    match r
    case Timeout => i.Called? && (i.call == ExpireChannel(id) || i.call == CloseAll(id, Timeout))
    case Normal =>
      || (i.Called? && (i.call == CloseChannel(id) || i.call == CloseAll(id, Normal)))
      || (i.Received? && i.packet.ptype == 7 && i.packet.local == id)
    case Error =>
      || (i.Called? && i.call == CloseAll(id, Error))
      || (i.Received? && i.packet.local == id && i.packet.ptype == 2 && i.packet.remote == 0
          && e.table[id].status == Opening)
      || (i.Received? && i.packet.local == id && i.packet.ptype == 3 && !i.env.keep && e.table[id].status != Opening)
  }

  /** What an input did to the channel with number n that closed it. */
  ghost predicate WhyClosed(e: Endpoint, i: Input, n: nat, r: Reason) {
    || (exists id :: id in e.table && e.table[id].num == n && Causes(e, i, id, r))
    || (n == e.made + 1 && r == Error && i.Received? && i.packet.ptype == 1 && i.env.accept && !i.env.sent)
  }

  /** In every run: a channel that was told it is closed was closed by what gives this reason: a
      timeout by an expiry, an error by a refusal or an answer that could not be sent, and a
      normal close by a call here or a close packet from there; or by a shutdown that says so. */
  lemma {:induction false} ReasonsTell(inputs: seq<Input>, n: nat, r: Reason) returns (k: nat)
    requires EndsWith(EventsOf(Run(inputs), n), r)
    ensures k < |inputs| && WhyClosed(Run(inputs[..k]), inputs[k], n, r)
    decreases |inputs|
  {
    LastInput(inputs, n, r);
    var m := |inputs| - 1;
    if WhyClosed(Run(inputs[..m]), inputs[m], n, r) {
      k := m;
    } else {
      k := ReasonsTell(inputs[..m], n, r);
      assert inputs[..m][..k] == inputs[..k];
    }
  }

  ghost predicate EndsWith(t: seq<Event>, r: Reason) { t != [] && t[|t| - 1] == Closed(r) }

  lemma LastInput(inputs: seq<Input>, n: nat, r: Reason)
    requires EndsWith(EventsOf(Run(inputs), n), r)
    ensures inputs != []
    ensures var m := |inputs| - 1;
            EndsWith(EventsOf(Run(inputs[..m]), n), r) || WhyClosed(Run(inputs[..m]), inputs[m], n, r)
  {
    SilentAtFirst(inputs, n);
    var m := |inputs| - 1;
    RunLast(inputs);
    if EventsOf(Run(inputs), n) != EventsOf(Run(inputs[..m]), n) { StepTells(Run(inputs[..m]), inputs[m], n, r); }
  }

  lemma SilentAtFirst(inputs: seq<Input>, n: nat)
    ensures EventsOf(Run(inputs), n) != [] ==> inputs != []
  {
  }

  lemma RunLast(inputs: seq<Input>)
    requires inputs != []
    ensures var m := |inputs| - 1; Run(inputs) == Step(Run(inputs[..m]), inputs[m]).0
  {
    FreshValid();
    var m := |inputs| - 1;
    assert inputs == inputs[..m] + [inputs[m]];
    RunSnoc(Fresh, inputs[..m], inputs[m]);
  }

  lemma StepTells(e: Endpoint, i: Input, n: nat, r: Reason)
    requires Valid(e) && EventsOf(Step(e, i).0, n) != EventsOf(e, n)
    requires var t := EventsOf(Step(e, i).0, n); t != [] && t[|t| - 1] == Closed(r)
    ensures WhyClosed(e, i, n, r)
  {
    CallbacksExactly(e, i, n);
    if Listed(e.table, n) {
      var id :| id in e.table && e.table[id].num == n;
      assert Causes(e, i, id, r);
    } else {
      MadeByRequest(e, i);
    }
  }

  lemma MadeByRequest(e: Endpoint, i: Input)
    requires Valid(e) && Step(e, i).0.made > e.made && i.Received?
    ensures i.packet.ptype == 1 && Step(e, i).0.made == e.made + 1
  {
  }
}
