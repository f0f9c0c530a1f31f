/** Holding and releasing the other end of a channel: every pending and resume that one side
    sends takes effect on the other end, in order, and nothing else does. */
module PeerSignals {
  import opened Bytes
  import opened Wire
  import opened Multiplexer
  import opened TwoPeers
  import opened PeerEnds

  // ----- signals -----

  datatype Signal = Hold | Release

  /** The signals of each channel of one side. */
  type Signals = map<nat, seq<Signal>>

  function On(l: Signals, n: nat): seq<Signal> { if n in l then l[n] else [] }

  function With(l: Signals, n: nat, s: seq<Signal>): Signals { l[n := On(l, n) + s] }

  /** Whether the last signal holds. */
  function Held(l: seq<Signal>): bool { l != [] && l[|l| - 1] == Hold }

  /** What signals do: the first hold is a pending, the next release a resume, and so on. */
  function Effects(l: seq<Signal>): seq<Event> {
    if l == [] then []
    else Effects(l[..|l| - 1]) + EffectOf(Held(l[..|l| - 1]), l[|l| - 1])
  }

  function EffectOf(held: bool, s: Signal): seq<Event> {
    if s == Hold && !held then [Pend] else if s == Release && held then [Resume] else []
  }

  lemma EffectsSnoc(l: seq<Signal>, s: Signal)
    ensures Effects(l + [s]) == Effects(l) + EffectOf(Held(l), s) && Held(l + [s]) == (s == Hold)
  {
    assert (l + [s])[..|l|] == l;
  }

  /** The pending and resume callbacks of a channel. */
  function HoldsOf(t: seq<Event>): seq<Event> {
    if t == [] then []
    else HoldsOf(t[..|t| - 1]) + (if t[|t| - 1].Pend? || t[|t| - 1].Resume? then [t[|t| - 1]] else [])
  }

  lemma HoldsSnoc(t: seq<Event>, ev: Event)
    ensures HoldsOf(t + [ev]) == HoldsOf(t) + if ev.Pend? || ev.Resume? then [ev] else []
  {
    assert (t + [ev])[..|t|] == t;
  }

  // ----- signals on a link -----

  function SignalOf(p: Packet): seq<Signal> {
    if p.ptype == PENDING then [Hold] else if p.ptype == RESUME then [Release] else []
  }

  /** The signals for channel b among the packets of a link. */
  function SignalsFor(q: seq<Packet>, b: nat): seq<Signal> {
    if q == [] then [] else (if q[0].local == b then SignalOf(q[0]) else []) + SignalsFor(q[1..], b)
  }

  lemma {:induction false} SignalsForAppend(q: seq<Packet>, r: seq<Packet>, b: nat)
    ensures SignalsFor(q + r, b) == SignalsFor(q, b) + SignalsFor(r, b)
  {
    if q == [] {
      assert q + r == r;
    } else {
      SignalsForAppend(q[1..], r, b);
      AppendRest(q, r);
      AppendAppend(if q[0].local == b then SignalOf(q[0]) else [], SignalsFor(q[1..], b), SignalsFor(r, b));
    }
  }

  lemma {:induction false} NoSignalsFor(q: seq<Packet>, b: nat)
    requires forall p :: p in q ==> SignalOf(p) == [] || p.local != b
    ensures SignalsFor(q, b) == []
  {
    if q != [] { NoSignalsFor(q[1..], b); }
  }

  /** No signal for b comes before a positive confirmation for b. */
  predicate Heralded(q: seq<Packet>, b: nat) {
    q == [] || (q[0].ptype == CONFIRM && q[0].local == b && q[0].remote != 0)
    || ((SignalOf(q[0]) == [] || q[0].local != b) && Heralded(q[1..], b))
  }

  lemma {:induction false} HeraldedAppend(q: seq<Packet>, r: seq<Packet>, b: nat)
    requires Heralded(q, b) && (HasConfirm(q, b) || Heralded(r, b))
    ensures Heralded(q + r, b)
  {
    if q == [] {
      assert q + r == r;
    } else {
      assert (q + r)[1..] == q[1..] + r;
      if !(q[0].ptype == CONFIRM && q[0].local == b && q[0].remote != 0) { HeraldedAppend(q[1..], r, b); }
    }
  }

  lemma {:induction false} HeraldedWithout(q: seq<Packet>, b: nat)
    requires forall p :: p in q ==> SignalOf(p) == [] || p.local != b
    ensures Heralded(q, b)
  {
    if q != [] { HeraldedWithout(q[1..], b); }
  }

  // ----- the invariant -----

  /** What x asked of y: asked are the signals x sent, by its channels, and heard those that
      arrived at y, by its channels. */
  ghost predicate Signalled(x: Endpoint, y: Endpoint, q: seq<Packet>, asked: Signals, heard: Signals) {
    && (forall p :: p in q && SignalOf(p) != [] ==> Linked(x.origin, y.origin, p.remote, p.local))
    && (forall a, b :: Linked(x.origin, y.origin, a, b) ==>
          Carried(On(asked, a), On(heard, b), b in y.table, SignalsFor(q, b)))
    && (forall b :: b in y.table && y.table[b].status == Opening ==> Heralded(q, b))
    && (forall a :: On(asked, a) != [] ==> a in x.origin && HasEnd(x.origin, y.origin, a))
    && (forall b :: On(heard, b) != [] ==> b in y.origin && HasEnd(y.origin, x.origin, b))
  }

  /** What arrived is the beginning of what was asked; while the channel is there, the rest is
      on the way. */
  ghost predicate Carried(asked: seq<Signal>, heard: seq<Signal>, alive: bool, coming: seq<Signal>) {
    heard <= asked && (alive ==> asked == heard + coming)
  }

  /** Every channel saw what its signals do, and is pending exactly if the last one holds. */
  ghost predicate Effective(y: Endpoint, heard: Signals) {
    && (forall b :: HoldsOf(EventsOf(y, b)) == Effects(On(heard, b)))
    && (forall b :: b in y.table ==> HeldRight(y.table[b].status, On(heard, b)))
  }

  ghost predicate HeldRight(status: Status, l: seq<Signal>) {
    (status == Pending <==> Held(l)) && (status == Opening ==> l == [])
  }

  // ----- a step, seen from the side that takes it -----

  /** The signals that a call sends. */
  ghost function Asking(e: Endpoint, c: Call, env: Env): seq<Signal> {
    if (c.PendChannel? || c.ResumeChannel?) && c.id in e.table && e.table[c.id].status != Opening && env.sent
    then [if c.PendChannel? then Hold else Release] else []
  }

  ghost function AskedNext(e: Endpoint, c: Call, env: Env, asked: Signals): Signals {
    if Asking(e, c, env) == [] then asked else With(asked, c.id, Asking(e, c, env))
  }

  ghost function HeardNext(e: Endpoint, p: Packet, heard: Signals): Signals {
    if p.local in e.table && SignalOf(p) != [] then With(heard, p.local, SignalOf(p)) else heard
  }

  /** What a step sends: signals from channels of the table to their other ends. */
  ghost predicate Sends(y: Endpoint, out: seq<Packet>, asked: Signals, asked': Signals) {
    || ((forall p :: p in out ==> SignalOf(p) == []) && asked' == asked)
    || (|out| == 1 && SignalOf(out[0]) != [] && out[0].remote in y.table
        && y.table[out[0].remote].status != Opening && out[0].local == y.table[out[0].remote].remote
        && asked' == With(asked, out[0].remote, SignalOf(out[0])))
  }

  /** At most one channel is made, and if it is for a channel of x, then for one that had no
      other end. */
  ghost predicate Grown(y: Origins, z: Origins, x: Origins) {
    z == y || exists n: nat, o :: n !in y && z == y[n := o] && Unasked(y, x, o)
  }

  ghost predicate Unasked(y: Origins, x: Origins, o: Origin) {
    o.Passive? ==> forall a: nat :: !Linked(y, x, a, o.peer)
  }

  /** A link is an old one, or that of the new channel. */
  lemma GrownLinks(y: Origins, z: Origins, x: Origins, a: nat, b: nat)
    requires Grown(y, z, x) && Pairing(y, x)
    ensures Linked(y, x, a, b) ==> Linked(z, x, a, b)
    ensures Linked(z, x, a, b) && !Linked(y, x, a, b) ==> a !in y && forall c :: !Linked(y, x, c, b)
  {
  }

  /** A step of y keeps account of what y asked of x. */
  lemma AskingKeeps(x: Endpoint, y: Endpoint, z: Endpoint, r: seq<Packet>, out: seq<Packet>,
                    asked: Signals, asked': Signals, heard: Signals)
    requires Signalled(y, x, r, asked, heard) && Sends(y, out, asked, asked') && Grown(y.origin, z.origin, x.origin)
    requires Pairing(x.origin, y.origin) && Pairing(y.origin, x.origin)
    requires Ends(y.origin, x.origin, y.table) && Ordered(y.origin, y.table, x.table, r)
    requires Ends(x.origin, y.origin, x.table)
    ensures Signalled(z, x, r + out, asked', heard)
  {
    var s := r + out;
    forall p | p in s && SignalOf(p) != [] ensures Linked(z.origin, x.origin, p.remote, p.local) {
      SentLinked(x, y, r, out, asked, asked', heard, p);
      GrownLinks(y.origin, z.origin, x.origin, p.remote, p.local);
    }
    forall a, b | Linked(z.origin, x.origin, a, b)
      ensures Carried(On(asked', a), On(heard, b), b in x.table, SignalsFor(s, b))
    {
      GrownLinks(y.origin, z.origin, x.origin, a, b);
      if Linked(y.origin, x.origin, a, b) {
        AskedCarried(x, y, r, out, asked, asked', heard, a, b);
      } else {
        NewCarried(x, y, r, out, asked, asked', heard, a, b);
      }
    }
    forall b | b in x.table && x.table[b].status == Opening ensures Heralded(s, b) {
      AskedHeralded(x, y, r, out, asked, asked', heard, b);
    }
    forall a | On(asked', a) != [] ensures a in z.origin && HasEnd(z.origin, x.origin, a) {
      AskedHasEnd(x, y, z, r, out, asked, asked', heard, a);
    }
    forall b | On(heard, b) != [] ensures b in x.origin && HasEnd(x.origin, z.origin, b) {
      HeardHasEnd(x, y, z, b);
    }
  }

  lemma SentLinked(x: Endpoint, y: Endpoint, r: seq<Packet>, out: seq<Packet>, asked: Signals, asked': Signals,
                   heard: Signals, p: Packet)
    requires Signalled(y, x, r, asked, heard) && Sends(y, out, asked, asked') && Ends(y.origin, x.origin, y.table)
    requires (p in r || p in out) && SignalOf(p) != []
    ensures Linked(y.origin, x.origin, p.remote, p.local)
  {
  }

  lemma AskedCarried(x: Endpoint, y: Endpoint, r: seq<Packet>, out: seq<Packet>, asked: Signals, asked': Signals,
                     heard: Signals, a: nat, b: nat)
    requires Signalled(y, x, r, asked, heard) && Sends(y, out, asked, asked') && Linked(y.origin, x.origin, a, b)
    requires Pairing(x.origin, y.origin) && Pairing(y.origin, x.origin) && Ends(y.origin, x.origin, y.table)
    ensures Carried(On(asked', a), On(heard, b), b in x.table, SignalsFor(r + out, b))
  {
    SignalsForAppend(r, out, b);
    if asked' == asked && forall p :: p in out ==> SignalOf(p) == [] {
      NoSignalsFor(out, b);
      assert SignalsFor(r, b) + [] == SignalsFor(r, b);
    } else {
      OneSignal(y, x, out, a, b);
      if out[0].remote == a {
        AppendAppend(On(heard, b), SignalsFor(r, b), SignalOf(out[0]));
      } else {
        assert SignalsFor(r, b) + [] == SignalsFor(r, b);
      }
    }
  }

  /** A signal goes to the only other end of its channel. */
  lemma OneSignal(y: Endpoint, x: Endpoint, out: seq<Packet>, a: nat, b: nat)
    requires |out| == 1 && SignalOf(out[0]) != [] && out[0].remote in y.table && Linked(y.origin, x.origin, a, b)
    requires y.table[out[0].remote].status != Opening && out[0].local == y.table[out[0].remote].remote
    requires Pairing(x.origin, y.origin) && Pairing(y.origin, x.origin) && Ends(y.origin, x.origin, y.table)
    ensures SignalsFor(out, b) == if out[0].remote == a then SignalOf(out[0]) else []
  {
    LinkedUnique(y.origin, x.origin);
    assert out[1..] == [] && SignalOf(out[0]) + [] == SignalOf(out[0]);
  }

  /** Nothing was asked of, or by, a channel that is new. */
  lemma NewCarried(x: Endpoint, y: Endpoint, r: seq<Packet>, out: seq<Packet>, asked: Signals, asked': Signals,
                   heard: Signals, a: nat, b: nat)
    requires Signalled(y, x, r, asked, heard) && Sends(y, out, asked, asked') && Ends(y.origin, x.origin, y.table)
    requires a !in y.origin && forall c :: !Linked(y.origin, x.origin, c, b)
    ensures Carried(On(asked', a), On(heard, b), b in x.table, SignalsFor(r + out, b))
  {
    forall p | p in r + out ensures SignalOf(p) == [] || p.local != b {
      if SignalOf(p) != [] { SentLinked(x, y, r, out, asked, asked', heard, p); }
    }
    NoSignalsFor(r + out, b);
    NotHeard(x, y, r, asked, heard, b);
  }

  lemma NotHeard(x: Endpoint, y: Endpoint, r: seq<Packet>, asked: Signals, heard: Signals, b: nat)
    requires Signalled(y, x, r, asked, heard) && forall c :: !Linked(y.origin, x.origin, c, b)
    ensures On(heard, b) == []
  {
    if HasEnd(x.origin, y.origin, b) {
      var c :| Linked(x.origin, y.origin, b, c);
      LinkedSymmetric(y.origin, x.origin, c, b);
    }
  }

  lemma AskedHeralded(x: Endpoint, y: Endpoint, r: seq<Packet>, out: seq<Packet>, asked: Signals, asked': Signals,
                      heard: Signals, b: nat)
    requires Signalled(y, x, r, asked, heard) && Sends(y, out, asked, asked') && b in x.table
    requires x.table[b].status == Opening && Ends(y.origin, x.origin, y.table) && Ends(x.origin, y.origin, x.table)
    requires Ordered(y.origin, y.table, x.table, r) && Pairing(y.origin, x.origin) && Pairing(x.origin, y.origin)
    ensures Heralded(r + out, b)
  {
    if forall p :: p in out ==> SignalOf(p) == [] || p.local != b {
      HeraldedWithout(out, b);
      HeraldedAppend(r, out, b);
    } else {
      var a := out[0].remote;
      assert Linked(y.origin, x.origin, a, b);
      HeraldedAppend(r, out, b);
    }
  }

  lemma AskedHasEnd(x: Endpoint, y: Endpoint, z: Endpoint, r: seq<Packet>, out: seq<Packet>, asked: Signals,
                    asked': Signals, heard: Signals, a: nat)
    requires Signalled(y, x, r, asked, heard) && Sends(y, out, asked, asked') && Ends(y.origin, x.origin, y.table)
    requires Grown(y.origin, z.origin, x.origin) && Pairing(y.origin, x.origin) && On(asked', a) != []
    ensures a in z.origin && HasEnd(z.origin, x.origin, a)
  {
    if On(asked, a) != [] {
      var b :| Linked(y.origin, x.origin, a, b);
      GrownLinks(y.origin, z.origin, x.origin, a, b);
    } else {
      var b := y.table[a].remote;
      GrownLinks(y.origin, z.origin, x.origin, a, b);
      assert Linked(z.origin, x.origin, a, b);
    }
  }

  lemma HeardHasEnd(x: Endpoint, y: Endpoint, z: Endpoint, b: nat)
    requires Grown(y.origin, z.origin, x.origin) && Pairing(y.origin, x.origin) && HasEnd(x.origin, y.origin, b)
    ensures HasEnd(x.origin, z.origin, b)
  {
    var a :| Linked(x.origin, y.origin, b, a);
    LinkedSymmetric(x.origin, y.origin, b, a);
    GrownLinks(y.origin, z.origin, x.origin, a, b);
    LinkedSymmetric(z.origin, x.origin, a, b);
  }

  // ----- a step, seen from the side whose packets it takes -----

  /** What a step of y does to its table: channels leave, at most stop waiting when the packet
      that is taken confirms them, and the one that is made is new. */
  ghost predicate Turns(y: Endpoint, z: Endpoint, q: seq<Packet>, rest: seq<Packet>) {
    && (rest == q || (q != [] && rest == q[1..]))
    && (forall b :: b in z.table && b !in y.table ==> b !in y.origin && b in z.origin)
    && (forall b :: b in z.table && b in y.table && z.table[b].status == Opening ==> y.table[b].status == Opening)
    && (rest != q && q[0].ptype == CONFIRM && q[0].remote != 0 && q[0].local in z.table ==>
          z.table[q[0].local].status != Opening)
  }

  ghost function HeardAfter(y: Endpoint, q: seq<Packet>, rest: seq<Packet>, heard: Signals): Signals {
    if rest == q || q == [] then heard else HeardNext(y, q[0], heard)
  }

  /** A step of y keeps account of what x asked of y. */
  lemma HearingKeeps(x: Endpoint, y: Endpoint, z: Endpoint, q: seq<Packet>, rest: seq<Packet>,
                     asked: Signals, heard: Signals)
    requires Signalled(x, y, q, asked, heard) && Turns(y, z, q, rest) && Grown(y.origin, z.origin, x.origin)
    requires Pairing(x.origin, y.origin) && Pairing(y.origin, x.origin) && Ends(y.origin, x.origin, y.table)
    ensures Signalled(x, z, rest, asked, HeardAfter(y, q, rest, heard))
  {
    var heard' := HeardAfter(y, q, rest, heard);
    forall p | p in rest && SignalOf(p) != [] ensures Linked(x.origin, z.origin, p.remote, p.local) {
      assert p in q;
      LinkStays(x, y, z, p.remote, p.local);
    }
    forall a, b | Linked(x.origin, z.origin, a, b)
      ensures Carried(On(asked, a), On(heard', b), b in z.table, SignalsFor(rest, b))
    {
      LinkedSymmetric(x.origin, z.origin, a, b);
      LinkedSymmetric(x.origin, y.origin, a, b);
      GrownLinks(y.origin, z.origin, x.origin, b, a);
      if Linked(x.origin, y.origin, a, b) {
        HeardCarried(x, y, z, q, rest, asked, heard, a, b);
      } else {
        FreshCarried(x, y, z, q, rest, asked, heard, a, b);
      }
    }
    forall b | b in z.table && z.table[b].status == Opening ensures Heralded(rest, b) {
      HeardHeralded(x, y, z, q, rest, asked, heard, b);
    }
    forall a | On(asked, a) != [] ensures HasEnd(x.origin, z.origin, a) {
      var b :| Linked(x.origin, y.origin, a, b);
      LinkStays(x, y, z, a, b);
    }
    forall b | On(heard', b) != [] ensures b in z.origin && HasEnd(z.origin, x.origin, b) {
      HearerHasEnd(x, y, z, q, rest, asked, heard, b);
    }
  }

  lemma LinkStays(x: Endpoint, y: Endpoint, z: Endpoint, a: nat, b: nat)
    requires Linked(x.origin, y.origin, a, b) && Grown(y.origin, z.origin, x.origin) && Pairing(y.origin, x.origin)
    ensures Linked(x.origin, z.origin, a, b)
  {
    LinkedSymmetric(x.origin, y.origin, a, b);
    GrownLinks(y.origin, z.origin, x.origin, b, a);
    LinkedSymmetric(x.origin, z.origin, a, b);
  }

  lemma HeardCarried(x: Endpoint, y: Endpoint, z: Endpoint, q: seq<Packet>, rest: seq<Packet>, asked: Signals,
                     heard: Signals, a: nat, b: nat)
    requires Signalled(x, y, q, asked, heard) && Turns(y, z, q, rest) && Linked(x.origin, y.origin, a, b)
    requires Pairing(x.origin, y.origin) && Pairing(y.origin, x.origin) && Grown(y.origin, z.origin, x.origin)
    ensures Carried(On(asked, a), On(HeardAfter(y, q, rest, heard), b), b in z.table, SignalsFor(rest, b))
  {
    assert b in y.origin;
    assert b in z.table ==> b in y.table;
    HeardOf(y, q, rest, heard, b);
    var s := if rest != q && q[0].local == b then SignalOf(q[0]) else [];
    MoreHeard(On(asked, a), On(heard, b), b in y.table, b in z.table, s, SignalsFor(rest, b));
  }

  lemma HeardOf(y: Endpoint, q: seq<Packet>, rest: seq<Packet>, heard: Signals, b: nat)
    requires rest == q || (q != [] && rest == q[1..])
    ensures var s := if rest != q && q[0].local == b then SignalOf(q[0]) else [];
            && On(HeardAfter(y, q, rest, heard), b) == On(heard, b) + (if b in y.table then s else [])
            && SignalsFor(q, b) == s + SignalsFor(rest, b)
  {
  }

  lemma MoreHeard(asked: seq<Signal>, heard: seq<Signal>, alive: bool, alive': bool, s: seq<Signal>,
                  coming: seq<Signal>)
    requires Carried(asked, heard, alive, s + coming) && (alive' ==> alive)
    ensures Carried(asked, heard + if alive then s else [], alive', coming)
  {
    AppendAppend(heard, s, coming);
    assert heard + [] == heard;
  }

  lemma FreshCarried(x: Endpoint, y: Endpoint, z: Endpoint, q: seq<Packet>, rest: seq<Packet>, asked: Signals,
                     heard: Signals, a: nat, b: nat)
    requires Signalled(x, y, q, asked, heard) && Turns(y, z, q, rest) && Ends(y.origin, x.origin, y.table)
    requires b !in y.origin && (forall c :: !Linked(y.origin, x.origin, c, a)) && Pairing(y.origin, x.origin)
    ensures Carried(On(asked, a), On(HeardAfter(y, q, rest, heard), b), b in z.table, SignalsFor(rest, b))
  {
    NoneOnTheWay(x, y, q, rest, asked, heard, b);
    NoneAsked(x, y, q, asked, heard, a);
    HeardOf(y, q, rest, heard, b);
    assert b !in y.table;
  }

  lemma NoneOnTheWay(x: Endpoint, y: Endpoint, q: seq<Packet>,
      rest: seq<Packet>, asked: Signals, heard: Signals, b: nat)
    requires Signalled(x, y, q, asked, heard) && b !in y.origin && Pairing(y.origin, x.origin)
    requires rest == q || (q != [] && rest == q[1..])
    ensures SignalsFor(rest, b) == [] && Heralded(rest, b)
  {
    forall p | p in rest ensures SignalOf(p) == [] || p.local != b {
      assert p in q;
    }
    NoSignalsFor(rest, b);
    HeraldedWithout(rest, b);
  }

  lemma NoneAsked(x: Endpoint, y: Endpoint, q: seq<Packet>, asked: Signals, heard: Signals, a: nat)
    requires Signalled(x, y, q, asked, heard) && forall c :: !Linked(y.origin, x.origin, c, a)
    ensures On(asked, a) == []
  {
    if HasEnd(x.origin, y.origin, a) {
      var c :| Linked(x.origin, y.origin, a, c);
      LinkedSymmetric(x.origin, y.origin, a, c);
    }
  }

  lemma HeardHeralded(x: Endpoint, y: Endpoint, z: Endpoint, q: seq<Packet>, rest: seq<Packet>, asked: Signals,
                      heard: Signals, b: nat)
    requires Signalled(x, y, q, asked, heard) && Turns(y, z, q, rest) && Pairing(y.origin, x.origin)
    requires b in z.table && z.table[b].status == Opening
    ensures Heralded(rest, b)
  {
    if b !in y.table { NoneOnTheWay(x, y, q, rest, asked, heard, b); }
  }

  lemma HearerHasEnd(x: Endpoint, y: Endpoint, z: Endpoint, q: seq<Packet>, rest: seq<Packet>, asked: Signals,
                     heard: Signals, b: nat)
    requires Signalled(x, y, q, asked, heard) && Turns(y, z, q, rest) && Grown(y.origin, z.origin, x.origin)
    requires Pairing(y.origin, x.origin) && Ends(y.origin, x.origin, y.table)
    requires On(HeardAfter(y, q, rest, heard), b) != []
    ensures b in z.origin && HasEnd(z.origin, x.origin, b)
  {
    var a: nat;
    if On(heard, b) != [] {
      a :| Linked(y.origin, x.origin, b, a);
    } else {
      a := q[0].remote;
      assert Linked(x.origin, y.origin, a, b);
      LinkedSymmetric(x.origin, y.origin, a, b);
    }
    GrownLinks(y.origin, z.origin, x.origin, b, a);
  }

  // ----- the steps of an endpoint -----

  /** The pending and resume callbacks are the same. */
  ghost predicate Still(y: Endpoint, z: Endpoint) { forall m :: HoldsOf(EventsOf(z, m)) == HoldsOf(EventsOf(y, m)) }

  /** Channel n has one more. */
  ghost predicate Adds(y: Endpoint, z: Endpoint, n: nat, ev: Event) {
    forall m :: HoldsOf(EventsOf(z, m)) == if m == n then HoldsOf(EventsOf(y, m)) + [ev] else HoldsOf(EventsOf(y, m))
  }

  lemma NotifyAdds(e: Endpoint, f: Endpoint, id: nat, ev: Event)
    requires Valid(f) && id in f.table && f.events == e.events && (ev.Pend? || ev.Resume?)
    ensures Adds(e, Notify(f, id, ev), f.table[id].num, ev)
  {
    HoldsSnoc(EventsOf(e, f.table[id].num), ev);
  }

  lemma NotifyStill(e: Endpoint, f: Endpoint, id: nat, ev: Event)
    requires Valid(f) && id in f.table && f.events == e.events && !ev.Pend? && !ev.Resume?
    ensures Still(e, Notify(f, id, ev)) && Notify(f, id, ev).table == f.table && Notify(f, id, ev).origin == f.origin
  {
    var n := f.table[id].num;
    HoldsSnoc(EventsOf(e, n), ev);
    assert HoldsOf(EventsOf(e, n)) + [] == HoldsOf(EventsOf(e, n));
  }

  /** Closing a channel is neither a pending nor a resume. */
  lemma ClosingStill(e: Endpoint, id: nat, reason: Reason, freed: bool)
    requires Valid(e) && id in e.table
    ensures var f := Drop(Notify(e, id, Closed(reason)), id, freed);
            f.table == e.table - {id} && f.origin == e.origin && Still(e, f)
  {
    NotifyStill(e, e, id, Closed(reason));
    StillOnly(e, Notify(e, id, Closed(reason)), Drop(Notify(e, id, Closed(reason)), id, freed));
  }

  lemma StillOnly(e: Endpoint, f: Endpoint, g: Endpoint)
    requires Still(e, f) && g.events == f.events
    ensures Still(e, g)
  {
  }

  lemma StillTwice(x: Endpoint, y: Endpoint, z: Endpoint)
    requires Still(x, y) && Still(y, z)
    ensures Still(x, z)
  {
  }

  /** The status that a packet gives its channel. */
  function StatusAfter(s: Status, p: Packet): Status {
    if p.ptype == CONFIRM && p.remote != 0 && s == Opening then Open
    else if p.ptype == PENDING && s == Open then Pending
    else if p.ptype == RESUME && s == Pending then Open
    else s
  }

  /** Channels keep their place and status, or leave; one may get a new status. */
  ghost predicate Keeps(y: Endpoint, z: Endpoint, id: nat, status: Status) {
    && z.origin == y.origin
    && forall b :: b in z.table ==> b in y.table && z.table[b].status == if b == id then status else y.table[b].status
  }

  /** A packet for a channel of the table. */
  ghost predicate Turned(y: Endpoint, z: Endpoint, p: Packet)
    requires p.local in y.table
  {
    var ch := y.table[p.local];
    && Keeps(y, z, p.local, StatusAfter(ch.status, p))
    && (if p.ptype == PENDING && ch.status == Open then Adds(y, z, ch.num, Pend)
        else if p.ptype == RESUME && ch.status == Pending then Adds(y, z, ch.num, Resume)
        else Still(y, z))
  }

  lemma ChannelTurned(y: Endpoint, p: Packet, env: Env)
    requires Valid(y) && p.local in y.table
    ensures Turned(y, OnChannel(y, p, env), p)
  {
    if p.ptype == CONFIRM {
      ConfirmTurned(y, p, env);
    } else if p.ptype == DATA {
      DataTurned(y, p, env);
    } else if p.ptype == PENDING || p.ptype == RESUME {
      SignalTurned(y, p, env);
    } else if p.ptype == CLOSE {
      ClosingStill(y, p.local, Normal, env.freed);
    }
  }

  lemma ConfirmTurned(y: Endpoint, p: Packet, env: Env)
    requires Valid(y) && p.local in y.table && p.ptype == CONFIRM
    ensures Turned(y, OnChannel(y, p, env), p)
  {
    var id := p.local;
    if y.table[id].status == Opening {
      if p.remote != 0 {
        NotifyStill(y, SetChannel(y, id, p.remote, Open), id, Opened);
      } else {
        ClosingStill(y, id, Error, env.freed);
      }
    }
  }

  lemma DataTurned(y: Endpoint, p: Packet, env: Env)
    requires Valid(y) && p.local in y.table && p.ptype == DATA
    ensures Turned(y, OnChannel(y, p, env), p)
  {
    var id := p.local;
    if y.table[id].status != Opening {
      var f := Notify(y, id, Data(p.payload));
      NotifyStill(y, y, id, Data(p.payload));
      if !env.keep {
        ClosingStill(f, id, Error, env.freed);
        StillTwice(y, f, Drop(Notify(f, id, Closed(Error)), id, env.freed));
      }
    }
  }

  lemma SignalTurned(y: Endpoint, p: Packet, env: Env)
    requires Valid(y) && p.local in y.table && (p.ptype == PENDING || p.ptype == RESUME)
    ensures Turned(y, OnChannel(y, p, env), p)
  {
    var id, ch := p.local, y.table[p.local];
    if p.ptype == PENDING && ch.status == Open { NotifyAdds(y, SetChannel(y, id, ch.remote, Pending), id, Pend); }
    if p.ptype == RESUME && ch.status == Pending { NotifyAdds(y, SetChannel(y, id, ch.remote, Open), id, Resume); }
  }

  /** Nothing is held or released, and no channel changes its status. */
  ghost predicate Steady(y: Endpoint, z: Endpoint) {
    Still(y, z) && forall b :: b in z.table && b in y.table ==> z.table[b].status == y.table[b].status
  }

  lemma CallSteady(y: Endpoint, c: Call, env: Env)
    requires Numbered(y)
    ensures Steady(y, OnCall(y, c, env).0)
  {
    if c.CloseChannel? && c.id in y.table {
      ClosingStill(y, c.id, Normal, env.freed);
    } else if c.ExpireChannel? && c.id in y.table {
      ClosingStill(y, c.id, Timeout, env.freed);
    } else if c.CloseAll? && c.id in y.table {
      ClosingStill(y, c.id, c.reason, env.freed);
    } else if c.OpenChannel? && NewId(y) != -1 {
      NewIsFresh(y);
    }
  }

  lemma OpenSteady(y: Endpoint, p: Packet, env: Env)
    requires Numbered(y)
    ensures Steady(y, OnOpen(y, p, env).0)
  {
    if TypeAllowed(p.option, env) && NewId(y) != -1 {
      NewIsFresh(y);
      var id := NewId(y);
      var e := Create(y, p.option, p.remote, Passive(p.remote));
      if env.accept && env.sent {
        NotifyStill(y, SetChannel(e, id, p.remote, Open), id, Opened);
      } else if env.accept {
        ClosingStill(e, id, Error, env.freed);
      }
    }
  }

  /** A step that holds and releases nothing leaves the effects as they are. */
  lemma SteadyEffective(y: Endpoint, z: Endpoint, heard: Signals)
    requires Effective(y, heard) && Steady(y, z)
    requires forall b :: b in z.table && b !in y.table ==> z.table[b].status != Pending && On(heard, b) == []
    ensures Effective(z, heard)
  {
  }

  /** A signal takes effect on its channel. */
  lemma TurnedEffective(y: Endpoint, z: Endpoint, p: Packet, heard: Signals)
    requires Numbered(y) && Effective(y, heard) && p.local in y.table && Turned(y, z, p)
    requires SignalOf(p) != [] ==> y.table[p.local].status != Opening
    ensures Effective(z, HeardNext(y, p, heard))
  {
    if SignalOf(p) == [] {
      QuietEffective(y, z, p, heard);
    } else {
      SignalEffective(y, z, p, heard);
    }
  }

  lemma QuietEffective(y: Endpoint, z: Endpoint, p: Packet, heard: Signals)
    requires Effective(y, heard) && p.local in y.table && Turned(y, z, p) && SignalOf(p) == []
    ensures Effective(z, heard)
  {
  }

  lemma SignalEffective(y: Endpoint, z: Endpoint, p: Packet, heard: Signals)
    requires Numbered(y) && Effective(y, heard) && p.local in y.table && Turned(y, z, p)
    requires SignalOf(p) != [] && y.table[p.local].status != Opening
    ensures Effective(z, With(heard, p.local, SignalOf(p)))
  {
    forall b | b in z.table ensures HeldRight(z.table[b].status, On(With(heard, p.local, SignalOf(p)), b)) {
      SignalHeld(y, z, p, heard, b);
    }
    forall b ensures HoldsOf(EventsOf(z, b)) == Effects(On(With(heard, p.local, SignalOf(p)), b)) {
      if b == p.local { OneEffect(y, z, p, heard); } else { OtherEffect(y, z, p, heard, b); }
    }
  }

  lemma SignalHeld(y: Endpoint, z: Endpoint, p: Packet, heard: Signals, b: nat)
    requires Effective(y, heard) && p.local in y.table && Turned(y, z, p) && b in z.table
    requires SignalOf(p) != [] && y.table[p.local].status != Opening
    ensures HeldRight(z.table[b].status, On(With(heard, p.local, SignalOf(p)), b))
  {
    if b == p.local { OneHeld(y.table[b].status, On(heard, b), p); }
  }

  lemma OneHeld(status: Status, l: seq<Signal>, p: Packet)
    requires SignalOf(p) != [] && status != Opening && HeldRight(status, l)
    ensures HeldRight(StatusAfter(status, p), l + SignalOf(p))
  {
    assert SignalOf(p) == [SignalOf(p)[0]];
    EffectsSnoc(l, SignalOf(p)[0]);
  }

  lemma OtherEffect(y: Endpoint, z: Endpoint, p: Packet, heard: Signals, b: nat)
    requires Numbered(y) && Effective(y, heard) && p.local in y.table && Turned(y, z, p) && b != p.local
    ensures HoldsOf(EventsOf(z, b)) == Effects(On(With(heard, p.local, SignalOf(p)), b))
  {
  }

  lemma OneEffect(y: Endpoint, z: Endpoint, p: Packet, heard: Signals)
    requires Numbered(y) && Effective(y, heard) && p.local in y.table && Turned(y, z, p)
    requires SignalOf(p) != [] && y.table[p.local].status != Opening
    ensures HoldsOf(EventsOf(z, p.local)) == Effects(On(heard, p.local) + SignalOf(p))
  {
    var id := p.local;
    EffectOn(y.table[id].status, On(heard, id), p, HoldsOf(EventsOf(y, id)), HoldsOf(EventsOf(z, id)));
  }

  lemma EffectOn(status: Status, l: seq<Signal>, p: Packet, before: seq<Event>, after: seq<Event>)
    requires SignalOf(p) != [] && status != Opening && (status == Pending <==> Held(l)) && before == Effects(l)
    requires after == if p.ptype == PENDING && status == Open then before + [Pend]
                      else if p.ptype == RESUME && status == Pending then before + [Resume]
                      else before
    ensures after == Effects(l + SignalOf(p))
  {
    var s := SignalOf(p)[0];
    assert SignalOf(p) == [s] && before + [] == before;
    EffectsSnoc(l, s);
  }

  lemma CallSends(x: Endpoint, y: Endpoint, c: Call, env: Env, asked: Signals)
    requires Numbered(y) && Ends(y.origin, x.origin, y.table)
    ensures Sends(y, OnCall(y, c, env).1, asked, AskedNext(y, c, env, asked))
  {
  }

  lemma CallTurns(x: Endpoint, y: Endpoint, c: Call, env: Env, q: seq<Packet>)
    requires Numbered(y) && Ends(y.origin, x.origin, y.table) && OnCall(y, c, env).0.made <= MAX_CHANNEL_ID
    ensures var z := OnCall(y, c, env).0;
            && Turns(y, z, q, q) && Grown(y.origin, z.origin, x.origin)
            && forall b :: b in z.table && b !in y.table ==> z.table[b].status != Pending
  {
    var z := OnCall(y, c, env).0;
    CallShaped(x, y, c, env, q);
    CallSteady(y, c, env);
    if c.OpenChannel? && c.ctype <= 2 && NewId(y) != -1 {
      IdIsNumber(y);
      assert z.origin == y.origin[y.made + 1 := Active] && Unasked(y.origin, x.origin, Active);
    } else if c.CloseChannel? && c.id in y.table {
      ClosingStill(y, c.id, Normal, env.freed);
    } else {
      CallMakesNone(y, c, env);
    }
  }

  lemma PacketTurns(x: Endpoint, y: Endpoint, q: seq<Packet>, env: Env)
    requires Numbered(y) && Ends(y.origin, x.origin, y.table) && q != [] && Opens(x.origin, y.origin, q)
    requires OnPacket(y, q[0], env).0.made <= MAX_CHANNEL_ID
    ensures var z := OnPacket(y, q[0], env).0;
            && Turns(y, z, q, q[1..]) && Grown(y.origin, z.origin, x.origin)
            && forall b :: b in z.table && b !in y.table ==> z.table[b].status != Pending
  {
    PacketShaped(x, y, q, env);
    if q[0].ptype == OPEN {
      AnswerTurns(x, y, q, env);
    } else if q[0].local in y.table {
      ChannelTurned(y, q[0], env);
    }
  }

  lemma AnswerTurns(x: Endpoint, y: Endpoint, q: seq<Packet>, env: Env)
    requires Numbered(y) && q != [] && Opens(x.origin, y.origin, q) && q[0].ptype == OPEN
    requires OnOpen(y, q[0], env).0.made <= MAX_CHANNEL_ID
    ensures var z := OnOpen(y, q[0], env).0;
            && Grown(y.origin, z.origin, x.origin) && Steady(y, z)
            && forall b :: b in z.table && b !in y.table ==> z.table[b].status != Pending
  {
    OpenSteady(y, q[0], env);
    AnswerGrows(x, y, q, env);
    AnswerNotPending(y, q[0], env);
  }

  lemma AnswerGrows(x: Endpoint, y: Endpoint, q: seq<Packet>, env: Env)
    requires Numbered(y) && q != [] && Opens(x.origin, y.origin, q) && q[0].ptype == OPEN
    requires OnOpen(y, q[0], env).0.made <= MAX_CHANNEL_ID
    ensures Grown(y.origin, OnOpen(y, q[0], env).0.origin, x.origin)
  {
    AskedOnce(x, y, q);
    if TypeAllowed(q[0].option, env) && NewId(y) != -1 {
      assert OnOpen(y, q[0], env).0.origin == y.origin[y.made + 1 := Passive(q[0].remote)];
    }
  }

  lemma AnswerNotPending(y: Endpoint, p: Packet, env: Env)
    requires Valid(y)
    ensures var z := OnOpen(y, p, env).0; forall b :: b in z.table && b !in y.table ==> z.table[b].status != Pending
  {
  }

  lemma AskedOnce(x: Endpoint, y: Endpoint, q: seq<Packet>)
    requires Opens(x.origin, y.origin, q) && q != [] && q[0].ptype == OPEN
    ensures Unasked(y.origin, x.origin, Passive(q[0].remote))
  {
  }

  /** Packets that are taken never are signals for a channel that still waits. */
  lemma PacketEffective(x: Endpoint, y: Endpoint, q: seq<Packet>, env: Env, asked: Signals, heard: Signals)
    requires Numbered(y) && Ends(y.origin, x.origin, y.table) && q != [] && Opens(x.origin, y.origin, q)
    requires OnPacket(y, q[0], env).0.made <= MAX_CHANNEL_ID
    requires Signalled(x, y, q, asked, heard) && Effective(y, heard)
    ensures Effective(OnPacket(y, q[0], env).0, HeardNext(y, q[0], heard))
  {
    var p := q[0];
    if p.ptype == OPEN {
      AnswerEffective(x, y, q, env, asked, heard);
    } else if p.local in y.table {
      WaitingHearsNone(x, y, q, asked, heard);
      ChannelEffective(y, p, env, heard);
    } else {
      IgnoredEffective(y, p, env, heard);
    }
  }

  lemma AnswerEffective(x: Endpoint, y: Endpoint, q: seq<Packet>, env: Env, asked: Signals, heard: Signals)
    requires Numbered(y) && q != [] && Opens(x.origin, y.origin, q) && q[0].ptype == OPEN
    requires OnOpen(y, q[0], env).0.made <= MAX_CHANNEL_ID && Ends(y.origin, x.origin, y.table)
    requires Signalled(x, y, q, asked, heard) && Effective(y, heard)
    ensures Effective(OnOpen(y, q[0], env).0, heard)
  {
    var z := OnOpen(y, q[0], env).0;
    AnswerTurns(x, y, q, env);
    PacketShaped(x, y, q, env);
    assert forall b :: b in z.table && b !in y.table ==> b !in y.origin;
    SteadyEffective(y, z, heard);
  }

  /** A channel that waits for its confirmation gets no signal. */
  lemma WaitingHearsNone(x: Endpoint, y: Endpoint, q: seq<Packet>, asked: Signals, heard: Signals)
    requires Signalled(x, y, q, asked, heard) && q != [] && q[0].local in y.table
    ensures SignalOf(q[0]) != [] ==> y.table[q[0].local].status != Opening
  {
  }

  lemma ChannelEffective(y: Endpoint, p: Packet, env: Env, heard: Signals)
    requires Numbered(y) && Effective(y, heard) && p.local in y.table && p.ptype != OPEN
    requires SignalOf(p) != [] ==> y.table[p.local].status != Opening
    ensures Effective(OnPacket(y, p, env).0, HeardNext(y, p, heard))
  {
    ChannelTurned(y, p, env);
    TurnedEffective(y, OnChannel(y, p, env), p, heard);
  }

  lemma IgnoredEffective(y: Endpoint, p: Packet, env: Env, heard: Signals)
    requires Valid(y) && Effective(y, heard) && p.local !in y.table && p.ptype != OPEN
    ensures Effective(OnPacket(y, p, env).0, HeardNext(y, p, heard))
  {
    SteadyEffective(y, OnPacket(y, p, env).0, heard);
  }

  // ----- runs -----

  /** The signals one side sent by its calls, and those it received, by its channels. */
  datatype Talk = Talk(asked: Signals, heard: Signals)

  datatype Talks = Talks(left: Talk, right: Talk)

  ghost function TalksNext(s: System, m: Move, t: Talks): Talks {
    match m
    case Calls(Left, c, env) => t.(left := t.left.(asked := AskedNext(s.left, c, env, t.left.asked)))
    case Calls(Right, c, env) => t.(right := t.right.(asked := AskedNext(s.right, c, env, t.right.asked)))
    case Receives(Left, env) =>
      if s.toLeft == [] then t else t.(left := t.left.(heard := HeardNext(s.left, s.toLeft[0], t.left.heard)))
    case Receives(Right, env) =>
      if s.toRight == [] then t else t.(right := t.right.(heard := HeardNext(s.right, s.toRight[0], t.right.heard)))
  }

  ghost function TalksAfter(moves: seq<Move>): Talks {
    if moves == [] then Talks(Talk(map[], map[]), Talk(map[], map[]))
    else TalksNext(After(moves[..|moves| - 1]), moves[|moves| - 1], TalksAfter(moves[..|moves| - 1]))
  }

  /** What x asked of y was heard or is on the way, and had its effects. */
  ghost predicate Obeyed(x: Endpoint, y: Endpoint, q: seq<Packet>, asked: Signals, heard: Signals) {
    Signalled(x, y, q, asked, heard) && Effective(y, heard)
  }

  ghost predicate AllObeyed(s: System, t: Talks) {
    && Obeyed(s.left, s.right, s.toRight, t.left.asked, t.right.heard)
    && Obeyed(s.right, s.left, s.toLeft, t.right.asked, t.left.heard)
  }

  /** A call of y. */
  lemma CallObeys(x: Endpoint, y: Endpoint, q: seq<Packet>, r: seq<Packet>, c: Call, env: Env, mine: Talk, other: Talk)
    requires Numbered(y) && Halves(x, y, q, r) && OnCall(y, c, env).0.made <= MAX_CHANNEL_ID
    requires Obeyed(x, y, q, other.asked, mine.heard) && Obeyed(y, x, r, mine.asked, other.heard)
    ensures var s := OnCall(y, c, env);
            && Obeyed(x, s.0, q, other.asked, mine.heard)
            && Obeyed(s.0, x, r + s.1, AskedNext(y, c, env, mine.asked), other.heard)
  {
    LookBoth(x, y, q, r);
    var s := OnCall(y, c, env);
    CallTurns(x, y, c, env, q);
    CallSends(x, y, c, env, mine.asked);
    CallSteady(y, c, env);
    SteadyEffective(y, s.0, mine.heard);
    HearingKeeps(x, y, s.0, q, q, other.asked, mine.heard);
    AskingKeeps(x, y, s.0, r, s.1, mine.asked, AskedNext(y, c, env, mine.asked), other.heard);
  }

  /** y receives the next packet. */
  lemma ReceiptObeys(x: Endpoint, y: Endpoint, q: seq<Packet>, r: seq<Packet>, env: Env, mine: Talk, other: Talk)
    requires Numbered(y) && Halves(x, y, q, r) && q != [] && OnPacket(y, q[0], env).0.made <= MAX_CHANNEL_ID
    requires Obeyed(x, y, q, other.asked, mine.heard) && Obeyed(y, x, r, mine.asked, other.heard)
    ensures var s := OnPacket(y, q[0], env);
            && Obeyed(x, s.0, q[1..], other.asked, HeardNext(y, q[0], mine.heard))
            && Obeyed(s.0, x, r + s.1, mine.asked, other.heard)
  {
    LookBoth(x, y, q, r);
    var s := OnPacket(y, q[0], env);
    AnswersNoSignals(y, q, env, mine);
    PacketTurns(x, y, q, env);
    PacketEffective(x, y, q, env, other.asked, mine.heard);
    HearingKeeps(x, y, s.0, q, q[1..], other.asked, mine.heard);
    AskingKeeps(x, y, s.0, r, s.1, mine.asked, mine.asked, other.heard);
  }

  lemma AnswersNoSignals(y: Endpoint, q: seq<Packet>, env: Env, mine: Talk)
    requires Valid(y) && q != []
    ensures Sends(y, OnPacket(y, q[0], env).1, mine.asked, mine.asked)
    ensures HeardAfter(y, q, q[1..], mine.heard) == HeardNext(y, q[0], mine.heard)
  {
    assert |q[1..]| != |q|;
  }

  lemma MoveObeys(s: System, m: Move, t: Talks)
    requires Inv(s) && WithinIds(Advance(s, m)) && AllObeyed(s, t)
    ensures AllObeyed(Advance(s, m), TalksNext(s, m, t))
  {
    HalvesSymmetric(s.left, s.right, s.toRight, s.toLeft);
    match m {
      case Calls(Left, c, env) =>
        CallObeys(s.right, s.left, s.toLeft, s.toRight, c, env, t.left, t.right);
      case Calls(Right, c, env) =>
        CallObeys(s.left, s.right, s.toRight, s.toLeft, c, env, t.right, t.left);
      case Receives(Left, env) =>
        if s.toLeft != [] { ReceiptObeys(s.right, s.left, s.toLeft, s.toRight, env, t.left, t.right); }
      case Receives(Right, env) =>
        if s.toRight != [] { ReceiptObeys(s.left, s.right, s.toRight, s.toLeft, env, t.right, t.left); }
    }
  }

  lemma {:induction false} RunObeys(moves: seq<Move>)
    requires WithinIds(After(moves))
    ensures AllObeyed(After(moves), TalksAfter(moves))
  {
    if moves != [] {
      var n := |moves| - 1;
      MadeGrows(After(moves[..n]), moves[n]);
      RunObeys(moves[..n]);
      RunKeepsInv(moves[..n]);
      MoveObeys(After(moves[..n]), moves[n], TalksAfter(moves[..n]));
    }
  }

  // ----- what holding promises -----

  /** `holds` are the effects of the first so many signals asked; while the end is there, of all
      but those coming, and it is pending exactly if the last of them holds. */
  ghost predicate Arrived(asked: seq<Signal>, holds: seq<Event>, alive: bool, pending: bool, coming: seq<Signal>) {
    && (exists k :: 0 <= k <= |asked| && holds == Effects(asked[..k]))
    && (alive ==>
          && |coming| <= |asked| && asked[|asked| - |coming|..] == coming
          && holds == Effects(asked[..|asked| - |coming|])
          && (pending <==> Held(asked[..|asked| - |coming|])))
  }

  lemma CarriedArrived(asked: seq<Signal>, heard: seq<Signal>, alive: bool, pending: bool, coming: seq<Signal>)
    requires Carried(asked, heard, alive, coming) && (alive ==> (pending <==> Held(heard)))
    ensures Arrived(asked, Effects(heard), alive, pending, coming)
  {
    assert asked[..|heard|] == heard;
  }

  /** What the other side sees of the signals of x. */
  ghost predicate SignalsArrive(x: Endpoint, y: Endpoint, q: seq<Packet>, asked: Signals) {
    forall a, b :: Paired(x, a, y, b) ==>
      Arrived(On(asked, a), HoldsOf(EventsOf(y, b)), b in y.table, b in y.table && y.table[b].status == Pending,
              SignalsFor(q, b))
  }

  lemma ObeyedArrive(x: Endpoint, y: Endpoint, q: seq<Packet>, r: seq<Packet>, asked: Signals, heard: Signals)
    requires Halves(x, y, q, r) && Obeyed(x, y, q, asked, heard)
    ensures SignalsArrive(x, y, q, asked)
  {
    LookBoth(x, y, q, r);
    PairedIsLinked(x, y);
    forall a, b | Paired(x, a, y, b)
      ensures Arrived(On(asked, a), HoldsOf(EventsOf(y, b)), b in y.table, b in y.table && y.table[b].status == Pending,
                      SignalsFor(q, b))
    {
      CarriedArrived(On(asked, a), On(heard, b), b in y.table, b in y.table && y.table[b].status == Pending,
                     SignalsFor(q, b));
    }
  }

  /** In every run of two peers within the ids: the pending and resume callbacks on one end of a
      channel are the effects of the first so many pend and resume calls on the other end that
      were sent; while the end is there, of all but those on the way, and it is pending exactly
      if the last of them was a pend. */
  lemma SignalsAreFaithful(moves: seq<Move>)
    requires WithinIds(After(moves))
    ensures var s, t := After(moves), TalksAfter(moves);
            && SignalsArrive(s.left, s.right, s.toRight, t.left.asked)
            && SignalsArrive(s.right, s.left, s.toLeft, t.right.asked)
  {
    var s, t := After(moves), TalksAfter(moves);
    RunObeys(moves);
    RunKeepsInv(moves);
    HalvesSymmetric(s.left, s.right, s.toRight, s.toLeft);
    ObeyedArrive(s.left, s.right, s.toRight, s.toLeft, t.left.asked, t.right.heard);
    ObeyedArrive(s.right, s.left, s.toLeft, s.toRight, t.right.asked, t.left.heard);
  }
}
