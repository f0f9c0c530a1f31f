/** When channels time out, in microseconds: what a checkpoint closes and reminds, what moves
    the times of a channel, and that a channel that hears of its peer is never timed out. */
module Timeouts {
  import opened Bytes
  import opened Options
  import opened Wire
  import opened Multiplexer
  import opened MultiplexHandler
  import opened HandlerRuns

  function Micros(t: Time): int { t.sec * 1_000_000 + t.usec }

  /** `ms` milliseconds have passed, as the source computes it: where the microseconds of now are
      fewer than those of then, up to 999 microseconds earlier. */
  ghost predicate Passed(now: Time, since: Time, ms: int) {
    Micros(now) - Micros(since) >= ms * 1000 - (if now.usec < since.usec then 999 else 0)
  }

  /** The channel has a timeout, in seconds, and nothing moved on it for so long, or nothing was
      heard for 130 seconds. */
  ghost predicate TimedOut(c: Clock, now: Time) {
    (c.timeout != 0 && Passed(now, c.active, c.timeout * 1000)) || Passed(now, c.heard, 130_000)
  }

  /** Nothing was sent on it for 30 seconds. */
  ghost predicate Silent(c: Clock, now: Time) { Passed(now, c.spoke, 30_000) }

  lemma IntervalPassed(now: Time, since: Time, ms: int)
    ensures Interval(now, since) >= ms <==> Passed(now, since, ms)
  {
    var d, m := now.usec - since.usec, ms - (now.sec - since.sec) * 1000;
    assert Interval(now, since) >= ms <==> Thousandth(d) >= m;
    ThousandthAtLeast(d, m);
    assert Micros(now) - Micros(since) == (now.sec - since.sec) * 1_000_000 + d;
  }

  lemma ThousandthAtLeast(a: int, m: int)
    ensures Thousandth(a) >= m <==> a >= m * 1000 - (if a < 0 then 999 else 0)
  {
  }

  lemma ExpiryPassed(c: Clock, now: Time)
    ensures Expired(c, now) <==> TimedOut(c, now)
    ensures Due(c, now) <==> Silent(c, now)
  {
    IntervalPassed(now, c.active, c.timeout * 1000);
    IntervalPassed(now, c.heard, 130_000);
    IntervalPassed(now, c.spoke, 30_000);
  }

  // ----- what a checkpoint does -----

  /** A keep-alive for the channel, type 4 on the wire. */
  ghost function Reminder(e: Endpoint, id: nat): Packet
    requires id in e.table
  {
    Packet(4, 0, e.table[id].remote, id, [])
  }

  /** A checkpoint closes a channel, with the reason timeout, exactly if it timed out, and leaves
      all others as they were. */
  lemma CheckpointCloses(e: Endpoint, c: Clocks, o: seq<nat>, w: World, fs: seq<bool>, f: Endpoint, id: nat)
    requires Multiplexer.Valid(e) && Consistent(e) && InOrder(o, e.table) && Covers(o, c) && c.Keys == e.table.Keys
    requires |fs| == |o| && id in e.table && f == RunFrom(e, Decisions(o, c, w, fs))
    ensures (id in f.table <==> !TimedOut(c[id], w.now)) && (id in f.table ==> f.table[id] == e.table[id])
    ensures EventsOf(f, e.table[id].num)
            == EventsOf(e, e.table[id].num) + if TimedOut(c[id], w.now) then [Closed(Timeout)] else []
  {
    AllDecided(e, o, c, w, fs);
    ClosedOne(e, f, c, o, w, id);
  }

  lemma AllDecided(e: Endpoint, o: seq<nat>, c: Clocks, w: World, fs: seq<bool>)
    requires Multiplexer.Valid(e) && InOrder(o, e.table) && Covers(o, c) && c.Keys == e.table.Keys && |fs| == |o|
    ensures JustClosed(e, RunFrom(e, Decisions(o, c, w, fs)), Leaving(o, c, w), Timeout)
  {
    DecisionsMean(e, o, c, w, fs, |o|);
    Whole(o, fs);
  }

  /** It sends nothing but keep-alives: exactly for the channels that stay, are silent, and whose
      packet the lower layer takes. */
  lemma CheckpointReminds(e: Endpoint, c: Clocks, o: seq<nat>, w: World, fs: seq<bool>, p: Packet)
    requires Multiplexer.Valid(e) && InOrder(o, e.table) && Covers(o, c) && c.Keys == e.table.Keys && |fs| == |o|
    ensures p in Outputs(e, Decisions(o, c, w, fs)) <==>
            exists id :: && id in e.table && p == Packet(4, 0, e.table[id].remote, id, [])
                         && !TimedOut(c[id], w.now) && Silent(c[id], w.now) && w.takes(id)
  {
    RemindersSent(e, o, c, w, fs, |o|);
    Whole(o, fs);
    if id :| id in e.table && p == Reminder(e, id) && !TimedOut(c[id], w.now) && Silent(c[id], w.now) && w.takes(id) {
      RemindedOne(e, o, c, w, id);
    }
    if IsReminder(e, o, c, w, p) {
      var id :| id in o && id in e.table && id in c && p == Reminder(e, id) && Reminded(c[id], w, id);
      ExpiryPassed(c[id], w.now);
    }
  }

  lemma Whole(o: seq<nat>, fs: seq<bool>)
    ensures o[..|o|] == o && fs[..|fs|] == fs
  {
  }

  lemma ClosedOne(e: Endpoint, f: Endpoint, c: Clocks, o: seq<nat>, w: World, id: nat)
    requires Consistent(e) && InOrder(o, e.table) && Covers(o, c) && id in e.table && id in c
    requires JustClosed(e, f, Leaving(o, c, w), Timeout)
    ensures (id in f.table <==> !TimedOut(c[id], w.now)) && (id in f.table ==> f.table[id] == e.table[id])
    ensures EventsOf(f, e.table[id].num)
            == EventsOf(e, e.table[id].num) + if TimedOut(c[id], w.now) then [Closed(Timeout)] else []
  {
    LeavingMembers(o, c, w, id);
    ExpiryPassed(c[id], w.now);
    GoneIs(e, Leaving(o, c, w), id);
  }

  lemma RemindedOne(e: Endpoint, o: seq<nat>, c: Clocks, w: World, id: nat)
    requires InOrder(o, e.table) && id in e.table && id in c
    ensures IsReminder(e, o, c, w, Reminder(e, id)) <==>
            !TimedOut(c[id], w.now) && Silent(c[id], w.now) && w.takes(id)
  {
    ExpiryPassed(c[id], w.now);
    assert id in o;
  }

  lemma {:induction false} LeavingMembers(o: seq<nat>, c: Clocks, w: World, id: nat)
    requires Covers(o, c)
    ensures id in Leaving(o, c, w) <==> id in o && Expired(c[id], w.now)
  {
    if o != [] {
      var n := |o| - 1;
      LeavingMembers(o[..n], c, w, id);
      assert o == o[..n] + [o[n]];
    }
  }

  lemma GoneIs(e: Endpoint, removed: seq<nat>, id: nat)
    requires Consistent(e) && id in e.table
    ensures Gone(e, removed, e.table[id].num) <==> id in removed
  {
  }

  /** What the first n decisions send: keep-alives, for exactly these channels. */
  lemma {:induction false} RemindersSent(e: Endpoint, o: seq<nat>, c: Clocks, w: World, fs: seq<bool>, n: nat)
    requires Multiplexer.Valid(e) && InOrder(o, e.table) && Covers(o, c) && c.Keys == e.table.Keys && n <= |o| == |fs|
    ensures Covers(o[..n], c)
    ensures AllReminders(Outputs(e, Decisions(o[..n], c, w, fs[..n])), e, o[..n], c, w)
  {
    if n == 0 {
      assert Decisions(o[..0], c, w, fs[..0]) == [];
    } else {
      RemindersSent(e, o, c, w, fs, n - 1);
      StillThere(e, o, c, w, fs, n - 1);
      RemindersNext(e, o, c, w, fs, n - 1);
    }
  }

  /** The channel that is next is as it was. */
  lemma StillThere(e: Endpoint, o: seq<nat>, c: Clocks, w: World, fs: seq<bool>, k: nat)
    requires Multiplexer.Valid(e) && InOrder(o, e.table) && Covers(o, c) && c.Keys == e.table.Keys && k < |o| == |fs|
    ensures Covers(o[..k], c)
    ensures var f := RunFrom(e, Decisions(o[..k], c, w, fs[..k]));
            o[k] in e.table && o[k] in f.table && f.table[o[k]] == e.table[o[k]]
  {
    DecisionsMean(e, o, c, w, fs, k);
    LeavingMembers(o[..k], c, w, o[k]);
    assert o[k] in o && o[k] !in o[..k];
  }

  lemma RemindersNext(e: Endpoint, o: seq<nat>, c: Clocks, w: World, fs: seq<bool>, k: nat)
    requires k < |o| == |fs| && Multiplexer.Valid(e) && Covers(o, c) && Covers(o[..k], c) && o[k] in e.table
    requires var f := RunFrom(e, Decisions(o[..k], c, w, fs[..k])); o[k] in f.table && f.table[o[k]] == e.table[o[k]]
    requires AllReminders(Outputs(e, Decisions(o[..k], c, w, fs[..k])), e, o[..k], c, w)
    ensures Covers(o[..k + 1], c)
    ensures AllReminders(Outputs(e, Decisions(o[..k + 1], c, w, fs[..k + 1])), e, o[..k + 1], c, w)
  {
    assert fs[..k + 1] == fs[..k] + [fs[k]];
    DecisionsNext(e, o, c, w, k, fs[..k], fs[k]);
    DecisionSends(e, RunFrom(e, Decisions(o[..k], c, w, fs[..k])), o[k], c[o[k]], w, fs[k]);
    OneMoreReminder(e, o, c, w, k, Outputs(e, Decisions(o[..k], c, w, fs[..k])));
  }

  lemma OneMoreReminder(e: Endpoint, o: seq<nat>, c: Clocks, w: World, k: nat, out: seq<Packet>)
    requires k < |o| && o[k] in e.table && o[k] in c
    requires AllReminders(out, e, o[..k], c, w)
    ensures AllReminders(out + if Reminded(c[o[k]], w, o[k]) then [Reminder(e, o[k])] else [], e, o[..k + 1], c, w)
  {
    var more := out + if Reminded(c[o[k]], w, o[k]) then [Reminder(e, o[k])] else [];
    var all := o[..k + 1];
    forall p ensures p in more <==> IsReminder(e, all, c, w, p) {
      IsReminderNext(e, o, c, w, k, p);
    }
  }

  lemma IsReminderNext(e: Endpoint, o: seq<nat>, c: Clocks, w: World, k: nat, p: Packet)
    requires k < |o| && o[k] in e.table && o[k] in c
    ensures IsReminder(e, o[..k + 1], c, w, p) <==>
            IsReminder(e, o[..k], c, w, p) || (p == Reminder(e, o[k]) && Reminded(c[o[k]], w, o[k]))
  {
    assert o[..k + 1] == o[..k] + [o[k]];
  }

  ghost predicate AllReminders(out: seq<Packet>, e: Endpoint, o: seq<nat>, c: Clocks, w: World) {
    forall p :: p in out <==> IsReminder(e, o, c, w, p)
  }

  ghost predicate IsReminder(e: Endpoint, o: seq<nat>, c: Clocks, w: World, p: Packet) {
    exists id :: id in o && id in e.table && id in c && p == Reminder(e, id) && Reminded(c[id], w, id)
  }

  ghost predicate Reminded(c: Clock, w: World, id: nat) {
    !Expired(c, w.now) && Due(c, w.now) && w.takes(id)
  }

  lemma DecisionSends(e: Endpoint, f: Endpoint, id: nat, c: Clock, w: World, freed: bool)
    requires Multiplexer.Valid(f) && id in e.table && id in f.table && f.table[id] == e.table[id]
    ensures Decided(f, Decision(id, c, w, freed)).1 == if Reminded(c, w, id) then [Reminder(e, id)] else []
  {
  }

  /** The times after a checkpoint: a reminder that is taken is the last thing sent, all else stays. */
  lemma CheckpointTimes(c: Clocks, w: World, id: nat)
    requires id in c
    ensures id in Checked(c, w) <==> !TimedOut(c[id], w.now)
    ensures id in Checked(c, w) ==>
              Checked(c, w)[id] == Clock(c[id].timeout, c[id].active, c[id].heard,
                                         if Silent(c[id], w.now) && w.takes(id) then w.now else c[id].spoke)
  {
    ExpiryPassed(c[id], w.now);
  }

  // ----- what moves the times -----

  /** The packet means something to the channel: a confirmation it waits for, data, a pending
      while it is open, a resume while it is pending. */
  ghost predicate Heeded(p: Packet, status: Status, env: Env) {
    || (p.ptype == 2 && status == Opening && p.remote != 0)
    || (p.ptype == 3 && status != Opening && env.keep)
    || (p.ptype == 5 && status == Open)
    || (p.ptype == 6 && status == Pending)
  }

  /** What receiving a packet does to the times of a channel of the table: one that means
      something is heard and counts as activity, a keep-alive is heard, and what is sent is
      not touched. */
  lemma ReceiptTimes(e: Endpoint, c: Clocks, p: Packet, env: Env, now: Time, id: nat)
    requires Multiplexer.Valid(e) && c.Keys == e.table.Keys && id in c && id != 0
    ensures var d := OnPacketClocks(e, c, p, env, now);
            id in d ==>
              d[id] == if p.local == id && p.ptype == 4 then Clock(c[id].timeout, c[id].active, now, c[id].spoke)
                       else if p.local == id && p.ptype != 1 && Heeded(p, e.table[id].status, env)
                       then Clock(c[id].timeout, now, now, c[id].spoke)
                       else c[id]
  {
    if p.ptype == OPEN && NewId(e) != -1 { NewIsFresh(e); }
  }

  /** What sending data, a pending or a resume does: activity, and the last thing sent. */
  lemma SendingTimes(c: Clocks, id: nat, now: Time)
    requires id in c
    ensures Spoken(c, id, now) == c[id := Clock(c[id].timeout, now, c[id].heard, now)]
  {
  }

  /** A channel starts with no timeout of its own if the peer asked for it; it was just heard of
      and active, and nothing was ever sent on it. */
  lemma FirstTimes(e: Endpoint, c: Clocks, p: Packet, env: Env, now: Time, id: nat)
    requires Multiplexer.Valid(e) && c.Keys == e.table.Keys && id !in c
    ensures var d := OnPacketClocks(e, c, p, env, now);
            id in d ==> p.ptype == 1 && id == NewId(e) && d[id] == Clock(0, now, now, Time(0, 0))
  {
  }

  /** A channel that this side opens times out when its timeout, or 130 seconds, have passed since. */
  lemma RequestTimes(op: HandlerOp, e: Endpoint, c: Clocks, ins: seq<Input>, later: Time)
    requires Multiplexer.Valid(e) && Stands(op, e, c, ins) && op.Request? && op.ctype <= 2 && op.w.sent
    requires NewId(e) != -1
    ensures var d := NextClocks(op, e, c, ins);
            && d.Keys == c.Keys + {NewId(e)}
            && (TimedOut(d[NewId(e)], later) <==>
                  || (op.timeout != 0 && Passed(later, op.w.now, op.timeout * 1000))
                  || Passed(later, op.w.now, 130_000))
            && (Silent(d[NewId(e)], later) <==> Passed(later, Time(0, 0), 30_000))
  {
  }

  // ----- who hears of its peer is not timed out -----

  /** The operation delivers a keep-alive or data for the channel, and its callback keeps it. */
  ghost predicate Hears(op: HandlerOp, e: Endpoint, id: nat) {
    && op.Deliver? && Parse(op.frame).Some? && Parse(op.frame).value.local == id && id in e.table && id != 0
    && (|| Parse(op.frame).value.ptype == 4
        || (Parse(op.frame).value.ptype == 3 && e.table[id].status != Opening && op.w.keep))
  }

  /** A step leaves the timeout of a channel alone; what it heard last is as it was or now. */
  lemma StepTimes(op: HandlerOp, e: Endpoint, c: Clocks, ins: seq<Input>, id: nat)
    requires Multiplexer.Valid(e) && Stands(op, e, c, ins) && c.Keys == e.table.Keys && id in c && id != 0
    ensures var d := NextClocks(op, e, c, ins);
            id in d ==> && d[id].timeout == c[id].timeout && (d[id].heard == c[id].heard || d[id].heard == op.w.now)
                        && (Hears(op, e, id) ==> d[id].heard == op.w.now)
  {
    match op
    case Deliver(frame, w) =>
      if Parse(frame).Some? { ReceiptTimes(e, c, Parse(frame).value, ins[0].env, w.now, id); }
    case Request(_, _, _, _) =>
      if NewId(e) != -1 { NewIsFresh(e); }
    case Check(w) =>
    case _ =>
  }

  /** The clocks are always those of the channels in the table. */
  lemma StepKeys(op: HandlerOp, e: Endpoint, c: Clocks, ins: seq<Input>)
    requires Multiplexer.Valid(e) && Stands(op, e, c, ins) && c.Keys == e.table.Keys
    ensures NextClocks(op, e, c, ins).Keys == RunFrom(e, ins).table.Keys
  {
    match op
    case Deliver(frame, w) =>
      if Parse(frame).Some? {
        RunOne(e, ins[0]);
        ReceiptKeys(e, c, Parse(frame).value, ins[0].env, w.now);
      }
    case Check(w) =>
      var o, fs :| InOrder(o, e.table) && |fs| == |o| && Covers(o, c) && ins == Decisions(o, c, w, fs);
      AllDecided(e, o, c, w, fs);
      CheckedKeys(e, RunFrom(e, ins), o, c, w);
    case ShutAll(reason, w) =>
      var o, fs :| InOrder(o, e.table) && |fs| == |o| && ins == Closings(o, reason, w, fs);
      AllShut(e, o, reason, w, fs);
    case _ =>
      RunOne(e, ins[0]);
      CallKeys(op, e, c, ins);
  }

  lemma ReceiptKeys(e: Endpoint, c: Clocks, p: Packet, env: Env, now: Time)
    requires Multiplexer.Valid(e) && c.Keys == e.table.Keys
    ensures OnPacketClocks(e, c, p, env, now).Keys == OnPacket(e, p, env).0.table.Keys
  {
    if p.ptype == OPEN && NewId(e) != -1 { NewIsFresh(e); }
  }

  lemma CheckedKeys(e: Endpoint, f: Endpoint, o: seq<nat>, c: Clocks, w: World)
    requires InOrder(o, e.table) && Covers(o, c) && c.Keys == e.table.Keys
    requires JustClosed(e, f, Leaving(o, c, w), Timeout)
    ensures Checked(c, w).Keys == f.table.Keys
  {
    forall id ensures id in Checked(c, w) <==> id in f.table { LeavingMembers(o, c, w, id); }
  }

  lemma AllShut(e: Endpoint, o: seq<nat>, reason: Reason, w: World, fs: seq<bool>)
    requires Multiplexer.Valid(e) && InOrder(o, e.table) && |fs| == |o|
    ensures RunFrom(e, Closings(o, reason, w, fs)).table == map[]
  {
    ClosingsMean(e, o, reason, w, fs, |o|);
    Whole(o, fs);
  }

  lemma CallKeys(op: HandlerOp, e: Endpoint, c: Clocks, ins: seq<Input>)
    requires Multiplexer.Valid(e) && Stands(op, e, c, ins) && c.Keys == e.table.Keys
    requires op.Request? || op.Shut? || op.Write? || op.Pause? || op.Continue?
    ensures NextClocks(op, e, c, ins).Keys == OnCall(e, CallOf(op), ins[0].env).0.table.Keys
  {
    if NewId(e) != -1 { NewIsFresh(e); }
  }

  /** An endpoint and the clocks of its channels. */
  datatype State = State(e: Endpoint, c: Clocks)

  ghost predicate Follows(s: State, op: HandlerOp, ins: seq<Input>, t: State) {
    && Multiplexer.Valid(s.e) && Stands(op, s.e, s.c, ins)
    && t.e == RunFrom(s.e, ins) && t.c == NextClocks(op, s.e, s.c, ins)
  }

  /** The states of a run, one before every operation and one at the end. */
  ghost predicate History(states: seq<State>, ops: seq<HandlerOp>, parts: seq<seq<Input>>) {
    && |states| == |ops| + 1 && |parts| == |ops|
    && (forall k :: 0 <= k < |ops| ==> Follows(states[k], ops[k], parts[k], states[k + 1]))
  }

  /** Every run of a handler has such states. */
  lemma {:induction false} RunHasHistory(e: Endpoint, c: Clocks, ops: seq<HandlerOp>, parts: seq<seq<Input>>)
    returns (states: seq<State>)
    requires Multiplexer.Valid(e) && Serves(e, c, ops, parts)
    ensures History(states, ops, parts) && states[0] == State(e, c)
    ensures states[|ops|] == State(RunFrom(e, Concat(parts)), ClocksAfter(e, c, ops, parts))
  {
    if ops == [] {
      states := [State(e, c)];
      assert parts == [];
    } else {
      var n := |ops| - 1;
      var front := RunHasHistory(e, c, ops[..n], parts[..n]);
      LastPart(e, parts);
      var last := State(RunFrom(e, Concat(parts)), ClocksAfter(e, c, ops, parts));
      states := front + [last];
      HistoryNext(front, ops, parts, last);
    }
  }

  lemma LastPart(e: Endpoint, parts: seq<seq<Input>>)
    requires Multiplexer.Valid(e) && parts != []
    ensures var n := |parts| - 1; RunFrom(e, Concat(parts)) == RunFrom(RunFrom(e, Concat(parts[..n])), parts[n])
  {
    var n := |parts| - 1;
    assert parts == parts[..n] + [parts[n]];
    ConcatAppend(parts[..n], [parts[n]]);
    ConcatOne(parts[n]);
    RunAppend(e, Concat(parts[..n]), parts[n]);
  }

  lemma HistoryNext(front: seq<State>, ops: seq<HandlerOp>, parts: seq<seq<Input>>, last: State)
    requires |ops| == |parts| > 0 && History(front, ops[..|ops| - 1], parts[..|ops| - 1])
    requires Follows(front[|ops| - 1], ops[|ops| - 1], parts[|ops| - 1], last)
    ensures History(front + [last], ops, parts)
  {
    var n, states := |ops| - 1, front + [last];
    forall k | 0 <= k < |ops| ensures Follows(states[k], ops[k], parts[k], states[k + 1]) {
      if k < n { assert ops[..n][k] == ops[k] && parts[..n][k] == parts[k]; }
    }
  }

  lemma {:induction false} KeysAgree(states: seq<State>, ops: seq<HandlerOp>, parts: seq<seq<Input>>, n: nat)
    requires History(states, ops, parts) && n <= |ops| && states[0].c.Keys == states[0].e.table.Keys
    ensures states[n].c.Keys == states[n].e.table.Keys
  {
    if n > 0 {
      KeysAgree(states, ops, parts, n - 1);
      assert Follows(states[n - 1], ops[n - 1], parts[n - 1], states[n - 1 + 1]);
      StepKeys(ops[n - 1], states[n - 1].e, states[n - 1].c, parts[n - 1]);
    }
  }

  /** The channel is there from the i-th operation to the n-th, and time does not go back behind
      the i-th. */
  ghost predicate Stays(states: seq<State>, ops: seq<HandlerOp>, i: nat, n: nat, id: nat) {
    && i < n <= |ops| < |states|
    && (forall k :: i <= k <= n ==> id in states[k].c)
    && (forall k :: i <= k < n ==> Micros(ops[k].w.now) >= Micros(ops[i].w.now))
  }

  lemma {:induction false} HeardSince(states: seq<State>, ops: seq<HandlerOp>, parts: seq<seq<Input>>,
                                      i: nat, n: nat, id: nat)
    requires History(states, ops, parts) && states[0].c.Keys == states[0].e.table.Keys
    requires Stays(states, ops, i, n, id) && Hears(ops[i], states[i].e, id)
    ensures states[n].c[id].timeout == states[i].c[id].timeout
    ensures Micros(states[n].c[id].heard) >= Micros(ops[i].w.now)
    decreases n
  {
    var k := n - 1;
    KeysAgree(states, ops, parts, k);
    assert Follows(states[k], ops[k], parts[k], states[k + 1]);
    if k > i { HeardSince(states, ops, parts, i, k, id); }
    StepTimes(ops[k], states[k].e, states[k].c, parts[k], id);
  }

  /** In every run of a handler: a channel without timeout that heard of its peer at some
      operation survives every checkpoint in the 129.999 seconds after it. */
  lemma HeardIsNotTimedOut(states: seq<State>, ops: seq<HandlerOp>, parts: seq<seq<Input>>, i: nat, n: nat, id: nat)
    requires History(states, ops, parts) && states[0].c.Keys == states[0].e.table.Keys
    requires n < |ops| && ops[n].Check? && Stays(states, ops, i, n, id) && Hears(ops[i], states[i].e, id)
    requires states[i].c[id].timeout == 0 && Micros(ops[n].w.now) - Micros(ops[i].w.now) <= 129_999_000
    ensures id in states[n].e.table && id in states[n + 1].e.table
    ensures var num := states[n].e.table[id].num; EventsOf(states[n + 1].e, num) == EventsOf(states[n].e, num)
  {
    HeardSince(states, ops, parts, i, n, id);
    KeysAgree(states, ops, parts, n);
    assert Follows(states[n], ops[n], parts[n], states[n + 1]);
    Survives(states[n].e, states[n].c, ops[n].w, parts[n], states[n + 1].e, id);
  }

  lemma Survives(f: Endpoint, d: Clocks, w: World, ins: seq<Input>, h: Endpoint, id: nat)
    requires Multiplexer.Valid(f) && d.Keys == f.table.Keys && Stands(Check(w), f, d, ins) && h == RunFrom(f, ins)
    requires id in d && d[id].timeout == 0 && Micros(w.now) - Micros(d[id].heard) <= 129_999_000
    ensures id in f.table && id in h.table && EventsOf(h, f.table[id].num) == EventsOf(f, f.table[id].num)
  {
    Look(f);
    var o, fs :| InOrder(o, f.table) && |fs| == |o| && Covers(o, d) && ins == Decisions(o, d, w, fs);
    CheckpointCloses(f, d, o, w, fs, h, id);
    assert EventsOf(f, f.table[id].num) + [] == EventsOf(f, f.table[id].num);
  }
}
