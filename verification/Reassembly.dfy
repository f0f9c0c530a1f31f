/** The stream side of the multiplexer: packets are cut out of arbitrary byte chunks. */
module Reassembly {
  import opened Bytes
  import opened FlexBuffers

  const PROTOCOL_HEAD_LEN := 8

  /** The length a packet announces for itself; its head has payload_len in bytes 6 and 7. */
  function PacketLen(s: seq<Byte>): nat
    requires |s| >= PROTOCOL_HEAD_LEN
  {
    PROTOCOL_HEAD_LEN + Get16(s[6..8])
  }

  /** The check that notify_packet makes on what it is handed. */
  predicate WellFormed(packet: seq<Byte>) {
    |packet| >= PROTOCOL_HEAD_LEN && |packet| == PacketLen(packet)
  }

  /** s starts with a complete packet. */
  predicate Complete(s: seq<Byte>) {
    |s| >= PROTOCOL_HEAD_LEN && |s| >= PacketLen(s)
  }

  // ----- what reassembly should do -----

  /** The complete packets at the front of a byte string ... */
  function Packets(s: seq<Byte>): seq<seq<Byte>>
    decreases |s|
  {
    if !Complete(s) then [] else [s[..PacketLen(s)]] + Packets(s[PacketLen(s)..])
  }

  /** ... and the incomplete one after them. */
  function Rest(s: seq<Byte>): (r: seq<Byte>)
    ensures !Complete(r)
    decreases |s|
  {
    if !Complete(s) then s else Rest(s[PacketLen(s)..])
  }

  /** Every packet that has begun announces a length of at most `room`. */
  predicate Fits(s: seq<Byte>, room: nat)
    decreases |s|
  {
    |s| >= PROTOCOL_HEAD_LEN ==> PacketLen(s) <= room && (Complete(s) ==> Fits(s[PacketLen(s)..], room))
  }

  lemma PrefixPacketLen(s: seq<Byte>, t: seq<Byte>)
    requires |s| >= PROTOCOL_HEAD_LEN
    ensures PacketLen(s + t) == PacketLen(s)
  {
    assert (s + t)[6..8] == s[6..8];
  }

  /** Cutting what is left with more bytes is cutting the whole. */
  lemma {:induction false} CutLater(s: seq<Byte>, t: seq<Byte>)
    ensures Packets(s + t) == Packets(s) + Packets(Rest(s) + t)
    ensures Rest(s + t) == Rest(Rest(s) + t)
    decreases |s|
  {
    if Complete(s) {
      PrefixPacketLen(s, t);
      var n := PacketLen(s);
      assert (s + t)[..n] == s[..n] && (s + t)[n..] == s[n..] + t;
      CutLater(s[n..], t);
    }
  }

  lemma {:induction false} FitsLater(s: seq<Byte>, t: seq<Byte>, room: nat)
    requires Fits(s + t, room)
    ensures Fits(s, room) && Fits(Rest(s) + t, room)
    decreases |s|
  {
    if |s| >= PROTOCOL_HEAD_LEN {
      PrefixPacketLen(s, t);
      if Complete(s) {
        var n := PacketLen(s);
        assert (s + t)[n..] == s[n..] + t;
        FitsLater(s[n..], t, room);
      }
    }
  }

  /** Packets put end to end are cut back into themselves. */
  lemma {:induction false} CutConcat(frames: seq<seq<Byte>>, tail: seq<Byte>)
    requires forall f :: f in frames ==> WellFormed(f)
    requires !Complete(tail)
    ensures Packets(Concat(frames) + tail) == frames && Rest(Concat(frames) + tail) == tail
  {
    if frames == [] {
      assert Concat(frames) + tail == tail;
    } else {
      var f, s := frames[0], Concat(frames[1..]) + tail;
      assert f in frames;
      assert Concat(frames) + tail == f + s;
      PrefixPacketLen(f, s);
      assert (f + s)[..|f|] == f && (f + s)[|f|..] == s;
      CutConcat(frames[1..], tail);
    }
  }

  lemma {:induction false} ConcatFits(frames: seq<seq<Byte>>, tail: seq<Byte>, room: nat)
    requires forall f :: f in frames ==> WellFormed(f) && |f| <= room
    requires !Complete(tail) && (|tail| >= PROTOCOL_HEAD_LEN ==> PacketLen(tail) <= room)
    ensures Fits(Concat(frames) + tail, room)
  {
    if frames == [] {
      assert Concat(frames) + tail == tail;
    } else {
      var f, s := frames[0], Concat(frames[1..]) + tail;
      assert f in frames;
      assert Concat(frames) + tail == f + s;
      PrefixPacketLen(f, s);
      assert (f + s)[..|f|] == f && (f + s)[|f|..] == s;
      ConcatFits(frames[1..], tail, room);
    }
  }

  // ----- what the handler does, whatever the packets -----

  /** What the buffer holds after its offset: 2176 bytes. */
  const ROOM := FLEX_BUFFER_MAX_LEN - FLEX_PADDING_LEN

  /** Appending drops what does not fit. */
  function Clip(s: seq<Byte>): (t: seq<Byte>)
    ensures |t| <= ROOM && t <= s
  {
    if |s| <= ROOM then s else s[..ROOM]
  }

  /** One round with p in the buffer: everything is stored, or a packet is cut off. */
  datatype Round = Stored(pending: seq<Byte>) | Cut(packet: seq<Byte>, rest: seq<Byte>)

  function RoundOf(p: seq<Byte>, c: seq<Byte>): (r: Round)
    ensures r.Cut? ==> |r.rest| < |c| || (|r.rest| == |c| && p != [])
  {
    var s := p + c;
    if !Complete(s) then Stored(Clip(s))
    else
      var n := if PacketLen(s) < |p| then |p| else PacketLen(s);
      Cut(Clip(s[..n]), s[n..])
  }

  /** All rounds of one chunk: what is handed on and what stays in the buffer. */
  function Feed(p: seq<Byte>, c: seq<Byte>): (seq<seq<Byte>>, seq<Byte>)
    decreases |c|, |p|
  {
    if c == [] then ([], p) else
      match RoundOf(p, c)
      case Stored(q) => ([], q)
      case Cut(packet, rest) => ([packet] + Feed([], rest).0, Feed([], rest).1)
  }

  /** When every packet fits this is the cutting it should be. */
  lemma {:induction false} FeedFits(p: seq<Byte>, c: seq<Byte>)
    requires !Complete(p) && Fits(p + c, ROOM)
    ensures Feed(p, c) == (Packets(p + c), Rest(p + c))
    decreases |c|, |p|
  {
    var s := p + c;
    if c == [] {
      assert s == p;
    } else if Complete(s) {
      var n := PacketLen(s);
      if |p| >= PROTOCOL_HEAD_LEN { PrefixPacketLen(p, c); }
      assert [] + s[n..] == s[n..];
      FeedFits([], s[n..]);
    }
  }

  /** Nothing longer than the room is handed on. */
  lemma {:induction false} FeedClips(p: seq<Byte>, c: seq<Byte>)
    ensures forall q :: q in Feed(p, c).0 ==> |q| <= ROOM
    decreases |c|, |p|
  {
    if c != [] {
      var r := RoundOf(p, c);
      if r.Cut? { FeedClips([], r.rest); }
    }
  }

  /** Chunk after chunk. */
  function FeedAll(p: seq<Byte>, chunks: seq<seq<Byte>>): (seq<seq<Byte>>, seq<Byte>) {
    if chunks == [] then ([], p) else
      var before := FeedAll(p, chunks[..|chunks| - 1]);
      var last := Feed(before.1, chunks[|chunks| - 1]);
      (before.0 + last.0, last.1)
  }

  lemma {:induction false} FeedAllClips(p: seq<Byte>, chunks: seq<seq<Byte>>)
    ensures forall q :: q in FeedAll(p, chunks).0 ==> |q| <= ROOM
  {
    if chunks != [] {
      FeedAllClips(p, chunks[..|chunks| - 1]);
      FeedClips(FeedAll(p, chunks[..|chunks| - 1]).1, chunks[|chunks| - 1]);
    }
  }

  /** Having handed on some packets, what q and d give is still owed. */
  ghost predicate Owes(p: seq<Byte>, c: seq<Byte>, handed: seq<seq<Byte>>, q: seq<Byte>, d: seq<Byte>) {
    Feed(p, c) == (handed + Feed(q, d).0, Feed(q, d).1)
  }

  lemma OwesNext(p: seq<Byte>, c: seq<Byte>, handed: seq<seq<Byte>>, q: seq<Byte>, d: seq<Byte>)
    requires Owes(p, c, handed, q, d) && d != []
    ensures RoundOf(q, d).Stored? ==> Feed(p, c) == (handed, RoundOf(q, d).pending)
    ensures RoundOf(q, d).Cut? ==> Owes(p, c, handed + [RoundOf(q, d).packet], [], RoundOf(q, d).rest)
  {
    var r := RoundOf(q, d);
    if r.Stored? { assert handed + [] == handed; } else { Regroup(handed, r.packet, Feed([], r.rest).0); }
  }

  lemma OwesNothing(p: seq<Byte>, c: seq<Byte>, handed: seq<seq<Byte>>, q: seq<Byte>)
    requires Owes(p, c, handed, q, [])
    ensures Feed(p, c) == (handed, q)
  {
    assert handed + [] == handed;
  }

  // ----- the handler -----

  class Reassembler {
    const incomplete: FlexBuffer

    ghost predicate Valid()
      reads this, incomplete
    {
      incomplete.Valid() && incomplete.buffer.Length == FLEX_BUFFER_MAX_LEN && incomplete.offset == FLEX_PADDING_LEN
    }

    function Pending(): seq<Byte>
      requires Valid()
      reads this, incomplete, incomplete.buffer
    {
      incomplete.Data()
    }

    constructor ()
      ensures Valid() && Pending() == [] && fresh(incomplete) && fresh(incomplete.buffer)
    {
      incomplete := new FlexBuffer(FLEX_BUFFER_MAX_LEN, FLEX_PADDING_LEN);
    }

    /** multiplex_handler_notify_data: `handed` is what notify_packet is given, in order. When
        every packet fits, exactly the complete packets are, and the rest is kept. */
    method NotifyData(buf: FlexBuffer) returns (handed: seq<seq<Byte>>)
      requires Valid() && buf.Valid() && buf != incomplete && buf.buffer != incomplete.buffer
      modifies incomplete, incomplete.buffer, buf
      ensures Valid() && (handed, Pending()) == Feed(old(Pending()), old(buf.Data()))
      ensures !old(Complete(Pending())) && Fits(old(Pending() + buf.Data()), ROOM) ==>
                handed == Packets(old(Pending() + buf.Data())) && Pending() == Rest(old(Pending() + buf.Data()))
    {
      handed := [];
      ghost var p, c := Pending(), buf.Data();
      if !Complete(p) && Fits(p + c, ROOM) { FeedFits(p, c); }
      assert [] + Feed(p, c).0 == Feed(p, c).0;
      assert Owes(p, c, [], p, c);
      while buf.size != 0
        invariant Valid() && buf.Valid()
        invariant Owes(p, c, handed, Pending(), buf.Data())
        decreases buf.size, incomplete.size
      {
        OwesNext(p, c, handed, Pending(), buf.Data());
        var more, packet := Round(buf);
        if !more {
          return;
        }
        handed := handed + [packet];
      }
      OwesNothing(p, c, handed, Pending());
    }

    /** One round of the loop: either everything left is stored, or one packet is complete. */
    method Round(buf: FlexBuffer) returns (more: bool, packet: seq<Byte>)
      requires Valid() && buf.Valid() && buf != incomplete && buf.buffer != incomplete.buffer && buf.size != 0
      modifies incomplete, incomplete.buffer, buf
      ensures Valid() && buf.Valid()
      ensures var r := RoundOf(old(Pending()), old(buf.Data()));
              && more == r.Cut? && (r.Stored? ==> Pending() == r.pending)
              && (r.Cut? ==> packet == r.packet && Pending() == [] && buf.Data() == r.rest)
    {
      ghost var p, c := Pending(), buf.Data();
      packet, more := [], false;
      var enough := FillHead(buf);
      if !enough {
        HeadOnly(p, c);
        return;
      }
      FillTwice(p, Pending(), p + c);
      more := FillBody(buf);
      if more {
        packet := incomplete.Data();
        incomplete.Reset(FLEX_PADDING_LEN);
      }
    }

    lemma HeadOnly(p: seq<Byte>, c: seq<Byte>)
      requires |p + c| < PROTOCOL_HEAD_LEN
      ensures RoundOf(p, c) == Stored(p + c)
    {
    }

    /** Completing the head first does not change where the packet ends. */
    lemma FillTwice(p: seq<Byte>, q: seq<Byte>, s: seq<Byte>)
      requires |q| == if |p| < PROTOCOL_HEAD_LEN then PROTOCOL_HEAD_LEN else |p|
      ensures |s| >= PROTOCOL_HEAD_LEN && PacketLen(s) >= PROTOCOL_HEAD_LEN ==>
                (if PacketLen(s) < |p| then |p| else PacketLen(s)) == (if PacketLen(s) < |q| then |q| else PacketLen(s))
    {
    }

    /** The first half: the head of the packet is completed if there are bytes for it. */
    method FillHead(buf: FlexBuffer) returns (enough: bool)
      requires Valid() && buf.Valid() && buf != incomplete && buf.buffer != incomplete.buffer
      modifies incomplete, incomplete.buffer, buf
      ensures Valid() && buf.Valid()
      ensures enough == (old(incomplete.size + buf.size) >= PROTOCOL_HEAD_LEN)
      ensures !enough ==> Pending() == old(Pending() + buf.Data())
      ensures enough ==> Pending() + buf.Data() == old(Pending() + buf.Data())
      ensures enough ==>
                incomplete.size ==
                if old(incomplete.size) < PROTOCOL_HEAD_LEN then PROTOCOL_HEAD_LEN else old(incomplete.size)
    {
      if incomplete.size + buf.size < PROTOCOL_HEAD_LEN {
        incomplete.Append(buf, buf.size);
        return false;
      }
      if incomplete.size < PROTOCOL_HEAD_LEN {
        Take(buf, PROTOCOL_HEAD_LEN - incomplete.size);
      }
      return true;
    }

    /** The second half: the packet is completed if there are bytes for it. */
    method FillBody(buf: FlexBuffer) returns (done: bool)
      requires Valid() && buf.Valid() && buf != incomplete && buf.buffer != incomplete.buffer
      requires incomplete.size >= PROTOCOL_HEAD_LEN
      modifies incomplete, incomplete.buffer, buf
      ensures Valid() && buf.Valid() && done == Complete(old(Pending() + buf.Data()))
      ensures !done ==> Pending() == Clip(old(Pending() + buf.Data()))
      ensures done ==> var s := old(Pending() + buf.Data());
                       var n := if PacketLen(s) < old(incomplete.size) then old(incomplete.size) else PacketLen(s);
                       Pending() == Clip(s[..n]) && buf.Data() == s[n..]
    {
      ghost var s := Pending() + buf.Data();
      PrefixPacketLen(Pending(), buf.Data());
      var total := PacketLen(incomplete.Data());
      if total > incomplete.size + buf.size {
        incomplete.Append(buf, buf.size);
        return false;
      }
      if total > incomplete.size {
        TakeUpTo(buf, total - incomplete.size);
      }
      return true;
    }

    /** Moves bytes that fit from the front of the chunk to the buffer. */
    method Take(buf: FlexBuffer, n: nat)
      requires Valid() && buf.Valid() && buf != incomplete && buf.buffer != incomplete.buffer
      requires n <= buf.size && incomplete.size + n <= ROOM
      modifies incomplete, incomplete.buffer, buf
      ensures Valid() && buf.Valid() && incomplete.size == old(incomplete.size) + n && buf.size == old(buf.size) - n
      ensures Pending() == old(Pending()) + old(buf.Data())[..n] && buf.Data() == old(buf.Data())[n..]
    {
      incomplete.Append(buf, n);
      buf.Forward(n);
    }

    /** The same for bytes that may not fit: the buffer is filled, the chunk loses them all. */
    method TakeUpTo(buf: FlexBuffer, n: nat)
      requires Valid() && buf.Valid() && buf != incomplete && buf.buffer != incomplete.buffer && n <= buf.size
      modifies incomplete, incomplete.buffer, buf
      ensures Valid() && buf.Valid() && buf.Data() == old(buf.Data())[n..]
      ensures Pending() == Clip(old(Pending()) + old(buf.Data())[..n])
    {
      incomplete.Append(buf, n);
      buf.Forward(n);
    }
  }

  // ----- what reassembly promises -----

  method NotifyAll(r: Reassembler, chunks: seq<seq<Byte>>) returns (handed: seq<seq<Byte>>)
    requires r.Valid()
    modifies r.incomplete, r.incomplete.buffer
    ensures r.Valid() && (handed, r.Pending()) == FeedAll(old(r.Pending()), chunks)
  {
    handed := [];
    ghost var p := r.Pending();
    for i := 0 to |chunks|
      invariant r.Valid() && (handed, r.Pending()) == FeedAll(p, chunks[..i])
    {
      var buf := new FlexBuffer.From(FLEX_PADDING_LEN, chunks[i]);
      assert chunks[..i + 1][..i] == chunks[..i];
      var more := r.NotifyData(buf);
      handed := handed + more;
    }
    assert chunks[..|chunks|] == chunks;
  }

  lemma ConcatTake(chunks: seq<seq<Byte>>, i: nat)
    requires i < |chunks|
    ensures Concat(chunks[..i + 1]) == Concat(chunks[..i]) + chunks[i]
    ensures Concat(chunks) == Concat(chunks[..i + 1]) + Concat(chunks[i + 1..])
  {
    TakeNext(chunks, i);
    ConcatAppend(chunks[..i], [chunks[i]]);
    ConcatOne(chunks[i]);
    ConcatAppend(chunks[..i + 1], chunks[i + 1..]);
  }

  lemma ChunkStep(chunks: seq<seq<Byte>>, i: nat)
    requires i < |chunks| && Fits(Concat(chunks), ROOM)
    ensures var before := Concat(chunks[..i]);
            && Fits(Rest(before) + chunks[i], ROOM)
            && Packets(Concat(chunks[..i + 1])) == Packets(before) + Packets(Rest(before) + chunks[i])
            && Rest(Concat(chunks[..i + 1])) == Rest(Rest(before) + chunks[i])
  {
    var before, upto := Concat(chunks[..i]), Concat(chunks[..i + 1]);
    ConcatTake(chunks, i);
    FitsLater(upto, Concat(chunks[i + 1..]), ROOM);
    FitsLater(before, chunks[i], ROOM);
    CutLater(before, chunks[i]);
  }

  lemma {:induction false} FeedAllFits(chunks: seq<seq<Byte>>, n: nat)
    requires n <= |chunks| && Fits(Concat(chunks), ROOM)
    ensures FeedAll([], chunks[..n]) == (Packets(Concat(chunks[..n])), Rest(Concat(chunks[..n])))
  {
    if n == 0 {
      assert chunks[..0] == [];
    } else {
      FeedAllFits(chunks, n - 1);
      ChunkStep(chunks, n - 1);
      assert chunks[..n][..n - 1] == chunks[..n - 1];
      FeedFits(Rest(Concat(chunks[..n - 1])), chunks[n - 1]);
    }
  }

  /** However a stream of packets is cut into chunks, exactly those packets are handed on, in
      order, if and only if each of them fits the buffer. */
  lemma ChunkingIsInvisible(chunks: seq<seq<Byte>>, frames: seq<seq<Byte>>)
    requires Concat(chunks) == Concat(frames) && forall f :: f in frames ==> WellFormed(f)
    ensures FeedAll([], chunks).0 == frames <==> forall f :: f in frames ==> |f| <= 2176
  {
    if forall f :: f in frames ==> |f| <= ROOM {
      assert Concat(frames) + [] == Concat(frames);
      ConcatFits(frames, [], ROOM);
      CutConcat(frames, []);
      FeedAllFits(chunks, |chunks|);
      assert chunks[..|chunks|] == chunks;
    }
    FeedAllClips([], chunks);
  }

  /** In the middle of the stream the complete packets were handed on and the buffer holds
      the beginning of the next one. */
  lemma PartialStream(frames: seq<seq<Byte>>, k: nat, cut: nat)
    requires forall f :: f in frames ==> WellFormed(f)
    requires k < |frames| && cut < |frames[k]|
    ensures var s := Concat(frames[..k]) + frames[k][..cut];
            Packets(s) == frames[..k] && Rest(s) == frames[k][..cut]
            && (|frames[k]| <= ROOM && (forall f :: f in frames[..k] ==> |f| <= ROOM) ==> Fits(s, ROOM))
  {
    var tail := frames[k][..cut];
    assert frames[k] in frames && frames[k] == tail + frames[k][cut..];
    if |tail| >= PROTOCOL_HEAD_LEN { PrefixPacketLen(tail, frames[k][cut..]); }
    CutConcat(frames[..k], tail);
    if |frames[k]| <= ROOM && forall f :: f in frames[..k] ==> |f| <= ROOM {
      ConcatFits(frames[..k], tail, ROOM);
    }
  }

  // ----- packets that do not fit -----

  /** While a packet arrives that is longer than the room, the buffer holds its beginning, and
      what comes when the buffer is full is lost. */
  lemma {:induction false} OversizedSoFar(f: seq<Byte>, chunks: seq<seq<Byte>>, b: seq<Byte>)
    requires WellFormed(f) && |f| > ROOM && f == Concat(chunks) + b && b != []
    ensures FeedAll([], chunks) == ([], Clip(Concat(chunks)))
    decreases |chunks|
  {
    if chunks != [] {
      var n := |chunks| - 1;
      var c, a := chunks[n], Concat(chunks[..n]);
      ConcatTake(chunks, n);
      assert chunks[..n + 1] == chunks;
      AppendAppend(a, c, b);
      OversizedSoFar(f, chunks[..n], c + b);
      OversizedChunk(f, a, c, b);
      FeedAllLast([], chunks, Clip(a));
    }
  }

  lemma FeedAllLast(p: seq<Byte>, chunks: seq<seq<Byte>>, q: seq<Byte>)
    requires chunks != [] && FeedAll(p, chunks[..|chunks| - 1]) == ([], q)
    ensures FeedAll(p, chunks) == Feed(q, chunks[|chunks| - 1])
  {
    var last := Feed(q, chunks[|chunks| - 1]);
    assert [] + last.0 == last.0;
  }

  lemma ClipPrefix(a: seq<Byte>, c: seq<Byte>)
    ensures Clip(Clip(a) + c) == Clip(a + c)
    ensures |a| <= ROOM ==> Clip(a) == a
    ensures |a| > ROOM ==> Clip(a + c) == Clip(a)
  {
  }

  lemma OversizedChunk(f: seq<Byte>, a: seq<Byte>, c: seq<Byte>, b: seq<Byte>)
    requires WellFormed(f) && |f| > ROOM && f == a + (c + b) && b != []
    ensures Feed(Clip(a), c) == ([], Clip(a + c))
  {
    var s := Clip(a) + c;
    ClipPrefix(a, c);
    if c == [] {
      assert a + c == a;
    } else if |s| >= PROTOCOL_HEAD_LEN {
      SameHead(f, s);
    }
  }

  lemma SameHead(f: seq<Byte>, s: seq<Byte>)
    requires |s| >= PROTOCOL_HEAD_LEN && |f| >= PROTOCOL_HEAD_LEN && s[..PROTOCOL_HEAD_LEN] == f[..PROTOCOL_HEAD_LEN]
    ensures PacketLen(s) == PacketLen(f)
  {
    assert s[6..8] == s[..8][6..8] == f[..8][6..8] == f[6..8];
  }

  /** The chunk with the last byte of the packet, b, and t behind it. The clipped packet is
      handed on, which notify_packet drops. As many bytes as were lost of the packet are then
      missing from t; where t has not so many, all of the chunk is lost. */
  lemma OversizedEnd(f: seq<Byte>, a: seq<Byte>, b: seq<Byte>, t: seq<Byte>)
    requires WellFormed(f) && |f| > ROOM && f == a + b && b != []
    ensures !WellFormed(Clip(f))
    ensures var lost := |a| - |Clip(a)|;
            Feed(Clip(a), b + t) ==
            if |t| < lost then ([], Clip(a))
            else ([Clip(f)] + Feed([], t[lost..]).0, Feed([], t[lost..]).1)
  {
    var lost, s := |a| - |Clip(a)|, Clip(a) + (b + t);
    SameHead(f, Clip(f));
    OversizedBytes(f, a, b, t, s, lost);
    SameHead(f, s);
    ClipPrefix(a, b + t);
  }

  lemma OversizedBytes(f: seq<Byte>, a: seq<Byte>, b: seq<Byte>, t: seq<Byte>, s: seq<Byte>, lost: nat)
    requires |f| > ROOM && f == a + b && s == Clip(a) + (b + t) && lost == |a| - |Clip(a)| && b != []
    ensures |s| == |f| + |t| - lost && |s| >= PROTOCOL_HEAD_LEN && s[..PROTOCOL_HEAD_LEN] == f[..PROTOCOL_HEAD_LEN]
    ensures |t| >= lost ==> s[|f|..] == t[lost..] && Clip(s[..|f|]) == Clip(f)
  {
  }

  /** Packets that fit go through whatever comes behind them. */
  lemma {:induction false} FeedThrough(p: seq<Byte>, c: seq<Byte>, frames: seq<seq<Byte>>, t: seq<Byte>)
    requires p + c == Concat(frames) + t && !Complete(p) && |p| <= ROOM
    requires forall f :: f in frames ==> WellFormed(f) && |f| <= ROOM
    requires frames == [] ==> p == []
    ensures Feed(p, c) == (frames + Feed([], t).0, Feed([], t).1)
    decreases |frames|
  {
    if frames == [] {
      assert [] + c == c && Concat(frames) + t == t && frames + Feed([], t).0 == Feed([], t).0;
    } else {
      var f, more := frames[0], Concat(frames[1..]) + t;
      AppendAppend(f, Concat(frames[1..]), t);
      FirstCut(p, c, f, more);
      assert [] + more == more;
      FeedThrough([], more, frames[1..], t);
      assert frames == [f] + frames[1..];
      AppendAppend([f], frames[1..], Feed([], t).0);
    }
  }

  lemma LongerIsComplete(p: seq<Byte>, c: seq<Byte>, f: seq<Byte>, more: seq<Byte>)
    requires p + c == f + more && WellFormed(f)
    ensures |p| >= |f| ==> Complete(p)
  {
    if |p| >= |f| {
      assert p[..PROTOCOL_HEAD_LEN] == (p + c)[..PROTOCOL_HEAD_LEN] == (f + more)[..PROTOCOL_HEAD_LEN];
      SameHead(f, p);
    }
  }

  lemma FirstCut(p: seq<Byte>, c: seq<Byte>, f: seq<Byte>, more: seq<Byte>)
    requires p + c == f + more && !Complete(p) && WellFormed(f) && |f| <= ROOM
    ensures c != [] && RoundOf(p, c) == Cut(f, more)
  {
    var s := p + c;
    PrefixPacketLen(f, more);
    LongerIsComplete(p, c, f, more);
    assert s[..|f|] == f && s[|f|..] == more;
  }

  /** After an oversized packet the stream is in step again, whatever follows, if and only if
      what arrived before the chunk with its last byte fitted the buffer. */
  lemma InStepExactly(f: seq<Byte>, chunks: seq<seq<Byte>>, b: seq<Byte>)
    requires WellFormed(f) && |f| > ROOM && f == Concat(chunks) + b && b != []
    ensures (forall t :: InStep(f, FeedAll([], chunks).1, b, t)) <==> |Concat(chunks)| <= 2176
  {
    var a := Concat(chunks);
    OversizedSoFar(f, chunks, b);
    forall t ensures |a| <= ROOM ==> InStep(f, Clip(a), b, t) {
      OversizedEnd(f, a, b, t);
    }
    if |a| > ROOM {
      OversizedEnd(f, a, b, []);
      assert !InStep(f, Clip(a), b, []);
    }
  }

  /** With p in the buffer, the end of f and t behind it: f is dropped and t is read from its start. */
  ghost predicate InStep(f: seq<Byte>, p: seq<Byte>, b: seq<Byte>, t: seq<Byte>) {
    Feed(p, b + t) == ([Clip(f)] + Feed([], t).0, Feed([], t).1)
  }
}
