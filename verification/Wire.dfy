/** Multiplexer packets and their bytes. */
module Wire {
  import opened Bytes
  import opened Options
  import opened Reassembly
  import Numerals

  const OPEN := 1
  const CONFIRM := 2
  const DATA := 3
  const KEEPALIVE := 4
  const PENDING := 5
  const RESUME := 6
  const CLOSE := 7

  /** A packet as its receiver reads it: `local` is the receiver's channel. */
  datatype Packet = Packet(ptype: Byte, option: Byte, local: nat, remote: nat, payload: seq<Byte>)

  ghost predicate Sendable(p: Packet) {
    p.local < 0x1_0000 && p.remote < 0x1_0000 && |p.payload| < 0x1_0000
  }

  function Head(ptype: Byte, option: Byte, local: nat, remote: nat, len: nat): (s: seq<Byte>)
    ensures |s| == PROTOCOL_HEAD_LEN
  {
    [ptype, option] + Put16(local) + Put16(remote) + Put16(len)
  }

  function Encode(p: Packet): seq<Byte> {
    Head(p.ptype, p.option, p.local, p.remote, |p.payload|) + p.payload
  }

  /** The checks and the header reading of notify_packet. */
  function Parse(s: seq<Byte>): Option<Packet> {
    if !WellFormed(s) then None
    else Some(Packet(s[0], s[1], Get16(s[2..4]), Get16(s[4..6]), s[8..]))
  }

  /** What send_packet writes is a well-formed frame and reads back as the same packet. */
  lemma ParseEncode(p: Packet)
    requires Sendable(p)
    ensures WellFormed(Encode(p)) && Parse(Encode(p)) == Some(p)
  {
    var s := Encode(p);
    GetPut16(p.local);
    GetPut16(p.remote);
    GetPut16(|p.payload|);
    assert s[2..4] == Put16(p.local) && s[4..6] == Put16(p.remote) && s[6..8] == Put16(|p.payload|);
    assert s[8..] == p.payload;
  }

  /** The bytes of a frame: type, option, the channel of the receiver, that of the sender, and the
      length, the latter three in network byte order, then the payload. */
  ghost predicate Frame(s: seq<Byte>, ptype: Byte, option: Byte, local: nat, remote: nat, payload: seq<Byte>) {
    && |s| == 8 + |payload| && s[0] == ptype && s[1] == option && s[8..] == payload
    && Numerals.Val(s[2..4], 256) == local && Numerals.Val(s[4..6], 256) == remote
    && Numerals.Val(s[6..8], 256) == |payload|
  }

  lemma EncodeIsFrame(p: Packet)
    requires Sendable(p)
    ensures Frame(Encode(p), p.ptype, p.option, p.local, p.remote, p.payload)
  {
    HeadFields(p.ptype, p.option, p.local, p.remote, |p.payload|, p.payload);
    Field(p.local);
    Field(p.remote);
    Field(|p.payload|);
  }

  lemma Field(x: nat)
    requires x < 0x1_0000
    ensures Numerals.Val(Put16(x), 256) == x
  {
    PutValues(x);
  }

  lemma HeadFields(ptype: Byte, option: Byte, local: nat, remote: nat, len: nat, rest: seq<Byte>)
    ensures var s := Head(ptype, option, local, remote, len) + rest;
            && s[0] == ptype && s[1] == option && s[2..4] == Put16(local) && s[4..6] == Put16(remote)
            && s[6..8] == Put16(len) && s[8..] == rest
  {
  }

  /** What is read from a frame is what its bytes say, and it is read if and only if the length
      in it is right. */
  lemma ParseIsFrame(s: seq<Byte>)
    ensures Parse(s).Some? <==> |s| >= 8 && Numerals.Val(s[6..8], 256) == |s| - 8
    ensures Parse(s).Some? ==>
              var p := Parse(s).value; Frame(s, p.ptype, p.option, p.local, p.remote, p.payload)
  {
    if |s| >= 8 {
      assert s[2..4][..2] == s[2..4] && s[4..6][..2] == s[4..6] && s[6..8][..2] == s[6..8];
      GetValues(s[2..4]);
      GetValues(s[4..6]);
      GetValues(s[6..8]);
    }
  }

  /** The length field has sixteen bits. A longer payload goes out as a packet with a part of
      it, and the rest stands where the next packet should begin. */
  lemma LengthIsCut(p: Packet)
    ensures var n := |p.payload| % 0x1_0000;
            Encode(p) == Encode(p.(payload := p.payload[..n])) + p.payload[n..]
  {
    var x, n := |p.payload|, |p.payload| % 0x1_0000;
    Put16Low(x, x / 0x1_0000, n);
    var head := Head(p.ptype, p.option, p.local, p.remote, x);
    AppendAppend(head, p.payload[..n], p.payload[n..]);
    assert p.payload == p.payload[..n] + p.payload[n..];
  }

  lemma Put16Low(x: nat, q: nat, r: nat)
    requires x == q * 0x1_0000 + r && r < 0x1_0000
    ensures Put16(x) == Put16(r)
  {
    assert x / 256 == q * 256 + r / 256;
  }

  /** Every frame the handler accepts is the encoding of the packet it reads. */
  lemma EncodeParse(s: seq<Byte>)
    requires WellFormed(s)
    ensures Sendable(Parse(s).value) && Encode(Parse(s).value) == s
  {
    Put16Get16(s[2..4]);
    Put16Get16(s[4..6]);
    Put16Get16(s[6..8]);
    var p := Parse(s).value;
    assert Encode(p) == [s[0], s[1]] + s[2..4] + s[4..6] + s[6..8] + s[8..];
  }

  lemma Put16Get16(s: seq<Byte>)
    requires |s| == 2
    ensures Put16(Get16(s)) == s
  {
  }
}
