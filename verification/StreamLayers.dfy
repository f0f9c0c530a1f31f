/** The handlers a datagram stream is built of: multiplexer (channel 0) over crypto over ICE
    framing, working in place on the flexible buffer. */
module StreamLayers {
  import opened Bytes
  import opened Options
  import opened FlexBuffers
  import Numerals
  import opened Reassembly
  import opened Wire

  const ZERO_BYTES := 32
  const MAC_BYTES := 16
  const ICE_HEAD_LEN := 4
  const PKT_DATA: Byte := 2

  /** The box cipher: sealing adds an authenticator, opening undoes sealing. Behind an
      authenticator of zeros, say, any message would do: the law does not contradict itself. */
  datatype Cipher = Cipher(seal: seq<Byte> -> seq<Byte>, open: seq<Byte> -> Option<seq<Byte>>)
  {
    ghost predicate Lawful() {
      && (forall p :: |seal(p)| == |p| + MAC_BYTES)
      && (forall p :: open(seal(p)) == Some(p))
      && (forall c :: open(c).Some? ==> |open(c).value| + MAC_BYTES == |c|)
    }
  }

  // ----- crypto -----

  /** crypto_encrypt2: the message stands behind 32 bytes of padding, the result behind 16. */
  method Encrypt2(cipher: Cipher, plain: FlexBuffer, encrypted: FlexBuffer) returns (len: int)
    requires cipher.Lawful() && plain.Valid() && plain.size >= ZERO_BYTES
    requires plain.buffer != encrypted.buffer && encrypted.offset + plain.size <= encrypted.buffer.Length
    modifies plain.buffer, encrypted.buffer
    ensures len == plain.size && plain.Data()[ZERO_BYTES..] == old(plain.Data())[ZERO_BYTES..]
    ensures encrypted.buffer[encrypted.offset..encrypted.offset + plain.size]
            == ZeroFill(ZERO_BYTES - MAC_BYTES) + cipher.seal(old(plain.Data())[ZERO_BYTES..])
  {
    plain.Store(ZeroFill(ZERO_BYTES));
    encrypted.Store(ZeroFill(ZERO_BYTES - MAC_BYTES) + cipher.seal(plain.Data()[ZERO_BYTES..]));
    return plain.size;
  }

  /** crypto_decrypt2: refuses messages that would open to nothing, and forgeries. */
  method Decrypt2(cipher: Cipher, encrypted: FlexBuffer, plain: FlexBuffer) returns (len: int)
    requires cipher.Lawful() && encrypted.Valid() && encrypted.size >= ZERO_BYTES - MAC_BYTES
    requires plain.buffer != encrypted.buffer && plain.offset + encrypted.size <= plain.buffer.Length
    modifies plain.buffer, encrypted.buffer
    ensures encrypted.Data()[ZERO_BYTES - MAC_BYTES..] == old(encrypted.Data())[ZERO_BYTES - MAC_BYTES..]
    ensures var m := cipher.open(old(encrypted.Data())[ZERO_BYTES - MAC_BYTES..]);
            if encrypted.size > ZERO_BYTES && m.Some? then
              len == encrypted.size && plain.buffer[plain.offset..plain.offset + len] == ZeroFill(ZERO_BYTES) + m.value
            else len == -1
  {
    if encrypted.size <= ZERO_BYTES {
      return -1;
    }
    encrypted.Store(ZeroFill(ZERO_BYTES - MAC_BYTES));
    var m := cipher.open(encrypted.Data()[ZERO_BYTES - MAC_BYTES..]);
    if m == None {
      return -1;
    }
    plain.Store(ZeroFill(ZERO_BYTES) + m.value);
    return encrypted.size;
  }

  /** crypto_handler_write: the sealed payload, in a buffer of its own with headroom left. */
  method CryptoWrite(cipher: Cipher, buf: FlexBuffer) returns (out: FlexBuffer)
    requires cipher.Lawful() && buf.Valid() && buf.offset >= ZERO_BYTES
    modifies buf, buf.buffer
    ensures buf.Valid() && buf.Data() == old(buf.Data()) && buf.offset == old(buf.offset)
    ensures fresh(out) && fresh(out.buffer) && out.Valid() && out.offset == FLEX_PADDING_LEN - MAC_BYTES
    ensures out.Data() == cipher.seal(old(buf.Data()))
  {
    out := new FlexBuffer(buf.size + FLEX_PADDING_LEN, FLEX_PADDING_LEN - ZERO_BYTES);
    ghost var data := buf.Data();
    buf.Backward(ZERO_BYTES);
    assert buf.Data()[ZERO_BYTES..] == data;
    var len := Encrypt2(cipher, buf, out);
    buf.Forward(ZERO_BYTES);
    out.SetSize(len);
    assert out.Data() == ZeroFill(ZERO_BYTES - MAC_BYTES) + cipher.seal(data);
    out.Forward(ZERO_BYTES - MAC_BYTES);
  }

  /** crypto_handler_on_rx_data: the opened payload, or nothing. */
  method CryptoReceive(cipher: Cipher, buf: FlexBuffer) returns (out: FlexBuffer?)
    requires cipher.Lawful() && buf.Valid() && buf.offset >= ZERO_BYTES - MAC_BYTES
    modifies buf, buf.buffer
    ensures out != null <==> |old(buf.Data())| > MAC_BYTES && cipher.open(old(buf.Data())).Some?
    ensures out != null ==> && fresh(out) && fresh(out.buffer) && out.Valid()
                            && out.Data() == cipher.open(old(buf.Data())).value
  {
    var plain := new FlexBuffer(buf.size + FLEX_PADDING_LEN, FLEX_PADDING_LEN - (ZERO_BYTES - MAC_BYTES));
    ghost var data := buf.Data();
    buf.Backward(ZERO_BYTES - MAC_BYTES);
    assert buf.Data()[ZERO_BYTES - MAC_BYTES..] == data;
    var len := Decrypt2(cipher, buf, plain);
    buf.Forward(ZERO_BYTES - MAC_BYTES);
    if len <= 0 {
      return null;
    }
    plain.SetSize(len);
    assert plain.Data() == ZeroFill(ZERO_BYTES) + cipher.open(data).value;
    plain.Forward(ZERO_BYTES);
    out := plain;
  }

  // ----- ICE framing -----

  /** ice_handler_write up to the socket: the datagram. */
  method IceWrite(buf: FlexBuffer) returns (datagram: seq<Byte>)
    requires buf.Valid() && buf.offset >= ICE_HEAD_LEN && buf.size < 0x1_0000
    modifies buf, buf.buffer
    ensures datagram == [0, 2] + Put16(|old(buf.Data())|) + old(buf.Data())
    ensures IceFrame(datagram, old(buf.Data()))
  {
    var len := buf.size;
    IceHead(buf.Data());
    buf.Prepend([0, PKT_DATA] + Put16(len));
    return buf.Data();
  }

  /** The bytes of a datagram: version 0, type 2 for data, the length in network byte order. */
  ghost predicate IceFrame(s: seq<Byte>, data: seq<Byte>) {
    && |s| == 4 + |data| && s[0] == 0 && s[1] == 2 && s[4..] == data
    && Numerals.Val(s[2..4], 256) == |data|
  }

  lemma IceHead(data: seq<Byte>)
    requires |data| < 0x1_0000
    ensures IceFrame([0, 2] + Put16(|data|) + data, data)
  {
    Field(|data|);
    assert ([0, 2] + Put16(|data|) + data)[2..4] == Put16(|data|);
  }

  /** The receiving callback: data packets of the announced length go up with new headroom. */
  method IceReceive(datagram: seq<Byte>) returns (buf: FlexBuffer?)
    ensures buf != null <==> |datagram| >= 4 && datagram[0] == 0 && datagram[1] == 2
                             && |datagram| == 4 + Numerals.Val(datagram[2..4], 256)
    ensures buf != null ==> fresh(buf) && fresh(buf.buffer) && buf.Valid() && buf.offset == FLEX_PADDING_LEN
                            && buf.Data() == datagram[4..]
  {
    if |datagram| >= 4 {
      assert datagram[2..4][..2] == datagram[2..4];
      GetValues(datagram[2..4]);
    }
    if |datagram| < ICE_HEAD_LEN || datagram[0] != 0 || datagram[1] != PKT_DATA
       || ICE_HEAD_LEN + Get16(datagram[2..4]) != |datagram| {
      return null;
    }
    buf := new FlexBuffer.From(FLEX_PADDING_LEN, datagram[ICE_HEAD_LEN..]);
  }

  // ----- the multiplexer on channel 0 -----

  /** multiplex_handler_write: send_packet for channel 0. */
  method MuxWrite(buf: FlexBuffer)
    requires buf.Valid() && buf.offset >= PROTOCOL_HEAD_LEN && buf.size < 0x1_0000
    modifies buf, buf.buffer
    ensures buf.Valid() && buf.offset == old(buf.offset) - PROTOCOL_HEAD_LEN
    ensures buf.Data() == Encode(Packet(DATA, 0, 0, 0, old(buf.Data())))
  {
    buf.Prepend(Head(DATA, 0, 0, 0, buf.size));
  }

  /** The channel-0 branch of notify_packet. */
  method MuxReceive(buf: FlexBuffer) returns (up: bool)
    requires buf.Valid()
    modifies buf
    ensures buf.Valid()
    ensures var p := Parse(old(buf.Data()));
            up == (p.Some? && p.value.ptype == DATA && p.value.local == 0 && p.value.remote == 0)
            && (up ==> buf.Data() == p.value.payload)
  {
    var p := Parse(buf.Data());
    up := p.Some? && p.value.ptype == DATA && p.value.local == 0 && p.value.remote == 0;
    if up {
      buf.Forward(PROTOCOL_HEAD_LEN);
    }
  }

  // ----- whole streams -----

  method Send(payload: seq<Byte>, mux: bool, crypto: bool, cipher: Cipher) returns (datagram: seq<Byte>)
    requires cipher.Lawful() && |payload| <= IOEX_MAX_USER_DATA_LEN
    ensures var p := if mux then Encode(Packet(DATA, 0, 0, 0, payload)) else payload;
            var c := if crypto then cipher.seal(p) else p;
            datagram == [0, 2] + Put16(|c|) + c && IceFrame(datagram, c) && |c| < 0x1_0000
  {
    var buf := new FlexBuffer.From(FLEX_PADDING_LEN, payload);
    if mux {
      MuxWrite(buf);
    }
    if crypto {
      buf := CryptoWrite(cipher, buf);
    }
    datagram := IceWrite(buf);
  }

  method Receive(datagram: seq<Byte>, mux: bool, crypto: bool, cipher: Cipher) returns (r: Option<seq<Byte>>)
    requires cipher.Lawful()
    ensures forall c :: IceFrame(datagram, c) ==> r == Delivered(c, mux, crypto, cipher)
  {
    var buf: FlexBuffer? := IceReceive(datagram);
    if buf == null { return None; }
    if crypto {
      buf := CryptoReceive(cipher, buf);
      if buf == null { return None; }
    }
    if mux {
      var up := MuxReceive(buf);
      if !up { return None; }
    }
    return Some(buf.Data());
  }

  /** What reaches the stream callback for what a datagram carries. */
  ghost function Delivered(c: seq<Byte>, mux: bool, crypto: bool, cipher: Cipher): Option<seq<Byte>> {
    if crypto && (|c| <= MAC_BYTES || cipher.open(c) == None) then None else
      var p := if crypto then cipher.open(c).value else c;
      if !mux then Some(p)
      else if Parse(p).Some? && Parse(p).value.ptype == DATA && Parse(p).value.local == 0 && Parse(p).value.remote == 0
      then Some(Parse(p).value.payload) else None
  }

  /** IOEX_stream_write on a connected stream: what its check refuses is not sent. */
  method StreamWrite(payload: seq<Byte>, mux: bool, crypto: bool, cipher: Cipher) returns (sent: Option<seq<Byte>>)
    requires cipher.Lawful()
    ensures sent.Some? <==> 1 <= |payload| <= 2048
    ensures sent.Some? ==> var p := if mux then Encode(Packet(DATA, 0, 0, 0, payload)) else payload;
                           var c := if crypto then cipher.seal(p) else p;
                           sent.value == [0, 2] + Put16(|c|) + c && IceFrame(sent.value, c) && |c| < 0x1_0000
  {
    if |payload| == 0 || |payload| > IOEX_MAX_USER_DATA_LEN {
      return None;
    }
    var datagram := Send(payload, mux, crypto, cipher);
    return Some(datagram);
  }

  /** For every combination of layers, every write that is accepted arrives unchanged. (The
      layers alone would lose an empty payload: a box with nothing in it is refused.) */
  method Transparent(payload: seq<Byte>, mux: bool, crypto: bool, cipher: Cipher)
    returns (sent: bool, r: Option<seq<Byte>>)
    requires cipher.Lawful()
    ensures sent <==> 1 <= |payload| <= 2048
    ensures r == if sent then Some(payload) else None
  {
    var datagram := StreamWrite(payload, mux, crypto, cipher);
    if datagram == None {
      return false, None;
    }
    ParseEncode(Packet(DATA, 0, 0, 0, payload));
    sent := true;
    r := Receive(datagram.value, mux, crypto, cipher);
  }
}
