/** Conversion of the data files of older versions: the label records are compacted in place
    and their numbers change from host to network byte order. */
module LegacyData {
  import opened Bytes
  import opened Labels
  import opened Options
  import opened SaveData
  import opened Sealing
  import Numerals

  datatype Host = LittleEndian | BigEndian

  function HostPut32(x: nat, host: Host): (s: seq<Byte>)
    ensures |s| == 4
  {
    var b := Put32(x);
    if host == BigEndian then b else [b[3], b[2], b[1], b[0]]
  }

  function HostGet32(s: seq<Byte>, host: Host): nat
    requires |s| == 4
  {
    if host == BigEndian then Get32(s) else Get32([s[3], s[2], s[1], s[0]])
  }

  /** The least significant byte comes first on one kind of host, last on the other. */
  lemma HostOrder(x: nat, host: Host)
    requires x < 0x1_0000_0000
    ensures var s := HostPut32(x, host);
            x == Numerals.Val(if host == LittleEndian then [s[3], s[2], s[1], s[0]] else s, 256)
  {
    PutValues(x);
    var b := Put32(x);
    assert [b[0], b[1], b[2], b[3]] == b;
    SmallModulo(x);
  }

  lemma HostGetPut32(x: nat, host: Host)
    requires x < 0x1_0000_0000
    ensures HostGet32(HostPut32(x, host), host) == x
  {
    GetPut32(x);
    var b := Put32(x);
    assert [b[0], b[1], b[2], b[3]] == b;
  }

  /** The record at the front of some bytes; none where they end before its zero byte. */
  function OldFirst(s: seq<Byte>, host: Host): (r: Option<Record>)
    ensures r.Some? ==> Width(r.value) <= |s|
  {
    if |s| < 4 || TextLen(s, 4) == -1 then None
    else Some(Record(HostGet32(s[..4], host), s[4..4 + TextLen(s, 4)]))
  }

  /** The `val` records at the front of some bytes. */
  function OldRead(s: seq<Byte>, val: nat, host: Host): (rs: Option<seq<Record>>)
    ensures rs.Some? ==> |rs.value| == val && Size(rs.value) <= |s|
  {
    if val == 0 then Some([])
    else if OldFirst(s, host) == None then None
    else
      var r := OldFirst(s, host).value;
      var more := OldRead(s[Width(r)..], val - 1, host);
      if more == None then None else OldCons(r, more.value); Some([r] + more.value)
  }

  lemma OldCons(r: Record, rs: seq<Record>)
    ensures Size([r] + rs) == Width(r) + Size(rs)
  {
    assert ([r] + rs)[1..] == rs;
  }

  lemma {:induction false} SizeNext(rs: seq<Record>, r: Record)
    ensures Size(rs + [r]) == Size(rs) + Width(r)
  {
    if rs == [] {
      assert rs + [r] == [r];
    } else {
      AppendRest(rs, [r]);
      SizeNext(rs[1..], r);
    }
  }

  /** Labels of old files are not limited in length. */
  ghost predicate OldRecords(rs: seq<Record>) {
    forall i :: 0 <= i < |rs| ==> rs[i].number < 0x1_0000_0000 && NoZero(rs[i].text)
  }

  lemma {:induction false} OldReadRecords(s: seq<Byte>, val: nat, host: Host)
    ensures OldRead(s, val, host).Some? ==> OldRecords(OldRead(s, val, host).value)
  {
    if val > 0 && OldFirst(s, host).Some? {
      var r := OldFirst(s, host).value;
      TextHasNoZero(s, 4);
      OldReadRecords(s[Width(r)..], val - 1, host);
    }
  }

  /** A record without label has five bytes, which the labelled records do not need. */
  lemma {:induction false} LabelledSize(rs: seq<Record>)
    ensures |Encode(Labelled(rs))| <= Size(rs)
    ensures AllLabelled(rs) ==> |Encode(Labelled(rs))| == Size(rs)
    ensures !AllLabelled(rs) ==> |Encode(Labelled(rs))| + 5 <= Size(rs)
  {
    if rs != [] {
      LabelledSize(rs[1..]);
      var ls := Labelled(rs[1..]);
      assert rs[0].text == [] ==> Labelled(rs) == ls;
      assert AllLabelled(rs) <==> rs[0].text != [] && AllLabelled(rs[1..]) by { assert rs == [rs[0]] + rs[1..]; }
      assert rs[0].text != [] ==> Labelled(rs) == [rs[0]] + ls && ([rs[0]] + ls)[1..] == ls;
    }
  }

  ghost predicate AllLabelled(rs: seq<Record>) { forall i :: 0 <= i < |rs| ==> rs[i].text != [] }

  /** What the loop leaves of a section that begins with the records rs: the labelled ones, in
      order and in network byte order, then zeros, then what stood behind the list. */
  function Compacted(area: seq<Byte>, rs: seq<Record>): (s: seq<Byte>)
    requires Size(rs) <= |area|
    ensures |s| == |area| && Encode(Labelled(rs)) <= s
  {
    LabelledSize(rs);
    Encode(Labelled(rs)) + ZeroFill(Size(rs) - |Encode(Labelled(rs))|) + area[Size(rs)..]
  }

  // ----- the loop -----

  /** Up to wptr stand the converted records, from rptr on what is still to be read; in between
      is free. */
  ghost predicate Converting(s: seq<Byte>, front: seq<Byte>, area: seq<Byte>, wptr: nat, rptr: nat, done: seq<Record>) {
    forall k {:trigger Unsealed(Conversion, k)} :: Unsealed(Conversion, k) ==>
      && |front| <= wptr <= rptr <= |s| == |front| + |area| && rptr == |front| + Size(done)
      && s[..wptr] == front + Encode(Labelled(done))
      && s[rptr..] == area[Size(done)..]
  }

  /** Behind `done` come the next n records of all. */
  ghost predicate ToRead(all: Option<seq<Record>>, done: seq<Record>, area: seq<Byte>, n: nat, host: Host) {
    Size(done) <= |area| && ReadSoFar(all, done, OldRead(area[Size(done)..], n, host))
  }

  lemma NothingConverted(s: seq<Byte>, pos: nat, n: nat, host: Host)
    requires pos <= |s|
    ensures Converting(s, s[..pos], s[pos..], pos, pos, []) && ToRead(OldRead(s[pos..], n, host), [], s[pos..], n, host)
  {
    Begun(OldRead(s[pos..], n, host));
    assert s[..pos] + [] == s[..pos] && s[pos..][0..] == s[pos..];
  }

  /** The loop of convert_old_dhtdata over any bytes. Nothing is checked in the source: `ok` is
      false exactly where it reads past the end of its buffer. */
  method Compact(buf: array<Byte>, pos: nat, val: nat, host: Host) returns (ok: bool, extraLen: nat)
    requires pos <= buf.Length
    modifies buf
    ensures ok <==> OldRead(old(buf[pos..]), val, host).Some?
    ensures ok ==> var rs := OldRead(old(buf[pos..]), val, host).value;
                   && extraLen == |Encode(Labelled(rs))|
                   && buf[..] == old(buf[..pos]) + Compacted(old(buf[pos..]), rs)
  {
    ghost var front, area := buf[..pos], buf[pos..];
    ghost var all := OldRead(area, val, host);
    NothingConverted(buf[..], pos, val, host);
    assert buf[..][..pos] == front && buf[..][pos..] == area;
    ok, extraLen := CompactAll(buf, pos, val, host, front, area, all);
  }

  method CompactAll(buf: array<Byte>, pos: nat, val: nat, host: Host,
                    ghost front: seq<Byte>, ghost area: seq<Byte>, ghost all: Option<seq<Record>>)
    returns (ok: bool, extraLen: nat)
    requires Converting(buf[..], front, area, pos, pos, []) && ToRead(all, [], area, val, host) && pos == |front|
    requires all.Some? ==> Size(all.value) <= |area|
    modifies buf
    ensures ok <==> all.Some?
    ensures ok ==> extraLen == |Encode(Labelled(all.value))| && buf[..] == front + Compacted(area, all.value)
  {
    var rptr: nat, wptr: nat := pos, pos;
    ghost var done := [];
    extraLen := 0;
    for i := 0 to val
      invariant Converting(buf[..], front, area, wptr, rptr, done) && ToRead(all, done, area, val - i, host)
    {
      ghost var r;
      ok, wptr, rptr, r := ConvertOne(buf, wptr, rptr, host, front, area, val - i, all, done);
      if !ok { return; }
      done := done + [r];
    }
    ReadUp(all, done);
    ok := true;
    extraLen := Finish(buf, pos, wptr, rptr, front, area, done);
  }

  /** The number and the length of the label at the read pointer; -1 where the buffer ends before. */
  method ReadOld(buf: array<Byte>, rptr: nat, host: Host) returns (id: nat, len: int)
    requires rptr <= buf.Length
    ensures len == -1 <==> OldFirst(buf[..][rptr..], host) == None
    ensures len != -1 ==> var r := OldFirst(buf[..][rptr..], host).value;
                          id == r.number && len == |r.text| && buf[..][rptr + 4..rptr + 4 + len + 1] == r.text + [0]
  {
    ghost var s := buf[..];
    var here := buf[..][rptr..];
    id, len := 0, -1;
    if |here| >= 4 {
      id := HostGet32(here[..4], host);
      len := StrLen(here, 4);
      if len != -1 { TextAndZero(s, rptr, len); }
    }
  }

  lemma TextAndZero(s: seq<Byte>, pos: nat, len: nat)
    requires pos <= |s| && 4 + len < |s[pos..]| && s[pos..][4 + len] == 0
    ensures s[pos + 4..pos + 4 + len + 1] == s[pos..][4..4 + len] + [0]
  {
  }

  method ConvertOne(buf: array<Byte>, wptr: nat, rptr: nat, host: Host, ghost front: seq<Byte>, ghost area: seq<Byte>,
                    ghost n: nat, ghost all: Option<seq<Record>>, ghost done: seq<Record>)
    returns (ok: bool, wptr': nat, rptr': nat, ghost r: Record)
    requires Converting(buf[..], front, area, wptr, rptr, done) && n > 0 && ToRead(all, done, area, n, host)
    modifies buf
    ensures !ok ==> all == None
    ensures ok ==> && Converting(buf[..], front, area, wptr', rptr', done + [r])
                   && ToRead(all, done + [r], area, n - 1, host)
  {
    var id, len;
    id, len, r := ReadNext(buf, wptr, rptr, host, front, area, done);
    OldReadOn(area, n, host, all, done);
    ok, wptr', rptr' := len != -1, wptr, rptr;
    if ok {
      rptr' := rptr + 4 + len + 1;
      wptr' := MoveOne(buf, wptr, rptr, id, len, front, area, done, r);
    }
  }

  method ReadNext(buf: array<Byte>, ghost wptr: nat, rptr: nat, host: Host,
                  ghost front: seq<Byte>, ghost area: seq<Byte>, ghost done: seq<Record>)
    returns (id: nat, len: int, ghost r: Record)
    requires Converting(buf[..], front, area, wptr, rptr, done)
    ensures len >= -1 && Size(done) <= |area| && (len == -1 <==> OldFirst(area[Size(done)..], host) == None)
    ensures len != -1 ==> && OldFirst(area[Size(done)..], host) == Some(r) && id == r.number && len == |r.text|
                          && rptr + 4 + len + 1 <= buf.Length && buf[..][rptr + 4..rptr + 4 + len + 1] == r.text + [0]
  {
    InOrder(buf[..], front, area, wptr, rptr, done);
    id, len := ReadOld(buf, rptr, host);
    r := if len == -1 then Record(0, []) else OldFirst(buf[..][rptr..], host).value;
  }

  /** A record without label is passed over. */
  method MoveOne(buf: array<Byte>, wptr: nat, rptr: nat, id: nat, len: nat,
                 ghost front: seq<Byte>, ghost area: seq<Byte>, ghost done: seq<Record>, ghost r: Record)
    returns (wptr': nat)
    requires Converting(buf[..], front, area, wptr, rptr, done) && r.number == id && |r.text| == len
    requires rptr + 4 + len + 1 <= buf.Length && buf[..][rptr + 4..rptr + 4 + len + 1] == r.text + [0]
    modifies buf
    ensures Converting(buf[..], front, area, wptr', rptr + 4 + len + 1, done + [r])
    ensures buf[..][rptr + 4 + len + 1..] == old(buf[..])[rptr + 4 + len + 1..]
  {
    ghost var s := buf[..];
    InOrder(s, front, area, wptr, rptr, done);
    wptr' := wptr;
    if len > 0 {
      MoveRecord(buf, wptr, rptr, id, len);
      wptr' := wptr + 4 + len + 1;
    }
    ConvertedOne(s, buf[..], front, area, wptr, rptr, wptr', rptr + 4 + len + 1, done, r);
  }

  lemma InOrder(s: seq<Byte>, front: seq<Byte>, area: seq<Byte>, wptr: nat, rptr: nat, done: seq<Record>)
    requires Converting(s, front, area, wptr, rptr, done)
    ensures wptr <= rptr <= |s| && Size(done) <= |area| && s[rptr..] == area[Size(done)..]
  {
    assert Unsealed(Conversion, 0);
  }

  lemma OldReadOn(area: seq<Byte>, n: nat, host: Host, all: Option<seq<Record>>, done: seq<Record>)
    requires n > 0 && ToRead(all, done, area, n, host)
    ensures OldFirst(area[Size(done)..], host) == None ==> all == None
    ensures OldFirst(area[Size(done)..], host).Some? ==>
              ToRead(all, done + [OldFirst(area[Size(done)..], host).value], area, n - 1, host)
  {
    var s := area[Size(done)..];
    OldReadFirst(s, n, host, all, done);
    if OldFirst(s, host).Some? { Onward(area, done, OldFirst(s, host).value); }
  }

  lemma OldReadFirst(s: seq<Byte>, n: nat, host: Host, all: Option<seq<Record>>, done: seq<Record>)
    requires n > 0 && ReadSoFar(all, done, OldRead(s, n, host))
    ensures OldFirst(s, host) == None ==> all == None
    ensures OldFirst(s, host).Some? ==>
              var r := OldFirst(s, host).value;
              ReadSoFar(all, done + [r], OldRead(s[Width(r)..], n - 1, host))
  {
    if OldFirst(s, host).Some? {
      var r := OldFirst(s, host).value;
      var more := OldRead(s[Width(r)..], n - 1, host);
      if more.Some? { Regroup(done, r, more.value); }
    }
  }

  lemma Onward(area: seq<Byte>, done: seq<Record>, r: Record)
    requires Size(done) + Width(r) <= |area|
    ensures Size(done + [r]) == Size(done) + Width(r) && area[Size(done)..][Width(r)..] == area[Size(done + [r])..]
  {
    SizeNext(done, r);
  }

  lemma ConvertedOne(s: seq<Byte>, t: seq<Byte>, front: seq<Byte>, area: seq<Byte>,
                     wptr: nat, rptr: nat, wptr': nat, rptr': nat, done: seq<Record>, r: Record)
    requires Converting(s, front, area, wptr, rptr, done) && |t| == |s|
    requires wptr <= rptr && rptr' == rptr + Width(r) <= |s| && t[rptr'..] == s[rptr'..]
    requires r.text == [] ==> wptr' == wptr && t == s
    requires r.text != [] ==> wptr' == wptr + Width(r) && t[..wptr'] == s[..wptr] + Entry(r)
    ensures Converting(t, front, area, wptr', rptr', done + [r])
  {
    assert Unsealed(Conversion, 0);
    SizeNext(done, r);
    SavedOne(done, r);
    Behind(s, rptr, area, Size(done), Width(r));
    if r.text == [] {
      assert Encode(Labelled(done)) + [] == Encode(Labelled(done));
    } else {
      AppendAppend(front, Encode(Labelled(done)), Entry(r));
    }
  }

  lemma SavedOne(rs: seq<Record>, r: Record)
    ensures Encode(Labelled(rs + [r])) == Encode(Labelled(rs)) + if r.text == [] then [] else Entry(r)
  {
    var all := rs + [r];
    assert all[..|rs|] == rs && all[..|rs| + 1] == all;
    SavedNext(all, |rs|);
  }

  lemma Behind(s: seq<Byte>, i: nat, t: seq<Byte>, j: nat, n: nat)
    requires i + n <= |s| && j <= |t| && s[i..] == t[j..]
    ensures j + n <= |t| && s[i + n..] == t[j + n..]
  {
    assert |s[i..]| == |t[j..]| && s[i + n..] == s[i..][n..] && t[j + n..] == t[j..][n..];
  }

  /** One record goes down to the write pointer, never past what is still to be read. */
  method MoveRecord(buf: array<Byte>, wptr: nat, rptr: nat, id: nat, len: nat)
    requires wptr <= rptr && rptr + 4 + len + 1 <= buf.Length
    modifies buf
    ensures buf[..][..wptr + 4 + len + 1]
            == old(buf[..])[..wptr] + (Put32(id) + old(buf[..])[rptr + 4..rptr + 4 + len + 1])
    ensures buf[..][rptr + 4 + len + 1..] == old(buf[..])[rptr + 4 + len + 1..]
  {
    MovedDown(buf[..], wptr, rptr, Put32(id), len + 1);
    Copy(buf, wptr, Put32(id));
    Memmove(buf, wptr + 4, rptr + 4, len + 1);
  }

  method Memmove(buf: array<Byte>, to: nat, from: nat, n: nat)
    requires to + n <= buf.Length && from + n <= buf.Length
    modifies buf
    ensures buf[..] == Patch(old(buf[..]), to, old(buf[..])[from..from + n])
  {
    forall k | 0 <= k < n { buf[to + k] := buf[from + k]; }
  }

  lemma MovedDown(s: seq<Byte>, w: nat, r: nat, id: seq<Byte>, n: nat)
    requires w <= r && r + 4 + n <= |s| && |id| == 4
    ensures var a := Patch(s, w, id); var b := Patch(a, w + 4, a[r + 4..r + 4 + n]);
            b[..w + 4 + n] == s[..w] + (id + s[r + 4..r + 4 + n]) && b[r + 4 + n..] == s[r + 4 + n..]
  {
    var a := Patch(s, w, id);
    assert a[r + 4..] == s[r + 4..];
    assert a[r + 4..r + 4 + n] == a[r + 4..][..n] == s[r + 4..][..n] == s[r + 4..r + 4 + n];
  }

  /** The bytes that became free are cleared. */
  method Finish(buf: array<Byte>, pos: nat, wptr: nat, rptr: nat,
                ghost front: seq<Byte>, ghost area: seq<Byte>, ghost rs: seq<Record>) returns (extraLen: nat)
    requires pos == |front| && Size(rs) <= |area| && Converting(buf[..], front, area, wptr, rptr, rs)
    modifies buf
    ensures extraLen == |Encode(Labelled(rs))| && buf[..] == front + Compacted(area, rs)
  {
    InOrder(buf[..], front, area, wptr, rptr, rs);
    Cleared(buf[..], front, area, wptr, rptr, rs);
    extraLen := wptr - pos;
    Copy(buf, wptr, ZeroFill(rptr - wptr));
  }

  lemma Cleared(s: seq<Byte>, front: seq<Byte>, area: seq<Byte>, wptr: nat, rptr: nat, rs: seq<Record>)
    requires wptr <= rptr <= |s| && Size(rs) <= |area| && Converting(s, front, area, wptr, rptr, rs)
    ensures wptr == |front| + |Encode(Labelled(rs))| && rptr <= |s|
    ensures Patch(s, wptr, ZeroFill(rptr - wptr)) == front + Compacted(area, rs)
  {
    assert Unsealed(Conversion, 0);
    PatchZeros(s, wptr, rptr);
    AppendAppend(front, Encode(Labelled(rs)), ZeroFill(rptr - wptr));
    AppendAppend(front, Encode(Labelled(rs)) + ZeroFill(rptr - wptr), area[Size(rs)..]);
  }

  lemma PatchZeros(s: seq<Byte>, from: nat, to: nat)
    requires from <= to <= |s|
    ensures Patch(s, from, ZeroFill(to - from)) == s[..from] + ZeroFill(to - from) + s[to..]
  {
  }

  // ----- the whole conversion -----

  const KEY := 32

  /** The records part of an old label file, behind the public key and the count; nothing where
      the file is missing or too short. */
  function OldTail(labels: Option<seq<Byte>>): seq<Byte> {
    if labels == None || |labels.value| < KEY + 4 then [] else labels.value[KEY + 4..]
  }

  function OldCount(labels: Option<seq<Byte>>, host: Host): nat {
    if OldTail(labels) == [] then 0 else HostGet32(labels.value[KEY..KEY + 4], host)
  }

  /** The records that are found, the first of them in the file; none where the file has fewer. */
  function OldList(labels: Option<seq<Byte>>, host: Host): (rs: Option<seq<Record>>)
    ensures rs.Some? ==> Size(rs.value) <= Round256(|OldTail(labels)|)
  {
    OldRead(Padded(OldTail(labels)), OldCount(labels, host), host)
  }

  /** The second section and the room behind it. With a count of zero it is as long as the
      records part, but empty. */
  function OldArea(labels: Option<seq<Byte>>, host: Host, rs: seq<Record>): (area: seq<Byte>)
    requires Size(rs) <= Round256(|OldTail(labels)|)
    ensures |area| == Round256(|OldTail(labels)|)
  {
    if OldCount(labels, host) == 0 then ZeroFill(Round256(|OldTail(labels)|))
    else Compacted(Padded(OldTail(labels)), rs)
  }

  function OldLength(labels: Option<seq<Byte>>, host: Host, rs: seq<Record>): nat {
    if OldCount(labels, host) == 0 then |OldTail(labels)| else |Encode(Labelled(rs))|
  }

  /** The file that a conversion writes; none where it leaves its buffer, which has the size
      of the old files. */
  function Converted(dht: seq<Byte>, labels: Option<seq<Byte>>, host: Host, sha: Digest): Option<seq<Byte>> {
    var rs := OldList(labels, host);
    if rs == None || Round256(OldLength(labels, host, rs.value)) > Round256(|OldTail(labels)|) then None
    else
      var n := OldLength(labels, host, rs.value);
      Some(Framed(|dht|, n, Padded(dht) + OldArea(labels, host, rs.value)[..Round256(n)], sha))
  }

  /** convert_old_dhtdata up to the writing. */
  method ConvertOld(dht: seq<Byte>, labels: Option<seq<Byte>>, host: Host, sha: Digest)
    returns (ok: bool, buf: array<Byte>, total: nat)
    ensures ok <==> Converted(dht, labels, host, sha).Some?
    ensures ok ==> total <= buf.Length && Some(buf[..][..total]) == Converted(dht, labels, host, sha)
  {
    var tail := OldTail(labels);
    total := HEAD_LEN + Round256(|dht|) + Round256(|tail|);
    buf := Calloc(total);
    var extraLen;
    ok, extraLen := GatherOld(buf, dht, labels, host);
    if !ok { return; }
    if Round256(extraLen) > Round256(|tail|) { return false, buf, total; }
    ghost var area := OldArea(labels, host, OldList(labels, host).value);
    total := HEAD_LEN + Round256(|dht|) + Round256(extraLen);
    StampOld(buf, total, dht, extraLen, area, sha);
  }

  method StampOld(buf: array<Byte>, total: nat, dht: seq<Byte>, extraLen: nat, ghost area: seq<Byte>, sha: Digest)
    requires total == HEAD_LEN + Round256(|dht|) + Round256(extraLen) && Round256(extraLen) <= |area|
    requires Drafted(buf[..], ZeroFill(16), Padded(dht) + area) && buf.Length == HEAD_LEN + Round256(|dht|) + |area|
    modifies buf
    ensures total <= buf.Length
            && buf[..][..total] == Framed(|dht|, extraLen, Padded(dht) + area[..Round256(extraLen)], sha)
  {
    ghost var body, spare := Padded(dht) + area[..Round256(extraLen)], area[Round256(extraLen)..];
    assert Padded(dht) + area == body + spare;
    WriteHead(buf, |dht|, extraLen, body + spare);
    Stamp(buf, total, |dht|, extraLen, body, spare, sha);
  }

  /** Reads both files into the buffer and runs the loop. */
  method GatherOld(buf: array<Byte>, dht: seq<Byte>, labels: Option<seq<Byte>>, host: Host)
    returns (ok: bool, extraLen: nat)
    requires buf.Length == HEAD_LEN + Round256(|dht|) + Round256(|OldTail(labels)|) && buf[..] == ZeroFill(buf.Length)
    modifies buf
    ensures ok <==> OldList(labels, host).Some?
    ensures ok ==> var rs := OldList(labels, host).value;
                   && extraLen == OldLength(labels, host, rs)
                   && Drafted(buf[..], ZeroFill(16), Padded(dht) + OldArea(labels, host, rs))
  {
    var tail := OldTail(labels);
    var pos := HEAD_LEN + Round256(|dht|);
    EmptyDraft(buf[..], ZeroFill(Round256(|dht|) + Round256(|tail|)));
    PlaceDht(buf, dht, ZeroFill(16), Round256(|tail|));
    ok, extraLen := true, |tail|;
    if extraLen > 0 {
      var val := HostGet32(labels.value[KEY..KEY + 4], host);
      if val > 0 { ok, extraLen := ConvertPart(buf, pos, dht, tail, val, host); }
    }
  }

  method ConvertPart(buf: array<Byte>, pos: nat, ghost dht: seq<Byte>, tail: seq<Byte>, val: nat, host: Host)
    returns (ok: bool, extraLen: nat)
    requires pos == HEAD_LEN + Round256(|dht|) && buf.Length == pos + Round256(|tail|)
    requires Drafted(buf[..], ZeroFill(16), Padded(dht) + ZeroFill(Round256(|tail|)))
    modifies buf
    ensures ok <==> OldRead(Padded(tail), val, host).Some?
    ensures ok ==> var rs := OldRead(Padded(tail), val, host).value;
                   && extraLen == |Encode(Labelled(rs))|
                   && Drafted(buf[..], ZeroFill(16), Padded(dht) + Compacted(Padded(tail), rs))
  {
    ExtraDraft(buf[..], ZeroFill(16), Sections(dht, tail));
    Copy(buf, pos, tail);
    OldInPlace(buf[..], pos, dht, tail);
    ghost var front := buf[..pos];
    ok, extraLen := Compact(buf, pos, val, host);
    if ok { NewInPlace(front, dht, Compacted(Padded(tail), OldRead(Padded(tail), val, host).value)); }
  }

  lemma OldInPlace(s: seq<Byte>, pos: nat, dht: seq<Byte>, tail: seq<Byte>)
    requires Drafted(s, ZeroFill(16), Body(Sections(dht, tail))) && pos == HEAD_LEN + Round256(|dht|) <= |s|
    ensures s[pos..] == Padded(tail) && Drafted(s[..pos], ZeroFill(16), Padded(dht))
  {
    assert Unsealed(Drafting, 0);
  }

  lemma NewInPlace(front: seq<Byte>, dht: seq<Byte>, area: seq<Byte>)
    requires Drafted(front, ZeroFill(16), Padded(dht))
    ensures Drafted(front + area, ZeroFill(16), Padded(dht) + area)
  {
    assert Unsealed(Drafting, 0);
  }

  // ----- what a conversion promises -----

  /** A converted file is loaded if and only if both sections are within the limit, and what
      is read of its second section are the labelled records of the old file. */
  lemma ConvertedLoads(dht: seq<Byte>, labels: Option<seq<Byte>>, host: Host, sha: Digest)
    requires Converted(dht, labels, host, sha).Some?
    ensures var f := Converted(dht, labels, host, sha).value;
            var rs := OldList(labels, host).value;
            var n := OldLength(labels, host, rs);
            && (Parse(f, sha).Some? <==> |dht| <= MAX_SECTION && n <= MAX_SECTION)
            && (Parse(f, sha).Some? ==> Parse(f, sha).value.dht == dht && |Parse(f, sha).value.extra| == n
                                        && ReadSection(ExtraMemory(f), n) == Some(Labelled(rs)))
  {
    var rs := OldList(labels, host).value;
    var n := OldLength(labels, host, rs);
    Round256Bounds(n);
    FramedLoads(dht, n, OldArea(labels, host, rs)[..Round256(n)], sha);
    AreaRead(labels, host, rs, n);
  }

  lemma AreaRead(labels: Option<seq<Byte>>, host: Host, rs: seq<Record>, n: nat)
    requires OldList(labels, host) == Some(rs) && n == OldLength(labels, host, rs)
    requires Round256(n) <= Round256(|OldTail(labels)|)
    ensures ReadSection(OldArea(labels, host, rs)[..Round256(n)], n) == Some(Labelled(rs))
  {
    var area := OldArea(labels, host, rs);
    Round256Bounds(n);
    if OldCount(labels, host) == 0 {
      ZerosRead(area[..Round256(n)], n);
    } else {
      OldReadRecords(Padded(OldTail(labels)), OldCount(labels, host), host);
      ListRead(area, Round256(n), rs, n);
    }
  }

  lemma ZerosRead(zeros: seq<Byte>, n: nat)
    requires zeros == ZeroFill(|zeros|) && |zeros| >= 65
    ensures ReadSection(zeros, n) == Some([])
  {
    assert [] + zeros == zeros;
    SectionRead(zeros, [], zeros, n);
  }

  lemma ListRead(area: seq<Byte>, room: nat, rs: seq<Record>, n: nat)
    requires OldRecords(rs) && Encode(Labelled(rs)) <= area && n == |Encode(Labelled(rs))| <= room <= |area|
    ensures ReadSection(area[..room], n) == Some(Labelled(rs))
  {
    LabelledReadable(rs);
    EncodeSize(Labelled(rs));
    assert area[..room] == Encode(Labelled(rs)) + area[n..room];
    SectionRead(area[..room], Labelled(rs), area[n..room], 0);
  }

  /** A count of zero: what stands behind it becomes a section of that many zeros. Without any
      label file, or with one that ends before, there is no second section. */
  lemma ZeroCountConverts(dht: seq<Byte>, labels: Option<seq<Byte>>, host: Host, sha: Digest)
    requires |dht| <= 0x100_0000
    requires labels.Some? ==>
               |labels.value| <= 0x100_0000 && (|labels.value| > 36 ==> labels.value[32..36] == [0, 0, 0, 0])
    ensures var n := if labels.Some? && |labels.value| > 36 then |labels.value| - 36 else 0;
            && Converted(dht, labels, host, sha).Some?
            && Parse(Converted(dht, labels, host, sha).value, sha) == Some(Sections(dht, ZeroFill(n)))
  {
    NoCount(labels, host);
    ZerosFramed(dht, |OldTail(labels)|, sha);
  }

  lemma ZerosFramed(dht: seq<Byte>, n: nat, sha: Digest)
    requires |dht| <= 0x100_0000 && n <= 0x100_0000
    ensures var zeros := ZeroFill(Round256(n))[..Round256(n)];
            Parse(Framed(|dht|, n, Padded(dht) + zeros, sha), sha) == Some(Sections(dht, ZeroFill(n)))
  {
    Round256Bounds(n);
    var area := ZeroFill(Round256(n));
    assert area[..Round256(n)] == area;
    FramedLoads(dht, n, area, sha);
    assert area[..n] == ZeroFill(n);
  }

  lemma NoCount(labels: Option<seq<Byte>>, host: Host)
    requires labels.Some? && |labels.value| > 36 ==> labels.value[32..36] == [0, 0, 0, 0]
    ensures OldCount(labels, host) == 0
    ensures |OldTail(labels)| == if labels.Some? && |labels.value| > 36 then |labels.value| - 36 else 0
  {
    if OldTail(labels) != [] { assert labels.value[KEY..KEY + 4] == [0, 0, 0, 0]; }
  }

  /** Converting the files of an old installation and starting from the result, for any bytes
      in them. `built`: the conversion stays within its buffer. The labels of the old file come
      back to the friends that are there if and only if none of theirs is too long. */
  method ConvertAndStart(dht: seq<Byte>, labels: Option<seq<Byte>>, friends: FriendTable, host: Host, sha: Digest)
    returns (built: bool, loaded: Option<Sections>, ok: bool)
    requires friends.Valid()
    modifies friends`labels
    ensures friends.Valid() && (built <==> Converted(dht, labels, host, sha).Some?)
    ensures built ==>
              var rs := OldList(labels, host).value;
              && (loaded.Some? <==> |dht| <= 0x100_0000 && OldLength(labels, host, rs) <= 0x100_0000)
              && (loaded.Some? ==> loaded.value.dht == dht)
              && (loaded.Some? ==>
                    (ok <==> forall r :: r in Labelled(rs) && r.number in old(friends.labels) ==> |r.text| <= 63))
              && (loaded.Some? && ok ==> friends.labels == Applied(old(friends.labels), Labelled(rs)))
  {
    var buf, total;
    loaded, ok := None, false;
    built, buf, total := ConvertOld(dht, labels, host, sha);
    if built {
      ConvertedLoads(dht, labels, host, sha);
      FitMeans(friends.labels, Labelled(OldList(labels, host).value));
      loaded, ok := Start(buf[..][..total], friends, sha);
    }
  }

  /** A record of the old file. */
  function OldEntry(r: Record, host: Host): seq<Byte> { HostPut32(r.number, host) + (r.text + [0]) }

  function OldEncode(rs: seq<Record>, host: Host): seq<Byte> {
    if rs == [] then [] else OldEntry(rs[0], host) + OldEncode(rs[1..], host)
  }

  /** A list of records is read as it was written, whatever comes behind it. */
  lemma {:induction false} OldReadsBack(rs: seq<Record>, host: Host, rest: seq<Byte>)
    requires OldRecords(rs)
    ensures OldRead(OldEncode(rs, host) + rest, |rs|, host) == Some(rs) && |OldEncode(rs, host)| == Size(rs)
  {
    if rs != [] {
      var more := OldEncode(rs[1..], host) + rest;
      AppendAppend(OldEntry(rs[0], host), OldEncode(rs[1..], host), rest);
      OldFirstIs(rs[0], host, more);
      OldReadsBack(rs[1..], host, rest);
      OldReadCons(OldEncode(rs, host) + rest, more, rs, host);
    }
  }

  lemma OldReadCons(s: seq<Byte>, more: seq<Byte>, rs: seq<Record>, host: Host)
    requires rs != [] && OldFirst(s, host) == Some(rs[0]) && s[Width(rs[0])..] == more
    requires OldRead(more, |rs| - 1, host) == Some(rs[1..])
    ensures OldRead(s, |rs|, host) == Some(rs)
  {
    assert rs == [rs[0]] + rs[1..];
  }

  lemma OldFirstIs(r: Record, host: Host, more: seq<Byte>)
    requires r.number < 0x1_0000_0000 && NoZero(r.text)
    ensures var s := OldEntry(r, host) + more; OldFirst(s, host) == Some(r) && s[Width(r)..] == more
  {
    var s := OldEntry(r, host) + more;
    assert s[0..] == s;
    FieldsFound(s, 0, HostPut32(r.number, host), r.text, more);
    LabelLength(s, 0, HostPut32(r.number, host), r.text);
    HostGetPut32(r.number, host);
    assert s[..4] == s[0..4];
  }

  /** The label file of an old installation. */
  function OldFile(key: seq<Byte>, rs: seq<Record>, host: Host): seq<Byte> {
    key + HostPut32(|rs|, host) + OldEncode(rs, host)
  }

  /** A label file that an old installation wrote converts to the image that a store of its
      labelled records writes. */
  lemma OldFileConverts(dht: seq<Byte>, key: seq<Byte>, rs: seq<Record>, host: Host, sha: Digest)
    requires |key| == 32 && |rs| < 0x1_0000_0000 && OldRecords(rs)
    ensures OldList(Some(OldFile(key, rs, host)), host) == Some(rs)
    ensures Converted(dht, Some(OldFile(key, rs, host)), host, sha)
            == Some(Image(Sections(dht, Encode(Labelled(rs))), sha))
  {
    OldFileRead(key, rs, host);
    OldAreaIs(Some(OldFile(key, rs, host)), host, rs, Encode(Labelled(rs)));
  }

  lemma OldFileRead(key: seq<Byte>, rs: seq<Record>, host: Host)
    requires |key| == KEY && |rs| < 0x1_0000_0000 && OldRecords(rs)
    ensures var labels := Some(OldFile(key, rs, host));
            OldList(labels, host) == Some(rs) && OldCount(labels, host) == |rs| && |OldTail(labels)| == Size(rs)
  {
    var tail := OldEncode(rs, host);
    OldFileParts(key, rs, host);
    PartsOf(OldFile(key, rs, host), |rs|, tail, host);
    OldReadsPadded(rs, host, tail);
    assert rs == [] ==> Size(rs) == 0;
  }

  lemma PartsOf(f: seq<Byte>, n: nat, tail: seq<Byte>, host: Host)
    requires |f| >= KEY + 4 && f[KEY..KEY + 4] == HostPut32(n, host) && f[KEY + 4..] == tail && n < 0x1_0000_0000
    ensures OldTail(Some(f)) == tail && OldCount(Some(f), host) == if tail == [] then 0 else n
  {
    HostGetPut32(n, host);
  }

  lemma OldReadsPadded(rs: seq<Record>, host: Host, tail: seq<Byte>)
    requires OldRecords(rs) && tail == OldEncode(rs, host)
    ensures OldRead(Padded(tail), |rs|, host) == Some(rs) && |tail| == Size(rs)
  {
    Round256Bounds(|tail|);
    ReadsBefore(rs, host, tail, ZeroFill(Round256(|tail|) - |tail|), Padded(tail));
  }

  lemma ReadsBefore(rs: seq<Record>, host: Host, tail: seq<Byte>, rest: seq<Byte>, s: seq<Byte>)
    requires OldRecords(rs) && tail == OldEncode(rs, host) && s == tail + rest
    ensures OldRead(s, |rs|, host) == Some(rs) && |tail| == Size(rs)
  {
    OldReadsBack(rs, host, rest);
  }

  lemma OldAreaIs(labels: Option<seq<Byte>>, host: Host, rs: seq<Record>, extra: seq<Byte>)
    requires OldList(labels, host) == Some(rs) && OldCount(labels, host) == |rs| && |OldTail(labels)| == Size(rs)
    requires extra == Encode(Labelled(rs))
    ensures OldLength(labels, host, rs) == |extra| && Round256(|extra|) <= Round256(|OldTail(labels)|)
    ensures OldArea(labels, host, rs)[..Round256(|extra|)] == Padded(extra)
  {
    LabelledSize(rs);
    RoundGrows(|extra|, |OldTail(labels)|);
    if rs != [] { CompactedPads(OldTail(labels), rs, extra); }
  }

  lemma OldFileParts(key: seq<Byte>, rs: seq<Record>, host: Host)
    requires |key| == KEY
    ensures var f := OldFile(key, rs, host);
            f[KEY..KEY + 4] == HostPut32(|rs|, host) && f[KEY + 4..] == OldEncode(rs, host)
  {
  }

  lemma CompactedPads(tail: seq<Byte>, rs: seq<Record>, extra: seq<Byte>)
    requires |tail| == Size(rs) && extra == Encode(Labelled(rs)) && |extra| <= |tail|
    requires Round256(|extra|) <= Round256(|tail|)
    ensures Size(rs) <= |Padded(tail)| && Compacted(Padded(tail), rs)[..Round256(|extra|)] == Padded(extra)
  {
    Round256Bounds(|tail|);
    Round256Bounds(|extra|);
  }

  /** A label file that lacks its last zero byte. The padding ends the last label, so that a
      list of labelled records takes one byte more than the file has; for one size in 256 the
      result then leaves the buffer, unless a record without label makes up for it. */
  lemma CutFileConverts(dht: seq<Byte>, f: seq<Byte>, tail: seq<Byte>, rs: seq<Record>, host: Host, sha: Digest)
    requires |f| >= KEY + 4 && f[KEY..KEY + 4] == HostPut32(|rs|, host) && f[KEY + 4..] == tail
    requires rs != [] && |rs| < 0x1_0000_0000 && OldRecords(rs) && rs[|rs| - 1].text != []
    requires tail + [0] == OldEncode(rs, host)
    ensures Converted(dht, Some(f), host, sha).Some? <==>
            |tail| % 256 != 191 || exists i :: 0 <= i < |rs| && rs[i].text == []
  {
    CutFileRead(f, tail, rs, host);
    ConvertsIfRoom(dht, Some(f), rs, host, sha);
    LabelledRoom(rs, |tail|);
  }

  /** Only room for the result is wanting once the records were found. */
  lemma ConvertsIfRoom(dht: seq<Byte>, labels: Option<seq<Byte>>, rs: seq<Record>, host: Host, sha: Digest)
    requires OldList(labels, host) == Some(rs) && OldCount(labels, host) == |rs| && rs != []
    ensures Converted(dht, labels, host, sha).Some? <==>
            Round256(|Encode(Labelled(rs))|) <= Round256(|OldTail(labels)|)
  {
  }

  lemma LabelledRoom(rs: seq<Record>, n: nat)
    requires n + 1 == Size(rs)
    ensures Round256(|Encode(Labelled(rs))|) <= Round256(n) <==>
            n % 256 != 191 || exists i :: 0 <= i < |rs| && rs[i].text == []
  {
    LabelledSize(rs);
    if AllLabelled(rs) {
      RoundsUp(n);
    } else {
      RoundGrows(|Encode(Labelled(rs))|, n);
    }
  }

  lemma CutFileRead(f: seq<Byte>, tail: seq<Byte>, rs: seq<Record>, host: Host)
    requires |f| >= KEY + 4 && f[KEY..KEY + 4] == HostPut32(|rs|, host) && f[KEY + 4..] == tail
    requires rs != [] && |rs| < 0x1_0000_0000 && OldRecords(rs) && rs[|rs| - 1].text != []
    requires tail + [0] == OldEncode(rs, host)
    ensures OldList(Some(f), host) == Some(rs) && OldCount(Some(f), host) == |rs| && OldTail(Some(f)) == tail
    ensures |tail| + 1 == Size(rs)
  {
    CutReads(rs, host, tail);
    NotOnlyZero(rs);
    PartsOf(f, |rs|, tail, host);
  }

  lemma CutReads(rs: seq<Record>, host: Host, tail: seq<Byte>)
    requires OldRecords(rs) && tail + [0] == OldEncode(rs, host)
    ensures OldRead(Padded(tail), |rs|, host) == Some(rs) && |tail| + 1 == Size(rs)
  {
    Round256Bounds(|tail|);
    ZeroFirst(tail, Round256(|tail|) - |tail|);
    ReadsBefore(rs, host, tail + [0], ZeroFill(Round256(|tail|) - |tail| - 1), Padded(tail));
  }

  lemma NotOnlyZero(rs: seq<Record>)
    requires rs != []
    ensures Size(rs) >= 5
  {
  }

  lemma ZeroFirst(tail: seq<Byte>, n: nat)
    requires n > 0
    ensures tail + ZeroFill(n) == (tail + [0]) + ZeroFill(n - 1)
  {
  }

  lemma RoundsUp(n: nat)
    ensures Round256(n + 1) > Round256(n) <==> n % 256 == 191
  {
  }
}
