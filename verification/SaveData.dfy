/** The data file: its image in bytes, the buffer it is built in, and the checks it is
    loaded with. */
module SaveData {
  import opened Bytes
  import opened Options
  import opened Labels
  import opened Sealing
  import Numerals

  const MAGIC := 0x0E0C0D0A
  const REVISION := 2
  const MAX_SECTION := 16 * 1024 * 1024
  const HEAD_LEN := 256

  /** SHA-256 as far as it matters here: some function to 32 bytes. */
  type Digest = f: seq<Byte> -> seq<Byte> | forall s :: |f(s)| == 32 witness (s => ZeroFill(32))

  datatype Sections = Sections(dht: seq<Byte>, extra: seq<Byte>)

  /** The room for a section of s bytes. */
  function Round256(s: nat): nat { ((s + 64) / 256 + 1) * 256 }

  lemma Round256Bounds(s: nat)
    ensures s + 65 <= Round256(s) <= s + 320 && Round256(s) % 256 == 0
  {
  }

  function Padded(s: seq<Byte>): (p: seq<Byte>)
    ensures |p| == Round256(|s|) && s <= p
  {
    Round256Bounds(|s|);
    s + ZeroFill(Round256(|s|) - |s|)
  }

  function Body(d: Sections): (b: seq<Byte>)
    ensures |b| == Round256(|d.dht|) + Round256(|d.extra|)
  {
    Padded(d.dht) + Padded(d.extra)
  }

  /** A file for sections of a and b bytes; a length is cut to its low 32 bits. */
  function Framed(a: nat, b: nat, body: seq<Byte>, sha: Digest): (f: seq<Byte>)
    ensures |f| == HEAD_LEN + |body|
  {
    HeadFields(a, b) + sha(body) + ZeroFill(208) + body
  }

  function HeadFields(a: nat, b: nat): (h: seq<Byte>)
    ensures |h| == 16
  {
    Put32(MAGIC) + Put32(REVISION) + Put32(a) + Put32(b)
  }

  /** The file a store writes. */
  function Image(d: Sections, sha: Digest): (f: seq<Byte>)
    ensures |f| == HEAD_LEN + Round256(|d.dht|) + Round256(|d.extra|)
  {
    Framed(|d.dht|, |d.extra|, Body(d), sha)
  }

  ghost predicate WithinLimits(d: Sections) { |d.dht| <= MAX_SECTION && |d.extra| <= MAX_SECTION }

  // ----- storing -----

  /** The buffer while it is filled: head fields, nothing yet in the rest of the header, and
      the body. A fact that proofs open only where they need it. */
  ghost predicate Drafted(s: seq<Byte>, head: seq<Byte>, body: seq<Byte>) {
    forall i {:trigger Unsealed(Drafting, i)} :: Unsealed(Drafting, i) ==>
      |head| == 16 && s == head + ZeroFill(240) + body
  }

  /** The part of store_persistence_data that builds the image in a zeroed buffer. */
  method BuildImage(dht: seq<Byte>, friends: FriendTable, sha: Digest) returns (buf: array<Byte>)
    requires friends.Valid()
    ensures fresh(buf) && buf[..] == Image(Sections(dht, Encode(Labelled(friends.Records()))), sha)
  {
    var extraLen := friends.ExtraSize();
    buf := Calloc(HEAD_LEN + Round256(|dht|) + Round256(extraLen));
    FillImage(buf, dht, extraLen, friends, Sections(dht, Encode(Labelled(friends.Records()))), sha);
  }

  method Calloc(n: nat) returns (buf: array<Byte>)
    ensures fresh(buf) && buf.Length == n && buf[..] == ZeroFill(n)
  {
    buf := new Byte[n](_ => 0);
  }

  method FillImage(buf: array<Byte>, dht: seq<Byte>, extraLen: nat, friends: FriendTable, ghost d: Sections,
                   sha: Digest)
    requires friends.Valid() && d == Sections(dht, Encode(Labelled(friends.Records()))) && extraLen == |d.extra|
    requires buf.Length == HEAD_LEN + |Body(d)| && buf[..] == ZeroFill(buf.Length)
    modifies buf
    ensures buf[..] == Image(d, sha)
  {
    StartImage(buf, |dht|, extraLen, |Body(d)|);
    FillBody(buf, dht, friends, HeadFields(|dht|, extraLen), d);
    StampAll(buf, |dht|, extraLen, Body(d), sha);
  }

  method StartImage(buf: array<Byte>, dhtLen: nat, extraLen: nat, ghost n: nat)
    requires buf.Length == HEAD_LEN + n && buf[..] == ZeroFill(buf.Length)
    modifies buf
    ensures Drafted(buf[..], HeadFields(dhtLen, extraLen), ZeroFill(n))
  {
    EmptyDraft(buf[..], ZeroFill(n));
    WriteHead(buf, dhtLen, extraLen, ZeroFill(n));
  }

  method StampAll(buf: array<Byte>, ghost a: nat, ghost b: nat, ghost body: seq<Byte>, sha: Digest)
    requires Drafted(buf[..], HeadFields(a, b), body) && buf.Length == HEAD_LEN + |body|
    modifies buf
    ensures buf[..] == Framed(a, b, body, sha)
  {
    assert body + [] == body;
    Stamp(buf, buf.Length, a, b, body, [], sha);
    assert buf[..][..buf.Length] == buf[..];
  }

  lemma EmptyDraft(s: seq<Byte>, body: seq<Byte>)
    requires s == ZeroFill(|s|) && body == ZeroFill(|body|) && |s| == HEAD_LEN + |body|
    ensures Drafted(s, ZeroFill(16), body)
  {
  }

  method WriteHead(buf: array<Byte>, dhtLen: nat, extraLen: nat, ghost body: seq<Byte>)
    requires buf.Length >= HEAD_LEN && Drafted(buf[..], ZeroFill(16), body)
    modifies buf
    ensures Drafted(buf[..], HeadFields(dhtLen, extraLen), body)
  {
    ghost var z := buf[..];
    Copy(buf, 0, Put32(MAGIC));
    PatchNext(z, 0, Put32(MAGIC), Put32(REVISION));
    Copy(buf, 4, Put32(REVISION));
    PatchNext(z, 0, Put32(MAGIC) + Put32(REVISION), Put32(dhtLen));
    Copy(buf, 8, Put32(dhtLen));
    PatchNext(z, 0, Put32(MAGIC) + Put32(REVISION) + Put32(dhtLen), Put32(extraLen));
    Copy(buf, 12, Put32(extraLen));
    HeadDraft(z, HeadFields(dhtLen, extraLen), body);
  }

  lemma HeadDraft(s: seq<Byte>, head: seq<Byte>, body: seq<Byte>)
    requires |s| >= HEAD_LEN && |head| == 16 && Drafted(s, ZeroFill(16), body)
    ensures Drafted(Patch(s, 0, head), head, body)
  {
    assert Unsealed(Drafting, 0);
  }

  method FillBody(buf: array<Byte>, dht: seq<Byte>, friends: FriendTable, ghost head: seq<Byte>, ghost d: Sections)
    requires friends.Valid() && d == Sections(dht, Encode(Labelled(friends.Records())))
    requires buf.Length == HEAD_LEN + |Body(d)| && Drafted(buf[..], head, ZeroFill(|Body(d)|))
    modifies buf
    ensures Drafted(buf[..], head, Body(d))
  {
    var at := HEAD_LEN + Round256(|dht|);
    PlaceDht(buf, dht, head, buf.Length - at);
    FillExtra(buf, at, buf.Length - at, friends, head, d);
  }

  method PlaceDht(buf: array<Byte>, dht: seq<Byte>, ghost head: seq<Byte>, ghost rest: nat)
    requires buf.Length == HEAD_LEN + Round256(|dht|) + rest && Drafted(buf[..], head, ZeroFill(Round256(|dht|) + rest))
    modifies buf
    ensures Drafted(buf[..], head, Padded(dht) + ZeroFill(rest))
  {
    DhtDraft(buf[..], head, dht, rest);
    Copy(buf, HEAD_LEN, dht);
  }

  method FillExtra(buf: array<Byte>, at: nat, room: nat, friends: FriendTable, ghost head: seq<Byte>, ghost d: Sections)
    requires friends.Valid() && d.extra == Encode(Labelled(friends.Records()))
    requires at == HEAD_LEN + Round256(|d.dht|) && room == Round256(|d.extra|) && buf.Length == at + room
    requires Drafted(buf[..], head, Padded(d.dht) + ZeroFill(room))
    modifies buf
    ensures Drafted(buf[..], head, Body(d))
  {
    ExtraDraft(buf[..], head, d);
    friends.WriteAll(buf, at, room, d.extra);
  }

  lemma DhtDraft(s: seq<Byte>, head: seq<Byte>, dht: seq<Byte>, rest: nat)
    requires |s| == HEAD_LEN + Round256(|dht|) + rest && Drafted(s, head, ZeroFill(Round256(|dht|) + rest))
    ensures |dht| <= Round256(|dht|) && Drafted(Patch(s, HEAD_LEN, dht), head, Padded(dht) + ZeroFill(rest))
  {
    Round256Bounds(|dht|);
    assert Unsealed(Drafting, 0);
  }

  lemma ExtraDraft(s: seq<Byte>, head: seq<Byte>, d: Sections)
    requires |s| == HEAD_LEN + Round256(|d.dht|) + Round256(|d.extra|)
    requires Drafted(s, head, Padded(d.dht) + ZeroFill(Round256(|d.extra|)))
    ensures |d.extra| <= Round256(|d.extra|) && Drafted(Patch(s, HEAD_LEN + Round256(|d.dht|), d.extra), head, Body(d))
  {
    Round256Bounds(|d.extra|);
    assert Unsealed(Drafting, 0);
  }

  /** The digest of the body goes into the header. */
  method Stamp(buf: array<Byte>, total: nat, ghost a: nat, ghost b: nat, ghost body: seq<Byte>, ghost spare: seq<Byte>,
               sha: Digest)
    requires Drafted(buf[..], HeadFields(a, b), body + spare)
    requires total == HEAD_LEN + |body| && buf.Length == total + |spare|
    modifies buf
    ensures buf[..][..total] == Framed(a, b, body, sha)
  {
    DraftBody(buf[..], HeadFields(a, b), body, spare);
    var digest := sha(buf[..][HEAD_LEN..total]);
    StampedDraft(buf[..], HeadFields(a, b), body, spare, digest);
    Copy(buf, 16, digest);
  }

  lemma DraftBody(s: seq<Byte>, head: seq<Byte>, body: seq<Byte>, spare: seq<Byte>)
    requires Drafted(s, head, body + spare)
    ensures |s| == HEAD_LEN + |body| + |spare| && s[HEAD_LEN..HEAD_LEN + |body|] == body
  {
    assert Unsealed(Drafting, 0);
  }

  lemma StampedDraft(s: seq<Byte>, head: seq<Byte>, body: seq<Byte>, spare: seq<Byte>, digest: seq<Byte>)
    requires |s| >= HEAD_LEN + |body| && Drafted(s, head, body + spare) && |digest| == 32
    ensures Patch(s, 16, digest)[..HEAD_LEN + |body|] == head + digest + ZeroFill(208) + body
  {
    assert Unsealed(Drafting, 0);
  }

  // ----- loading -----

  /** The checks before the checksum: the header and the exact size. */
  predicate SizeChecks(file: seq<Byte>) {
    && |file| >= HEAD_LEN
    && Get32(file[0..4]) == MAGIC
    && Get32(file[4..8]) == REVISION
    && Get32(file[8..12]) <= MAX_SECTION
    && Get32(file[12..16]) <= MAX_SECTION
    && |file| == HEAD_LEN + Round256(Get32(file[8..12])) + Round256(Get32(file[12..16]))
  }

  /** _load_persistence_data_i. */
  function Parse(file: seq<Byte>, sha: Digest): (r: Option<Sections>) {
    if !SizeChecks(file) then None
    else
      var dhtLen, extraLen := Get32(file[8..12]), Get32(file[12..16]);
      var body := file[HEAD_LEN..];
      if file[16..48] != sha(body) then None
      else Some(Split(body, dhtLen, extraLen))
  }

  /** The pointers into the loaded body. */
  function Split(body: seq<Byte>, dhtLen: nat, extraLen: nat): Sections
    requires |body| == Round256(dhtLen) + Round256(extraLen)
  {
    Round256Bounds(dhtLen);
    Round256Bounds(extraLen);
    Sections(body[..dhtLen], body[Round256(dhtLen)..Round256(dhtLen) + extraLen])
  }

  // ----- what the format promises -----

  lemma FramedFields(a: nat, b: nat, body: seq<Byte>, sha: Digest)
    ensures var f := Framed(a, b, body, sha);
            && f[0..4] == Put32(MAGIC) && f[4..8] == Put32(REVISION)
            && f[8..12] == Put32(a) && f[12..16] == Put32(b)
            && f[16..48] == sha(body) && f[HEAD_LEN..] == body
  {
  }

  /** A file with sections of a and b bytes, byte by byte: the magic number, the revision and the
      two lengths in network byte order, the digest of all behind byte 256, and room for the
      sections. The bytes between the digest and the body are not looked at. */
  ghost predicate Sealed(f: seq<Byte>, a: nat, b: nat, sha: Digest) {
    && |f| == 256 + Round256(a) + Round256(b) && a <= 0x100_0000 && b <= 0x100_0000
    && f[0..4] == [0x0E, 0x0C, 0x0D, 0x0A] && f[4..8] == [0, 0, 0, 2]
    && Numerals.Val(f[8..12], 256) == a && Numerals.Val(f[12..16], 256) == b
    && f[16..48] == sha(f[256..])
  }

  /** A file that loads is sealed, and gives what stands at the places of the sections: one
      behind byte 256, the other behind the room of the first. */
  lemma ParsedIsSealed(f: seq<Byte>, sha: Digest)
    requires Parse(f, sha).Some?
    ensures var d := Parse(f, sha).value;
            && Sealed(f, |d.dht|, |d.extra|, sha)
            && |d.dht| <= Round256(|d.dht|) && |d.extra| <= Round256(|d.extra|)
            && d.dht == f[256..256 + |d.dht|]
            && d.extra == f[256 + Round256(|d.dht|)..256 + Round256(|d.dht|) + |d.extra|]
  {
    ParseIfSealed(f, sha);
    var a, b := Get32(f[8..12]), Get32(f[12..16]);
    PlacesOf(f, a, b);
    var d := Parse(f, sha).value;
    assert |d.dht| == a && |d.extra| == b;
  }

  /** A file that is sealed loads. */
  lemma SealedIsParsed(f: seq<Byte>, a: nat, b: nat, sha: Digest)
    requires Sealed(f, a, b, sha)
    ensures a <= Round256(a) && b <= Round256(b)
    ensures Parse(f, sha) ==
            Some(Sections(f[256..256 + a], f[256 + Round256(a)..256 + Round256(a) + b]))
  {
    ParseIfSealed(f, sha);
    PlacesOf(f, a, b);
  }

  lemma ParseIfSealed(f: seq<Byte>, sha: Digest)
    requires |f| >= 256
    ensures var a, b := Get32(f[8..12]), Get32(f[12..16]);
            && (forall x, y :: Sealed(f, x, y, sha) ==> x == a && y == b)
            && (Parse(f, sha).Some? <==> Sealed(f, a, b, sha))
            && (Parse(f, sha).Some? ==>
                  |f| == HEAD_LEN + Round256(a) + Round256(b) && Parse(f, sha).value == Split(f[HEAD_LEN..], a, b))
  {
    NumbersAt(f);
  }

  lemma NumbersAt(f: seq<Byte>)
    requires |f| >= 256
    ensures Get32(f[0..4]) == MAGIC <==> f[0..4] == [0x0E, 0x0C, 0x0D, 0x0A]
    ensures Get32(f[4..8]) == REVISION <==> f[4..8] == [0, 0, 0, 2]
    ensures Get32(f[8..12]) == Numerals.Val(f[8..12], 256) && Get32(f[12..16]) == Numerals.Val(f[12..16], 256)
  {
    FourBytes(f[0..4], [0x0E, 0x0C, 0x0D, 0x0A]);
    FourBytes(f[4..8], [0, 0, 0, 2]);
    assert f[8..12][..4] == f[8..12] && f[12..16][..4] == f[12..16];
    GetValues(f[8..12]);
    GetValues(f[12..16]);
  }

  lemma FourBytes(s: seq<Byte>, t: seq<Byte>)
    requires |s| == |t| == 4
    ensures Get32(s) == Get32(t) <==> s == t
  {
    if Get32(s) == Get32(t) {
      assert s[..4] == s && t[..4] == t;
      GetValues(s);
      GetValues(t);
      Numerals.ValInjective(s, t, 256);
    }
  }

  lemma PlacesOf(f: seq<Byte>, a: nat, b: nat)
    requires |f| == HEAD_LEN + Round256(a) + Round256(b)
    ensures a <= Round256(a) && b <= Round256(b)
    ensures var d := Split(f[HEAD_LEN..], a, b);
            && |d.dht| == a && |d.extra| == b
            && d == Sections(f[256..256 + a], f[256 + Round256(a)..256 + Round256(a) + b])
  {
    Round256Bounds(a);
    Round256Bounds(b);
    SliceBehind(f, HEAD_LEN, 0, a);
    SliceBehind(f, HEAD_LEN, Round256(a), Round256(a) + b);
  }

  /** What a store writes, byte by byte. */
  lemma ImageLayout(d: Sections, sha: Digest)
    requires WithinLimits(d)
    ensures var f, at := Image(d, sha), 256 + Round256(|d.dht|);
            && Sealed(f, |d.dht|, |d.extra|, sha) && f[48..256] == ZeroFill(208)
            && at + |d.extra| <= |f| && 256 + |d.dht| <= at
            && f[256..256 + |d.dht|] == d.dht && f[256 + |d.dht|..at] == ZeroFill(at - 256 - |d.dht|)
            && f[at..at + |d.extra|] == d.extra && f[at + |d.extra|..] == ZeroFill(|f| - at - |d.extra|)
  {
    Round256Bounds(|d.dht|);
    Round256Bounds(|d.extra|);
    StoreThenLoad(d, sha);
    ParsedIsSealed(Image(d, sha), sha);
    FramedFields(|d.dht|, |d.extra|, Body(d), sha);
    ImageZeros(d, sha);
  }

  lemma ImageZeros(d: Sections, sha: Digest)
    ensures var f, at := Image(d, sha), 256 + Round256(|d.dht|);
            && 256 + |d.dht| <= at && at + |d.extra| <= |f| && f[48..256] == ZeroFill(208)
            && f[256 + |d.dht|..at] == ZeroFill(at - 256 - |d.dht|)
            && f[at + |d.extra|..] == ZeroFill(|f| - at - |d.extra|)
  {
    Round256Bounds(|d.dht|);
    Round256Bounds(|d.extra|);
    var f, at := Image(d, sha), 256 + Round256(|d.dht|);
    FramedFields(|d.dht|, |d.extra|, Body(d), sha);
    var body := f[256..];
    assert body == Body(d);
    BodyZeros(d);
    SliceBehind(f, 256, |d.dht|, Round256(|d.dht|));
    SliceBehind(f, 256, Round256(|d.dht|) + |d.extra|, |body|);
    assert f[..256 + |body|] == f && body[..|body|] == body;
  }

  lemma BodyZeros(d: Sections)
    ensures |d.dht| <= Round256(|d.dht|) && |d.extra| <= Round256(|d.extra|)
    ensures Body(d)[|d.dht|..Round256(|d.dht|)] == ZeroFill(Round256(|d.dht|) - |d.dht|)
    ensures Body(d)[Round256(|d.dht|) + |d.extra|..] == ZeroFill(Round256(|d.extra|) - |d.extra|)
  {
    PaddedTail(d.dht);
    PaddedTail(d.extra);
    InFirst(Padded(d.dht), Padded(d.extra), |d.dht|);
    InSecond(Padded(d.dht), Padded(d.extra), |d.extra|);
  }

  lemma PaddedTail(s: seq<Byte>)
    ensures |s| <= Round256(|s|) && Padded(s)[|s|..] == ZeroFill(Round256(|s|) - |s|)
  {
    Round256Bounds(|s|);
    assert Padded(s) == s + ZeroFill(Round256(|s|) - |s|);
  }

  /** A file that loads, with its body replaced by one of another digest, is refused. */
  lemma DamagedRefused(f: seq<Byte>, body: seq<Byte>, sha: Digest)
    requires Parse(f, sha).Some? && |f| == HEAD_LEN + |body| && sha(body) != sha(f[HEAD_LEN..])
    ensures Parse(f[..HEAD_LEN] + body, sha) == None
  {
    var g := f[..HEAD_LEN] + body;
    assert g[HEAD_LEN..] == body && g[16..48] == f[16..48];
  }

  lemma GetPut32Low(x: nat)
    ensures Get32(Put32(x)) == x % 0x1_0000_0000
  {
    GetPut32(x % 0x1_0000_0000);
    PutLow(x, x / 0x1_0000_0000, x % 0x1_0000_0000);
  }

  lemma PutLow(x: nat, q: nat, r: nat)
    requires x == q * 0x1_0000_0000 + r && r < 0x1_0000_0000
    ensures Put32(x) == Put32(r)
  {
    ShiftedLow(x, 0x100_0000, q, r);
    ShiftedLow(x, 0x1_0000, q * 256, r);
    ShiftedLow(x, 256, q * 0x1_0000, r);
    ShiftedLow(x, 1, q * 0x100_0000, r);
  }

  lemma Distribute(a: nat, b: nat, k: nat)
    ensures (a + b) * k == a * k + b * k
  {
  }

  lemma ShiftedLow(x: nat, k: nat, q: nat, r: nat)
    requires k > 0 && x == (q * 256) * k + r
    ensures x / k % 256 == r / k % 256
  {
    var d, m := r / k, r % k;
    assert r == d * k + m;
    assert x == (q * 256 + d) * k + m by { Distribute(q * 256, d, k); }
    Numerals.QuotRem(k, q * 256 + d, m);
    Numerals.QuotRem(256, q + d / 256, d % 256);
  }

  lemma RoundGrows(a: nat, b: nat)
    requires a <= b
    ensures Round256(a) <= Round256(b)
    ensures b >= a + 256 ==> Round256(a) < Round256(b)
  {
  }

  /** A file with the fields of an image passes the size checks exactly within the limits. */
  lemma ChecksOf(f: seq<Byte>, a: nat, b: nat)
    requires |f| == HEAD_LEN + Round256(a) + Round256(b)
    requires Get32(f[0..4]) == MAGIC && Get32(f[4..8]) == REVISION
    requires Get32(f[8..12]) == a % 0x1_0000_0000 && Get32(f[12..16]) == b % 0x1_0000_0000
    ensures SizeChecks(f) <==> a <= MAX_SECTION && b <= MAX_SECTION
  {
    if a > MAX_SECTION || b > MAX_SECTION {
      LowLengths(a, b);
    } else {
      SmallModulo(a);
      SmallModulo(b);
    }
  }

  lemma FramedNumbers(a: nat, b: nat, body: seq<Byte>, sha: Digest)
    ensures var f := Framed(a, b, body, sha);
            && Get32(f[0..4]) == MAGIC && Get32(f[4..8]) == REVISION
            && Get32(f[8..12]) == a % 0x1_0000_0000 && Get32(f[12..16]) == b % 0x1_0000_0000
  {
    FramedFields(a, b, body, sha);
    GetPut32(MAGIC);
    GetPut32(REVISION);
    GetPut32Low(a);
    GetPut32Low(b);
  }

  /** Whatever stands behind the second section, a file with a right digest is loaded if and
      only if both sections are within the limit. */
  lemma FramedLoads(dht: seq<Byte>, n: nat, tail: seq<Byte>, sha: Digest)
    requires |tail| == Round256(n) >= n
    ensures var f := Framed(|dht|, n, Padded(dht) + tail, sha);
            && (Parse(f, sha) ==
                if |dht| <= MAX_SECTION && n <= MAX_SECTION then Some(Sections(dht, tail[..n])) else None)
            && (Parse(f, sha).Some? ==> ExtraMemory(f) == tail)
  {
    var body := Padded(dht) + tail;
    var f := Framed(|dht|, n, body, sha);
    FramedNumbers(|dht|, n, body, sha);
    ChecksOf(f, |dht|, n);
    FramedFields(|dht|, n, body, sha);
    if |dht| <= MAX_SECTION && n <= MAX_SECTION {
      SmallModulo(|dht|);
      SmallModulo(n);
      SplitsAt(f, dht, n, tail);
    }
  }

  lemma SplitsAt(f: seq<Byte>, dht: seq<Byte>, n: nat, tail: seq<Byte>)
    requires |f| >= HEAD_LEN && f[HEAD_LEN..] == Padded(dht) + tail && |tail| == Round256(n) >= n
    ensures |dht| <= Round256(|dht|) && |f| == HEAD_LEN + Round256(|dht|) + Round256(n)
    ensures Split(f[HEAD_LEN..], |dht|, n) == Sections(dht, tail[..n]) && f[HEAD_LEN + Round256(|dht|)..] == tail
  {
    Round256Bounds(|dht|);
    assert f[HEAD_LEN + Round256(|dht|)..] == f[HEAD_LEN..][Round256(|dht|)..];
  }

  /** Loading what was stored gives both sections back if and only if both are within the
      limit, which the store itself does not look at. Otherwise the file is refused. */
  lemma StoreThenLoad(d: Sections, sha: Digest)
    ensures Parse(Image(d, sha), sha) == if WithinLimits(d) then Some(d) else None
  {
    Round256Bounds(|d.extra|);
    FramedLoads(d.dht, |d.extra|, Padded(d.extra), sha);
    assert Padded(d.extra)[..|d.extra|] == d.extra;
  }

  /** A length that was cut to 32 bits no longer agrees with the size of the file. */
  lemma LowLengths(a: nat, b: nat)
    requires a > MAX_SECTION || b > MAX_SECTION
    ensures var x, y := a % 0x1_0000_0000, b % 0x1_0000_0000;
            x > MAX_SECTION || y > MAX_SECTION || Round256(x) + Round256(y) < Round256(a) + Round256(b)
  {
    RoundGrows(a % 0x1_0000_0000, a);
    RoundGrows(b % 0x1_0000_0000, b);
  }

  /** A part of a file that loads, but not all of it, is refused before any checksum is computed. */
  lemma TornRefused(f: seq<Byte>, n: nat)
    requires SizeChecks(f) && n < |f|
    ensures !SizeChecks(f[..n])
  {
    if n >= HEAD_LEN {
      assert f[..n][8..12] == f[8..12] && f[..n][12..16] == f[12..16];
    }
  }

  /** Neither is a part of any file whose lengths fit their fields. */
  lemma CutFrameRefused(dht: seq<Byte>, n: nat, tail: seq<Byte>, k: nat, sha: Digest)
    requires |tail| == Round256(n) >= n && |dht| < 0x1_0000_0000 && n < 0x1_0000_0000
    requires k < |Framed(|dht|, n, Padded(dht) + tail, sha)|
    ensures Parse(Framed(|dht|, n, Padded(dht) + tail, sha)[..k], sha) == None
  {
    var f := Framed(|dht|, n, Padded(dht) + tail, sha);
    FramedNumbers(|dht|, n, Padded(dht) + tail, sha);
    SmallModulo(|dht|);
    SmallModulo(n);
    if k >= HEAD_LEN {
      assert f[..k][8..12] == f[8..12] && f[..k][12..16] == f[12..16];
    }
  }

  // ----- starting -----

  /** What can be read from the second section on, up to the end of the loaded body. */
  function ExtraMemory(file: seq<Byte>): seq<Byte>
    requires SizeChecks(file)
  {
    file[HEAD_LEN + Round256(Get32(file[8..12]))..]
  }

  /** A start: the file is loaded and the labels in it go to the friends that are there. */
  method Start(file: seq<Byte>, friends: FriendTable, sha: Digest) returns (loaded: Option<Sections>, ok: bool)
    requires friends.Valid()
    modifies friends`labels
    ensures friends.Valid() && loaded == Parse(file, sha)
    ensures loaded == None ==> friends.labels == old(friends.labels)
    ensures loaded.Some? ==>
              var rs := ReadSection(ExtraMemory(file), |loaded.value.extra|);
              && (ok <==> rs.Some? && LabelsFit(old(friends.labels), rs.value))
              && (ok ==> friends.labels == Applied(old(friends.labels), rs.value))
  {
    loaded, ok := Parse(file, sha), true;
    if loaded.Some? { ok := friends.ApplyExtra(ExtraMemory(file), |loaded.value.extra|); }
  }

  /** The list at the front of the section is what is read of it. */
  lemma SavedRead(rs: seq<Record>, extra: seq<Byte>)
    requires AllProper(rs) && extra == Encode(Labelled(rs))
    ensures ReadSection(Padded(extra), |extra|) == Some(Labelled(rs))
  {
    var rest := ZeroFill(Round256(|extra|) - |extra|);
    LabelledReadable(rs);
    EncodeSize(Labelled(rs));
    SectionRead(Padded(extra), Labelled(rs), rest, 0);
  }

  /** A node that is stored and started again with the same friends, whose labels are then
      empty, has its savedata and all labels back, if and only if both sections are within
      the limit; otherwise the file is refused. */
  method SaveAndRestart(dht: seq<Byte>, friends: FriendTable, restarted: FriendTable, sha: Digest)
    returns (loaded: Option<Sections>, ok: bool)
    requires friends.Valid() && restarted.Valid() && restarted != friends
    requires restarted.labels.Keys == friends.labels.Keys
    requires forall n :: n in restarted.labels ==> restarted.labels[n] == []
    modifies restarted`labels
    ensures friends.Valid() && restarted.Valid()
    ensures var size := |Encode(Labelled(friends.Records()))|;
            loaded.Some? <==> |dht| <= 0x100_0000 && size <= 0x100_0000
    ensures loaded.Some? ==> ok && loaded.value.dht == dht && restarted.labels == friends.labels
  {
    var image := BuildImage(dht, friends, sha);
    ghost var rs := friends.Records();
    LabelsRestored(friends, restarted.labels);
    ImageStarts(dht, rs, Encode(Labelled(rs)), restarted.labels, sha);
    loaded, ok := Start(image[..], restarted, sha);
  }

  lemma ImageStarts(dht: seq<Byte>, rs: seq<Record>, extra: seq<Byte>, labels: map<nat, seq<Byte>>, sha: Digest)
    requires AllProper(rs) && extra == Encode(Labelled(rs))
    ensures var d, f := Sections(dht, extra), Image(Sections(dht, extra), sha);
            && Parse(f, sha) == (if WithinLimits(d) then Some(d) else None)
            && (WithinLimits(d) ==> ReadSection(ExtraMemory(f), |extra|) == Some(Labelled(rs)))
            && LabelsFit(labels, Labelled(rs))
  {
    StoreThenLoad(Sections(dht, extra), sha);
    Round256Bounds(|extra|);
    FramedLoads(dht, |extra|, Padded(extra), sha);
    SavedRead(rs, extra);
    SavedFit(labels, rs);
  }

  lemma SavedFit(labels: map<nat, seq<Byte>>, rs: seq<Record>)
    requires AllProper(rs)
    ensures LabelsFit(labels, Labelled(rs))
  {
    LabelledMembers(rs);
    var ls := Labelled(rs);
    assert forall i :: 0 <= i < |ls| ==> ls[i] in rs;
  }
}
