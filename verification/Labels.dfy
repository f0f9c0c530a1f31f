/** Friend labels in the extra section of the data file: a number in network byte order, the
    label and a zero byte for each friend that has one. */
module Labels {
  import opened Bytes
  import opened Options
  import opened Sealing
  import Numerals

  const MAX_LABEL := 63

  datatype Record = Record(number: nat, text: seq<Byte>)

  ghost predicate NoZero(text: seq<Byte>) { forall k :: 0 <= k < |text| ==> text[k] != 0 }

  ghost predicate Proper(r: Record) { r.number < 0x1_0000_0000 && |r.text| <= MAX_LABEL && NoZero(r.text) }

  ghost predicate AllProper(rs: seq<Record>) { forall i :: 0 <= i < |rs| ==> Proper(rs[i]) }

  function Entry(r: Record): seq<Byte> { Put32(r.number) + (r.text + [0]) }

  function Encode(rs: seq<Record>): seq<Byte> {
    if rs == [] then [] else Entry(rs[0]) + Encode(rs[1..])
  }

  /** The records with a label. */
  function Labelled(rs: seq<Record>): seq<Record> {
    if rs == [] then [] else (if rs[0].text == [] then [] else [rs[0]]) + Labelled(rs[1..])
  }

  lemma {:induction false} LabelledMembers(rs: seq<Record>)
    ensures forall r :: r in Labelled(rs) <==> r in rs && r.text != []
  {
    if rs != [] {
      LabelledMembers(rs[1..]);
      assert rs == [rs[0]] + rs[1..];
    }
  }

  /** A record byte by byte: the number in network byte order, the label, a zero. */
  lemma EntryBytes(r: Record)
    requires r.number < 0x1_0000_0000
    ensures var s := Entry(r);
            && |s| == 4 + |r.text| + 1 && Numerals.Val(s[..4], 256) == r.number
            && s[4..4 + |r.text|] == r.text && s[4 + |r.text|] == 0
  {
    PutValues(r.number);
    SmallModulo(r.number);
    assert Entry(r)[..4] == Put32(r.number);
  }

  lemma {:induction false} EncodeAppend(a: seq<Record>, b: seq<Record>)
    ensures Encode(a + b) == Encode(a) + Encode(b)
  {
    if a == [] {
      assert a + b == b;
    } else {
      AppendRest(a, b);
      EncodeAppend(a[1..], b);
      AppendAppend(Entry(a[0]), Encode(a[1..]), Encode(b));
    }
  }

  lemma {:induction false} LabelledAppend(a: seq<Record>, b: seq<Record>)
    ensures Labelled(a + b) == Labelled(a) + Labelled(b)
  {
    if a == [] {
      assert a + b == b;
    } else {
      AppendRest(a, b);
      LabelledAppend(a[1..], b);
    }
  }

  lemma LabelledReadable(rs: seq<Record>)
    requires forall i :: 0 <= i < |rs| ==> rs[i].number < 0x1_0000_0000 && NoZero(rs[i].text)
    ensures Readable(Labelled(rs))
  {
    LabelledMembers(rs);
    var ls := Labelled(rs);
    assert forall i :: 0 <= i < |ls| ==> ls[i] in rs;
  }

  lemma LabelledNext(rs: seq<Record>, i: nat)
    requires i < |rs|
    ensures Labelled(rs[..i + 1]) == Labelled(rs[..i]) + if rs[i].text == [] then [] else [rs[i]]
  {
    TakeNext(rs, i);
    LabelledAppend(rs[..i], [rs[i]]);
  }

  lemma EncodeNext(rs: seq<Record>, r: Record)
    ensures Encode(rs + [r]) == Encode(rs) + Entry(r)
  {
    EncodeAppend(rs, [r]);
    assert [r][1..] == [];
  }

  lemma SavedNext(rs: seq<Record>, i: nat)
    requires i < |rs|
    ensures Encode(Labelled(rs[..i + 1])) == Encode(Labelled(rs[..i])) + if rs[i].text == [] then [] else Entry(rs[i])
  {
    LabelledNext(rs, i);
    if rs[i].text == [] {
      assert Labelled(rs[..i]) + [] == Labelled(rs[..i]);
    } else {
      EncodeNext(Labelled(rs[..i]), rs[i]);
    }
  }

  /** One record, field by field. */
  method WriteEntry(buf: array<Byte>, at: nat, number: nat, text: seq<Byte>)
    requires at + 4 + |text| + 1 <= buf.Length
    modifies buf
    ensures buf[..] == Patch(old(buf[..]), at, Entry(Record(number, text)))
  {
    PatchNext(buf[..], at, Put32(number), text + [0]);
    Copy(buf, at, Put32(number));
    Copy(buf, at + 4, text + [0]);
  }

  /** The records in `done` have been written from `at` up to pos. */
  ghost predicate Written(s: seq<Byte>, before: seq<Byte>, at: nat, pos: nat, done: seq<Record>) {
    pos == at + |Encode(done)| && pos <= |before| && s == Patch(before, at, Encode(done))
  }

  lemma NothingWritten(s: seq<Byte>, rs: seq<Record>, room: nat, at: nat)
    requires at <= |s|
    ensures Written(s, s, at, at, []) && Halfway(rs, room, 0, [], room)
  {
    PatchNothing(s, at);
    assert rs[0..] == rs;
  }

  method AppendEntry(buf: array<Byte>, pos: nat, number: nat, text: seq<Byte>,
                     ghost before: seq<Byte>, ghost at: nat, ghost done: seq<Record>)
    requires pos + 4 + |text| + 1 <= buf.Length && Written(buf[..], before, at, pos, done)
    modifies buf
    ensures Written(buf[..], before, at, pos + 4 + |text| + 1, done + [Record(number, text)])
  {
    EncodeNext(done, Record(number, text));
    PatchNext(before, at, Encode(done), Entry(Record(number, text)));
    WriteEntry(buf, pos, number, text);
  }

  /** strlen from a position on; -1 where there is no zero byte to end the string. */
  method StrLen(s: seq<Byte>, from: nat) returns (n: int)
    ensures n == TextLen(s, from)
  {
    n := 0;
    while from + n < |s| && s[from + n] != 0
      invariant 0 <= n && forall k :: from <= k < from + n ==> k < |s| && s[k] != 0
      decreases |s| - n
    {
      n := n + 1;
    }
    if from + n < |s| {
      TextLenIs(s, from, n);
    } else {
      n := -1;
      NoTextLen(s, from);
    }
  }

  function TextLen(s: seq<Byte>, from: nat): (n: int)
    ensures n == -1 || (0 <= n && from + n < |s| && s[from + n] == 0)
    decreases |s| - from
  {
    if from >= |s| then -1 else if s[from] == 0 then 0
    else if TextLen(s, from + 1) == -1 then -1 else TextLen(s, from + 1) + 1
  }

  lemma {:induction false} TextLenIs(s: seq<Byte>, from: nat, n: nat)
    requires from + n < |s| && s[from + n] == 0 && forall k :: from <= k < from + n ==> s[k] != 0
    ensures TextLen(s, from) == n
    decreases n
  {
    if n > 0 { TextLenIs(s, from + 1, n - 1); }
  }

  lemma {:induction false} NoTextLen(s: seq<Byte>, from: nat)
    requires forall k :: from <= k < |s| ==> s[k] != 0
    ensures TextLen(s, from) == -1
    decreases |s| - from
  {
    if from < |s| { NoTextLen(s, from + 1); }
  }

  /** The records that get written when there is room for `room` bytes. */
  function Fitting(rs: seq<Record>, room: nat): seq<Record> {
    if rs == [] || room == 0 then []
    else if rs[0].text == [] then Fitting(rs[1..], room)
    else if room < |Entry(rs[0])| then []
    else [rs[0]] + Fitting(rs[1..], room - |Entry(rs[0])|)
  }

  /** Behind `done` the records from i on remain, with `len` bytes of room. */
  ghost predicate Halfway(rs: seq<Record>, room: nat, i: nat, done: seq<Record>, len: nat) {
    i <= |rs| && Fitting(rs, room) == done + Fitting(rs[i..], len)
  }

  lemma FittingNext(rs: seq<Record>, room: nat, i: nat, done: seq<Record>, len: nat)
    requires i < |rs| && len > 0 && Halfway(rs, room, i, done, len)
    ensures rs[i].text == [] ==> Halfway(rs, room, i + 1, done, len)
    ensures rs[i].text != [] && len < |Entry(rs[i])| ==> Fitting(rs, room) == done
    ensures rs[i].text != [] && len >= |Entry(rs[i])| ==> Halfway(rs, room, i + 1, done + [rs[i]], len - |Entry(rs[i])|)
  {
    assert rs[i..][0] == rs[i] && rs[i..][1..] == rs[i + 1..];
    if rs[i].text != [] && len >= |Entry(rs[i])| {
      AppendAppend(done, [rs[i]], Fitting(rs[i + 1..], len - |Entry(rs[i])|));
    }
  }

  lemma FittingEnd(rs: seq<Record>, room: nat, i: nat, done: seq<Record>, len: nat)
    requires Halfway(rs, room, i, done, len) && (i == |rs| || len == 0)
    ensures Fitting(rs, room) == done
  {
  }

  /** With the room the size computation asks for, every labelled record is written. */
  lemma {:induction false} RoomSuffices(rs: seq<Record>, room: nat)
    requires room >= |Encode(Labelled(rs))|
    ensures Fitting(rs, room) == Labelled(rs)
  {
    if rs != [] {
      var ls := Labelled(rs[1..]);
      if rs[0].text == [] {
        assert Labelled(rs) == ls;
        RoomSuffices(rs[1..], room);
      } else {
        assert Labelled(rs) == [rs[0]] + ls && ([rs[0]] + ls)[1..] == ls;
        RoomSuffices(rs[1..], room - |Entry(rs[0])|);
      }
    }
  }

  function RecordsOf(order: seq<nat>, labels: map<nat, seq<Byte>>): (rs: seq<Record>)
    requires forall i :: 0 <= i < |order| ==> order[i] in labels
    ensures |rs| == |order| && forall i :: 0 <= i < |rs| ==> rs[i] == Record(order[i], labels[order[i]])
  {
    seq(|order|, i requires 0 <= i < |order| => Record(order[i], labels[order[i]]))
  }

  /** The friends of a node, in the order of their table. */
  class FriendTable {
    var order: seq<nat>
    var labels: map<nat, seq<Byte>>

    ghost predicate Valid()
      reads this
    {
      && (forall i, j :: 0 <= i < j < |order| ==> order[i] != order[j])
      && (forall n :: n in labels <==> n in order)
      && (forall n :: n in labels ==> Proper(Record(n, labels[n])))
    }

    function Records(): (rs: seq<Record>)
      requires Valid()
      reads this
      ensures |rs| == |order| && AllProper(rs)
    {
      RecordsOf(order, labels)
    }

    /** get_extra_savedata_size: the bytes that the labels will take. */
    method ExtraSize() returns (total: nat)
      requires Valid()
      ensures total == |Encode(Labelled(Records()))|
    {
      total := 0;
      ghost var rs := Records();
      for i := 0 to |order|
        invariant total == |Encode(Labelled(rs[..i]))|
      {
        var size := |labels[order[i]]|;
        assert rs[i] == Record(order[i], labels[order[i]]);
        SavedNext(rs, i);
        if size > 0 { total := total + 4 + size + 1; }
      }
      assert rs[..|order|] == rs;
    }

    /** get_extra_savedata: writes the records that fit, one after the other. */
    method WriteExtra(buf: array<Byte>, at: nat, room: nat)
      requires Valid() && at + room <= buf.Length
      modifies buf
      ensures |Encode(Fitting(Records(), room))| <= room
      ensures buf[..] == Patch(old(buf[..]), at, Encode(Fitting(Records(), room)))
    {
      ghost var rs, before := Records(), buf[..];
      ghost var done := [];
      var pos: nat, len: nat, i, more := at, room, 0, true;
      NothingWritten(before, rs, room, at);
      while more && i < |order| && len > 0
        invariant 0 <= i <= |order| && pos + len == at + room
        invariant Written(buf[..], before, at, pos, done)
        invariant if more then Halfway(rs, room, i, done, len) else Fitting(rs, room) == done
      {
        more := WriteNext(buf, i, pos, len, rs, before, at, room, done);
        if more {
          var size := |labels[order[i]]|;
          if size > 0 {
            done := done + [rs[i]];
            pos, len := pos + 4 + size + 1, len - (4 + size + 1);
          }
          i := i + 1;
        }
      }
      if more { FittingEnd(rs, room, i, done, len); }
    }

    /** One round of the loop; false where it breaks off. */
    method WriteNext(buf: array<Byte>, i: nat, pos: nat, len: nat,
                     ghost rs: seq<Record>, ghost before: seq<Byte>, ghost at: nat, ghost room: nat,
                     ghost done: seq<Record>)
      returns (more: bool)
      requires Valid() && rs == Records() && i < |order| && 0 < len && pos + len <= buf.Length
      requires Written(buf[..], before, at, pos, done) && Halfway(rs, room, i, done, len)
      modifies buf
      ensures !more ==> Written(buf[..], before, at, pos, done) && Fitting(rs, room) == done
      ensures more && rs[i].text == [] ==>
                Written(buf[..], before, at, pos, done) && Halfway(rs, room, i + 1, done, len)
      ensures more && rs[i].text != [] ==>
                && 4 + |rs[i].text| + 1 <= len
                && Written(buf[..], before, at, pos + 4 + |rs[i].text| + 1, done + [rs[i]])
                && Halfway(rs, room, i + 1, done + [rs[i]], len - (4 + |rs[i].text| + 1))
    {
      var text := labels[order[i]];
      assert rs[i] == Record(order[i], text) && |Entry(rs[i])| == 4 + |text| + 1;
      FittingNext(rs, room, i, done, len);
      if |text| > 0 {
        if len < 4 + |text| + 1 {
          return false;
        }
        AppendEntry(buf, pos, order[i], text, before, at, done);
      }
      return true;
    }

    /** With the room that its size asks for, all of it is written. */
    method WriteAll(buf: array<Byte>, at: nat, room: nat, ghost extra: seq<Byte>)
      requires Valid() && at + room <= buf.Length && extra == Encode(Labelled(Records())) && |extra| <= room
      modifies buf
      ensures buf[..] == Patch(old(buf[..]), at, extra)
    {
      RoomSuffices(Records(), room);
      WriteExtra(buf, at, room);
    }

    /** apply_extra_data on any bytes. Nothing is checked in the source: `ok` is false exactly
        where it reads past the end of the data or writes past the end of a label field. */
    method ApplyExtra(data: seq<Byte>, len: nat) returns (ok: bool)
      requires Valid()
      modifies this`labels
      ensures Valid()
      ensures ok <==> ReadSection(data, len).Some? && LabelsFit(old(labels), ReadSection(data, len).value)
      ensures ok ==> labels == Applied(old(labels), ReadSection(data, len).value)
    {
      ghost var next, all := ReaderOf(data), ReadSection(data, len);
      ok := ApplyAll(data, len, next, all);
    }

    method ApplyAll(data: seq<Byte>, len: nat, ghost next: Reader, ghost all: Option<seq<Record>>) returns (ok: bool)
      requires Valid() && ReadsFrom(next, data) && all == ReadAll(next, |data|, 0, len)
      modifies this`labels
      ensures Valid()
      ensures ok <==> all.Some? && LabelsFit(old(labels), all.value)
      ensures ok ==> labels == Applied(old(labels), all.value)
    {
      var pos: nat, left: nat := 0, len;
      ghost var done: seq<Record> := [];
      Begun(all);
      assert ApplyingTo(labels, [], labels);
      while left > 0
        invariant Valid() && ApplyingTo(old(labels), done, labels)
        invariant ReadSoFar(all, done, ReadAll(next, |data|, pos, left))
        decreases |data| - pos
      {
        var more, r;
        more, ok, r := ApplyNext(data, pos, next, all, old(labels), done, left);
        if !more { return; }
        done := done + [r];
        pos, left := pos + Width(r), Minus(left, Width(r));
      }
      ReadUp(all, done);
      return true;
    }

    /** One round of the loop. */
    method ApplyNext(data: seq<Byte>, pos: nat, ghost next: Reader, ghost all: Option<seq<Record>>,
                     ghost before: map<nat, seq<Byte>>, ghost done: seq<Record>, ghost left: nat)
      returns (more: bool, ok: bool, r: Record)
      requires Valid() && ReadsFrom(next, data) && left > 0 && ApplyingTo(before, done, labels)
      requires ReadSoFar(all, done, ReadAll(next, |data|, pos, left))
      modifies this`labels
      ensures Valid()
      ensures more ==> ApplyingTo(before, done + [r], labels) && pos + Width(r) <= |data|
                       && ReadSoFar(all, done + [r], ReadAll(next, |data|, pos + Width(r), Minus(left, Width(r))))
      ensures !more ==> && (ok <==> all.Some? && LabelsFit(before, all.value))
                        && (ok ==> labels == Applied(before, all.value))
    {
      more, ok, r := false, false, Record(0, []);
      ReadOn(next, |data|, all, done, pos, left);
      var read := ReadRecord(data, pos, next);
      if read == None { return; }
      r := read.value;
      if r.text == [] { return false, true, r; }
      ApplyOn(before, done, labels, r, all);
      if r.number in labels && |r.text| > MAX_LABEL { return; }
      SetLabel(r.number, r.text);
      more := true;
    }

    method SetLabel(number: nat, text: seq<Byte>)
      requires Valid() && number < 0x1_0000_0000 && NoZero(text) && (number in labels ==> |text| <= MAX_LABEL)
      modifies this`labels
      ensures Valid() && labels == SetIn(old(labels), Record(number, text))
    {
      if number in labels {
        labels := labels[number := text];
      }
    }
  }

  const WORD := 0x1_0000_0000_0000_0000

  /** Subtraction of lengths in one machine word, which wraps around. */
  function Minus(a: nat, b: nat): nat { if a >= b then a - b else if b <= a + WORD then a + WORD - b else 0 }

  /** The number and the string at pos; none where the data ends before. */
  function NextRecord(data: seq<Byte>, pos: nat): (r: Option<Record>)
    ensures r.Some? ==> pos + 4 + |r.value.text| < |data|
  {
    if pos + 4 > |data| || TextLen(data, pos + 4) == -1 then None
    else Some(Record(Get32(data[pos..pos + 4]), data[pos + 4..pos + 4 + TextLen(data, pos + 4)]))
  }

  method ReadRecord(data: seq<Byte>, pos: nat, ghost next: Reader) returns (r: Option<Record>)
    requires ReadsFrom(next, data)
    ensures r == next(pos)
    ensures r.Some? ==> r.value.number < 0x1_0000_0000 && NoZero(r.value.text) && pos + Width(r.value) <= |data|
  {
    assert Unsealed(Reading, 0);
    if pos + 4 > |data| { return None; }
    var size := StrLen(data, pos + 4);
    if size == -1 { return None; }
    TextHasNoZero(data, pos + 4);
    return Some(Record(Get32(data[pos..pos + 4]), data[pos + 4..pos + 4 + size]));
  }

  /** What is found at each position of some data. */
  type Reader = nat -> Option<Record>

  function ReaderOf(data: seq<Byte>): Reader { (pos: nat) => NextRecord(data, pos) }

  /** The reader is that of the data; sealed, so that proofs about lists need not look at bytes. */
  ghost predicate ReadsFrom(next: Reader, data: seq<Byte>) {
    forall i {:trigger Unsealed(Reading, i)} :: Unsealed(Reading, i) ==> next == ReaderOf(data)
  }

  function Width(r: Record): nat { 4 + |r.text| + 1 }

  /** The records from pos on, up to the end of the section or a record without label; none
      where the data, `size` bytes, ends before. */
  function ReadAll(next: Reader, size: nat, pos: nat, left: nat): Option<seq<Record>>
    decreases size - pos
  {
    if left == 0 then Some([])
    else if next(pos) == None || pos + Width(next(pos).value) > size then None
    else if next(pos).value.text == [] then Some([])
    else
      var r := next(pos).value;
      var more := ReadAll(next, size, pos + Width(r), Minus(left, Width(r)));
      if more == None then None else Some([r] + more.value)
  }

  /** The records of a section of `len` bytes at the front of the data. */
  function ReadSection(data: seq<Byte>, len: nat): Option<seq<Record>> { ReadAll(ReaderOf(data), |data|, 0, len) }

  /** `done` was read, the rest is read from pos on. */
  ghost predicate ReadSoFar(all: Option<seq<Record>>, done: seq<Record>, more: Option<seq<Record>>) {
    if more == None then all == None else all == Some(done + more.value)
  }

  lemma Begun(all: Option<seq<Record>>)
    ensures ReadSoFar(all, [], all)
  {
    if all.Some? { assert [] + all.value == all.value; }
  }

  lemma ReadOn(next: Reader, size: nat, all: Option<seq<Record>>, done: seq<Record>, pos: nat, left: nat)
    requires left > 0 && ReadSoFar(all, done, ReadAll(next, size, pos, left))
    ensures next(pos) == None || pos + Width(next(pos).value) > size ==> all == None
    ensures next(pos).Some? && pos + Width(next(pos).value) <= size ==>
              var r := next(pos).value;
              if r.text == [] then all == Some(done)
              else ReadSoFar(all, done + [r], ReadAll(next, size, pos + Width(r), Minus(left, Width(r))))
                   && (all.Some? ==> done + [r] <= all.value)
  {
    if next(pos).Some? && pos + Width(next(pos).value) <= size {
      var r := next(pos).value;
      if r.text == [] {
        assert done + [] == done;
      } else {
        var more := ReadAll(next, size, pos + Width(r), Minus(left, Width(r)));
        if more.Some? { Regroup(done, r, more.value); }
      }
    }
  }

  lemma ReadUp(all: Option<seq<Record>>, done: seq<Record>)
    requires ReadSoFar(all, done, Some([]))
    ensures all == Some(done)
  {
    assert done + [] == done;
  }

  lemma TooLong(labels: map<nat, seq<Byte>>, all: Option<seq<Record>>, done: seq<Record>, r: Record)
    requires r.number in labels && |r.text| > MAX_LABEL && (all.Some? ==> done + [r] <= all.value)
    ensures all.Some? ==> !LabelsFit(labels, all.value)
  {
    if all.Some? { assert all.value[|done|] == (done + [r])[|done|] == r; }
  }

  /** The records read so far have been applied and fitted. */
  ghost predicate ApplyingTo(before: map<nat, seq<Byte>>, done: seq<Record>, labels: map<nat, seq<Byte>>) {
    labels == Applied(before, done) && LabelsFit(before, done)
  }

  lemma ApplyOn(before: map<nat, seq<Byte>>, done: seq<Record>, labels: map<nat, seq<Byte>>, r: Record,
                all: Option<seq<Record>>)
    requires ApplyingTo(before, done, labels) && (all.Some? ==> done + [r] <= all.value)
    ensures if r.number in labels && |r.text| > MAX_LABEL then all.Some? ==> !LabelsFit(before, all.value)
            else ApplyingTo(before, done + [r], SetIn(labels, r))
  {
    KeysStay(before, done);
    AppliedMore(before, done, r);
    if r.number in labels && |r.text| > MAX_LABEL { TooLong(before, all, done, r); }
  }

  lemma {:induction false} KeysStay(labels: map<nat, seq<Byte>>, rs: seq<Record>)
    ensures Applied(labels, rs).Keys == labels.Keys
  {
    if rs != [] { KeysStay(labels, rs[..|rs| - 1]); }
  }

  lemma AppliedMore(labels: map<nat, seq<Byte>>, rs: seq<Record>, r: Record)
    ensures Applied(labels, rs + [r]) == SetIn(Applied(labels, rs), r)
    ensures LabelsFit(labels, rs) && (r.number in labels ==> |r.text| <= MAX_LABEL) ==> LabelsFit(labels, rs + [r])
  {
    assert (rs + [r])[..|rs|] == rs;
  }

  lemma {:induction false} TextHasNoZero(s: seq<Byte>, from: nat)
    requires TextLen(s, from) != -1
    ensures NoZero(s[from..from + TextLen(s, from)])
    decreases |s| - from
  {
    if s[from] != 0 {
      TextHasNoZero(s, from + 1);
      var n := TextLen(s, from);
      assert s[from..from + n] == [s[from]] + s[from + 1..from + n];
    }
  }

  function SetIn(labels: map<nat, seq<Byte>>, r: Record): map<nat, seq<Byte>> {
    if r.number in labels then labels[r.number := r.text] else labels
  }

  function Applied(labels: map<nat, seq<Byte>>, rs: seq<Record>): map<nat, seq<Byte>> {
    if rs == [] then labels else SetIn(Applied(labels, rs[..|rs| - 1]), rs[|rs| - 1])
  }

  lemma LabelLength(data: seq<Byte>, pos: nat, head: seq<Byte>, text: seq<Byte>)
    requires FieldsAt(data, pos, head, text) && NoZero(text)
    ensures TextLen(data, pos + 4) == |text|
  {
    var t := data[pos + 4..pos + 4 + |text|];
    assert forall k :: 0 <= k < |t| ==> t[k] == data[pos + 4 + k];
    TextLenIs(data, pos + 4, |text|);
  }

  /** Records as the reader expects them: with a label and ending in a zero byte. */
  ghost predicate Readable(rs: seq<Record>) {
    forall i :: 0 <= i < |rs| ==> rs[i].number < 0x1_0000_0000 && rs[i].text != [] && NoZero(rs[i].text)
  }

  /** The labels of the friends that are known fit their fields. */
  ghost predicate LabelsFit(labels: map<nat, seq<Byte>>, rs: seq<Record>) {
    forall i :: 0 <= i < |rs| && rs[i].number in labels ==> |rs[i].text| <= MAX_LABEL
  }

  lemma FitMeans(labels: map<nat, seq<Byte>>, rs: seq<Record>)
    ensures LabelsFit(labels, rs) <==> forall r :: r in rs && r.number in labels ==> |r.text| <= 63
  {
    if LabelsFit(labels, rs) {
      forall r | r in rs && r.number in labels ensures |r.text| <= 63 {
        var i :| 0 <= i < |rs| && rs[i] == r;
      }
    } else {
      var i :| 0 <= i < |rs| && rs[i].number in labels && |rs[i].text| > MAX_LABEL;
      assert rs[i] in rs;
    }
  }

  /** Nothing comes after the list, or a record without label does. */
  ghost predicate Ends(rest: seq<Byte>, more: nat) { more == 0 || (|rest| >= 5 && rest[4] == 0) }

  /** The reader finds a list from pos on, and its end. */
  ghost predicate Finds(next: Reader, data: seq<Byte>, pos: nat, rs: seq<Record>, rest: seq<Byte>, more: nat) {
    forall i {:trigger Unsealed(Reading, i)} :: Unsealed(Reading, i) ==>
      && next == ReaderOf(data) && pos <= |data| && data[pos..] == Encode(rs) + rest
      && Readable(rs) && Ends(rest, more)
  }

  /** A list of records is read back. */
  lemma {:induction false} ReadingRecords(next: Reader, data: seq<Byte>, pos: nat, rs: seq<Record>, rest: seq<Byte>,
                                          more: nat)
    requires Finds(next, data, pos, rs, rest, more)
    ensures ReadAll(next, |data|, pos, Size(rs) + more) == Some(rs)
    decreases |rs|
  {
    if rs == [] {
      ReadNoMore(next, data, pos, rest, more);
    } else {
      NextIs(next, data, pos, rs, rest, more);
      ReadingRecords(next, data, pos + Width(rs[0]), rs[1..], rest, more);
      ReadOneMore(next, |data|, pos, rs, Size(rs[1..]) + more);
    }
  }

  lemma ReadNoMore(next: Reader, data: seq<Byte>, pos: nat, rest: seq<Byte>, more: nat)
    requires Finds(next, data, pos, [], rest, more)
    ensures ReadAll(next, |data|, pos, more) == Some([])
  {
    assert Unsealed(Reading, 0);
    assert [] + rest == rest;
    if more > 0 { EmptyNext(data, pos, rest); }
  }

  lemma ReadOneMore(next: Reader, size: nat, pos: nat, rs: seq<Record>, left: nat)
    requires rs != [] && rs[0].text != [] && next(pos) == Some(rs[0]) && pos + Width(rs[0]) <= size
    requires ReadAll(next, size, pos + Width(rs[0]), left) == Some(rs[1..])
    ensures ReadAll(next, size, pos, Width(rs[0]) + left) == Some(rs)
  {
    assert rs == [rs[0]] + rs[1..];
  }

  /** The length of the section counts only where it ends a record: the reader stops there.
      Anywhere else the count of what is left wraps around, and the reader goes on to the first
      record without label. */
  lemma LengthCounts(rs: seq<Record>, rest: seq<Byte>, n: nat)
    requires Readable(rs) && |rest| >= 5 && rest[4] == 0 && Size(rs) < 0x1_0000_0000_0000_0000 && n <= Size(rs)
    ensures forall k :: 0 <= k <= |rs| && n == Size(rs[..k]) ==> ReadSection(Encode(rs) + rest, n) == Some(rs[..k])
    ensures (forall k :: 0 <= k <= |rs| ==> n != Size(rs[..k])) ==> ReadSection(Encode(rs) + rest, n) == Some(rs)
  {
    var data := Encode(rs) + rest;
    assert data[0..] == data;
    RunsOn(ReaderOf(data), data, 0, rs, rest, n);
    assert forall k: nat :: StopsAt(rs, n, k) <==> k <= |rs| && n == Size(rs[..k]);
  }

  ghost predicate StopsAt(rs: seq<Record>, left: nat, k: nat) { k <= |rs| && left == Size(rs[..k]) }

  lemma {:induction false} RunsOn(next: Reader, data: seq<Byte>, pos: nat, rs: seq<Record>, rest: seq<Byte>, left: nat)
    requires Finds(next, data, pos, rs, rest, 1) && Size(rs) < WORD
    ensures ReadsTo(rs, left, ReadAll(next, |data|, pos, left))
    decreases |rs|
  {
    if left == 0 {
      StopsAtOnce(rs);
    } else if rs == [] {
      assert Unsealed(Reading, 0);
      assert [] + rest == rest;
      EmptyNext(data, pos, rest);
    } else {
      var more := Minus(left, Width(rs[0]));
      NextIs(next, data, pos, rs, rest, 1);
      RunsOn(next, data, pos + Width(rs[0]), rs[1..], rest, more);
      ReadsOne(next, |data|, pos, rs, left);
    }
  }

  /** The records up to where the count runs out, or all of them. */
  ghost predicate ReadsTo(rs: seq<Record>, left: nat, read: Option<seq<Record>>) {
    && (forall k: nat :: StopsAt(rs, left, k) ==> read == Some(rs[..k]))
    && ((forall k: nat :: !StopsAt(rs, left, k)) ==> read == Some(rs))
  }

  lemma ReadsOne(next: Reader, size: nat, pos: nat, rs: seq<Record>, left: nat)
    requires rs != [] && left > 0 && rs[0].text != [] && next(pos) == Some(rs[0]) && pos + Width(rs[0]) <= size
    requires Size(rs) < WORD
    requires ReadsTo(rs[1..], Minus(left, Width(rs[0])),
                     ReadAll(next, size, pos + Width(rs[0]), Minus(left, Width(rs[0]))))
    ensures ReadsTo(rs, left, ReadAll(next, size, pos, left))
  {
    forall k: nat | StopsAt(rs, left, k) ensures ReadAll(next, size, pos, left) == Some(rs[..k]) {
      StopsLater(rs, left, k);
      ReadOne(next, size, pos, rs, left, rs[1..][..k - 1]);
      assert rs[..k] == [rs[0]] + rs[1..][..k - 1];
    }
    if forall k: nat :: !StopsAt(rs, left, k) {
      NeverStops(rs, left);
      ReadOne(next, size, pos, rs, left, rs[1..]);
      assert rs == [rs[0]] + rs[1..];
    }
  }

  lemma ReadOne(next: Reader, size: nat, pos: nat, rs: seq<Record>, left: nat, more: seq<Record>)
    requires rs != [] && left > 0 && rs[0].text != [] && next(pos) == Some(rs[0]) && pos + Width(rs[0]) <= size
    requires ReadAll(next, size, pos + Width(rs[0]), Minus(left, Width(rs[0]))) == Some(more)
    ensures ReadAll(next, size, pos, left) == Some([rs[0]] + more)
  {
  }

  lemma StopsAtOnce(rs: seq<Record>)
    ensures StopsAt(rs, 0, 0) && forall k: nat :: StopsAt(rs, 0, k) ==> rs[..k] == []
  {
    assert rs[..0] == [];
    forall k: nat | StopsAt(rs, 0, k) ensures rs[..k] == [] {
      SizeIsZero(rs[..k]);
    }
  }

  lemma SizeIsZero(rs: seq<Record>)
    ensures Size(rs) == 0 <==> rs == []
  {
  }

  lemma StopsLater(rs: seq<Record>, left: nat, k: nat)
    requires rs != [] && left > 0 && StopsAt(rs, left, k)
    ensures k > 0 && StopsAt(rs[1..], Minus(left, Width(rs[0])), k - 1)
  {
    assert rs[..0] == [];
    assert k > 0;
    assert rs[..k][0] == rs[0] && rs[..k][1..] == rs[1..][..k - 1];
  }

  lemma NeverStops(rs: seq<Record>, left: nat)
    requires rs != [] && left > 0 && Size(rs) < WORD && forall k: nat :: !StopsAt(rs, left, k)
    ensures forall k: nat :: !StopsAt(rs[1..], Minus(left, Width(rs[0])), k)
  {
    forall k: nat ensures !StopsAt(rs[1..], Minus(left, Width(rs[0])), k) {
      if k < |rs| { NextStop(rs, left, k); }
    }
  }

  lemma NextStop(rs: seq<Record>, left: nat, k: nat)
    requires k < |rs| && left > 0 && Size(rs) < WORD
    ensures StopsAt(rs[1..], Minus(left, Width(rs[0])), k) ==> StopsAt(rs, left, k + 1)
  {
    SizeUpTo(rs[1..], k);
    assert rs[..k + 1][0] == rs[0] && rs[..k + 1][1..] == rs[1..][..k];
  }

  lemma {:induction false} SizeUpTo(rs: seq<Record>, k: nat)
    requires k <= |rs|
    ensures Size(rs[..k]) <= Size(rs)
  {
    if k > 0 {
      SizeUpTo(rs[1..], k - 1);
      assert rs[..k][0] == rs[0] && rs[..k][1..] == rs[1..][..k - 1];
    }
  }

  /** A section that is a list, followed by nothing or by a record without label. */
  lemma SectionRead(data: seq<Byte>, rs: seq<Record>, rest: seq<Byte>, more: nat)
    requires Readable(rs) && Ends(rest, more) && data == Encode(rs) + rest
    ensures ReadSection(data, Size(rs) + more) == Some(rs)
  {
    assert data[0..] == data;
    ReadingRecords(ReaderOf(data), data, 0, rs, rest, more);
  }

  lemma NextIs(next: Reader, data: seq<Byte>, pos: nat, rs: seq<Record>, rest: seq<Byte>, more: nat)
    requires rs != [] && Finds(next, data, pos, rs, rest, more)
    ensures next(pos) == Some(rs[0]) && rs[0].text != [] && pos + Width(rs[0]) <= |data|
    ensures Finds(next, data, pos + Width(rs[0]), rs[1..], rest, more)
  {
    assert Unsealed(Reading, 0);
    EntryFirst(data, pos, rs, rest);
    RecordAt(data, pos, rs[0]);
  }

  lemma EntryFirst(data: seq<Byte>, pos: nat, rs: seq<Record>, rest: seq<Byte>)
    requires rs != [] && pos <= |data| && data[pos..] == Encode(rs) + rest
    ensures FieldsAt(data, pos, Put32(rs[0].number), rs[0].text)
    ensures data[pos + Width(rs[0])..] == Encode(rs[1..]) + rest
  {
    AppendAppend(Entry(rs[0]), Encode(rs[1..]), rest);
    FieldsFound(data, pos, Put32(rs[0].number), rs[0].text, Encode(rs[1..]) + rest);
  }

  lemma RecordAt(data: seq<Byte>, pos: nat, r: Record)
    requires FieldsAt(data, pos, Put32(r.number), r.text) && NoZero(r.text) && r.number < 0x1_0000_0000
    ensures NextRecord(data, pos) == Some(r)
  {
    LabelLength(data, pos, Put32(r.number), r.text);
    GetPut32(r.number);
  }

  /** The bytes of a list. */
  function Size(rs: seq<Record>): nat { if rs == [] then 0 else Width(rs[0]) + Size(rs[1..]) }

  lemma {:induction false} EncodeSize(rs: seq<Record>)
    ensures |Encode(rs)| == Size(rs)
  {
    if rs != [] { EncodeSize(rs[1..]); }
  }

  /** At pos come four bytes, a string and its zero. */
  ghost predicate FieldsAt(data: seq<Byte>, pos: nat, head: seq<Byte>, text: seq<Byte>) {
    && pos + 4 + |text| < |data| && data[pos..pos + 4] == head
    && data[pos + 4..pos + 4 + |text|] == text && data[pos + 4 + |text|] == 0
  }

  lemma EmptyNext(data: seq<Byte>, pos: nat, rest: seq<Byte>)
    requires pos <= |data| && data[pos..] == rest && |rest| >= 5 && rest[4] == 0
    ensures NextRecord(data, pos).Some? && NextRecord(data, pos).value.text == []
  {
    assert data[pos..][4] == data[pos + 4];
  }

  lemma FieldsFound(data: seq<Byte>, pos: nat, head: seq<Byte>, text: seq<Byte>, more: seq<Byte>)
    requires pos <= |data| && data[pos..] == head + (text + [0]) + more && |head| == 4
    ensures FieldsAt(data, pos, head, text) && data[pos + 4 + |text| + 1..] == more
  {
    var n, s := |text|, data[pos..];
    assert s[..4] == head && s[4..4 + n] == text && s[4 + n] == 0 && s[4 + n + 1..] == more;
    assert data[pos..pos + 4] == s[..4] && data[pos + 4..pos + 4 + n] == s[4..4 + n];
    assert data[pos + 4 + n + 1..] == s[4 + n + 1..];
  }

  // ----- what saving promises -----

  ghost predicate OnlyRecord(rs: seq<Record>, n: nat, r: Record) {
    r in rs && r.number == n && forall q :: q in rs && q.number == n ==> q == r
  }

  /** The label a list of records gives a friend: that of its last record. */
  lemma {:induction false} AppliedLabel(labels: map<nat, seq<Byte>>, rs: seq<Record>, n: nat)
    ensures Applied(labels, rs).Keys == labels.Keys
    ensures (forall r :: r in rs ==> r.number != n) && n in labels ==> Applied(labels, rs)[n] == labels[n]
    ensures forall r :: n in labels && OnlyRecord(rs, n, r) ==> Applied(labels, rs)[n] == r.text
  {
    if rs != [] {
      var front, last := rs[..|rs| - 1], rs[|rs| - 1];
      AppliedLabel(labels, front, n);
      assert rs == front + [last];
    }
  }

  /** A node that restarts with its friends and no labels gets exactly the saved labels. */
  lemma LabelsRestored(saved: FriendTable, restarted: map<nat, seq<Byte>>)
    requires saved.Valid() && restarted.Keys == saved.labels.Keys
    requires forall n :: n in restarted ==> restarted[n] == []
    ensures Applied(restarted, Labelled(saved.Records())) == saved.labels
  {
    var rs := saved.Records();
    LabelledMembers(rs);
    forall n | n in saved.labels
      ensures n in Applied(restarted, Labelled(rs)) && Applied(restarted, Labelled(rs))[n] == saved.labels[n]
    {
      LabelRestored(saved.order, saved.labels, rs, Labelled(rs), restarted, n);
    }
    AppliedLabel(restarted, Labelled(rs), 0);
  }

  lemma LabelRestored(order: seq<nat>, labels: map<nat, seq<Byte>>, rs: seq<Record>, ls: seq<Record>,
                      restarted: map<nat, seq<Byte>>, n: nat)
    requires |rs| == |order|
    requires forall i :: 0 <= i < |order| ==> order[i] in labels && rs[i] == Record(order[i], labels[order[i]])
    requires forall r :: r in ls <==> r in rs && r.text != []
    requires n in labels && n in order && n in restarted && restarted[n] == []
    ensures n in Applied(restarted, ls) && Applied(restarted, ls)[n] == labels[n]
  {
    var k :| 0 <= k < |order| && order[k] == n;
    var r := Record(n, labels[n]);
    assert rs[k] == r;
    AppliedLabel(restarted, ls, n);
    assert r in ls ==> OnlyRecord(ls, n, r);
  }
}
