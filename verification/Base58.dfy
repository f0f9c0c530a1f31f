/** The base-58 text codec: an encoder that converts base 256 to base 58 in place and a
    decoder that accumulates base-2^32 limbs, each proved against the value it denotes. */
module Base58 {
  import opened Bytes
  import opened Numerals

  const LIMB := 0x1_0000_0000

  // ----- the alphabet: digits and the letters without 0, I, O and l -----

  /** The character of a digit (the ordered digit table, by its runs). */
  function CharOf(d: nat): (c: char)
    requires d < 58
    ensures DigitOf(c) == d
  {
    if d < 9 then (d + 49) as char             // '1'..'9'
    else if d < 17 then (d + 56) as char       // 'A'..'H'
    else if d < 22 then (d + 57) as char       // 'J'..'N'
    else if d < 33 then (d + 58) as char       // 'P'..'Z'
    else if d < 44 then (d + 64) as char       // 'a'..'k'
    else (d + 65) as char                      // 'm'..'z'
  }

  /** The digit of a character, -1 outside the alphabet (the 128-entry map, by its runs;
      characters with the high bit set are outside). */
  function DigitOf(c: char): (d: int)
    ensures -1 <= d < 58
  {
    var n := c as int;
    if 49 <= n <= 57 then n - 49
    else if 65 <= n <= 72 then n - 56
    else if 74 <= n <= 78 then n - 57
    else if 80 <= n <= 90 then n - 58
    else if 97 <= n <= 107 then n - 64
    else if 109 <= n <= 122 then n - 65
    else -1
  }

  /** The ordered digits, as the source writes them. */
  const ORDERED: string := "123456789" + "ABCDEFGH" + "JKLMN" + "PQRSTUVWXYZ" + "abcdefghijk" + "mnopqrstuvwxyz"

  /** Both tables are those of the ordered digits. */
  lemma Alphabet(c: char, d: nat)
    ensures |ORDERED| == 58 && (d < 58 ==> CharOf(d) == ORDERED[d])
    ensures DigitOf(c) == d <==> d < 58 && ORDERED[d] == c
    ensures DigitOf(c) == -1 <==> c !in ORDERED
  {
    if d < 58 { OrderedAt(d); }
    if DigitOf(c) != -1 {
      CharOfDigit(c);
      OrderedAt(DigitOf(c));
    } else if c in ORDERED {
      var i :| 0 <= i < |ORDERED| && ORDERED[i] == c;
      OrderedAt(i);
    }
  }

  lemma OrderedAt(d: nat)
    requires d < 58
    ensures |ORDERED| == 58 && CharOf(d) == ORDERED[d]
  {
    if d < 9 {
      RunAt(d, 49, "123456789");
    } else if d < 17 {
      RunAt(d - 9, 65, "ABCDEFGH");
    } else if d < 22 {
      RunAt(d - 17, 74, "JKLMN");
    } else if d < 33 {
      RunAt(d - 22, 80, "PQRSTUVWXYZ");
    } else if d < 44 {
      RunAt(d - 33, 97, "abcdefghijk");
    } else {
      RunAt(d - 44, 109, "mnopqrstuvwxyz");
    }
  }

  lemma RunAt(i: nat, first: nat, run: string)
    requires i < |run|
    requires || (first == 49 && run == "123456789") || (first == 65 && run == "ABCDEFGH")
             || (first == 74 && run == "JKLMN") || (first == 80 && run == "PQRSTUVWXYZ")
             || (first == 97 && run == "abcdefghijk") || (first == 109 && run == "mnopqrstuvwxyz")
    ensures run[i] == (first + i) as char
  {
  }

  lemma CharOfDigit(c: char)
    requires DigitOf(c) != -1
    ensures CharOf(DigitOf(c)) == c
  {
  }

  predicate InAlphabet(text: seq<char>) {
    forall i :: 0 <= i < |text| ==> DigitOf(text[i]) != -1
  }

  function TextDigits(text: seq<char>): (digits: seq<nat>)
    requires InAlphabet(text)
    ensures |digits| == |text| && DigitsBelow(digits, 58)
  {
    seq(|text|, i requires 0 <= i < |text| => DigitOf(text[i]))
  }

  /** The number a base-58 text stands for. */
  function TextValue(text: seq<char>): nat
    requires InAlphabet(text)
  {
    Val(TextDigits(text), 58)
  }

  function Render(digits: seq<nat>): (text: seq<char>)
    requires DigitsBelow(digits, 58)
    ensures |text| == |digits| && InAlphabet(text) && TextDigits(text) == digits
  {
    seq(|digits|, i requires 0 <= i < |digits| => CharOf(digits[i]))
  }

  lemma RenderTextDigits(text: seq<char>)
    requires InAlphabet(text)
    ensures Render(TextDigits(text)) == text
  {
    forall i | 0 <= i < |text| ensures Render(TextDigits(text))[i] == text[i] {
      CharOfDigit(text[i]);
    }
  }

  /** Canonical text: one '1' per leading zero byte, then the minimal base-58 digits. */
  function Canonical(data: seq<Byte>): (text: seq<char>)
    ensures InAlphabet(text)
  {
    Render(Zeros(LeadingZeros(data)) + Minimal(Val(data, 256), 58))
  }

  /** Character by character: the ones, then the ordered digit of every minimal digit. */
  lemma CanonicalCharacters(data: seq<Byte>, z: nat, m: seq<nat>)
    requires z == LeadingZeros(data) && m == Minimal(Val(data, 256), 58)
    ensures |ORDERED| == 58 && |Canonical(data)| == z + |m|
    ensures forall i :: 0 <= i < z ==> Canonical(data)[i] == '1'
    ensures forall i :: 0 <= i < |m| ==> Canonical(data)[z + i] == ORDERED[m[i]]
  {
    RenderedAs(z, m);
    assert Canonical(data) == Render(Zeros(z) + m);
  }

  lemma RenderedAs(z: nat, m: seq<nat>)
    requires DigitsBelow(m, 58)
    ensures DigitsBelow(Zeros(z) + m, 58) && |ORDERED| == 58
    ensures var text := Render(Zeros(z) + m);
            && |text| == z + |m| && (forall i :: 0 <= i < z ==> text[i] == '1')
            && (forall i :: 0 <= i < |m| ==> text[z + i] == ORDERED[m[i]])
  {
    OrderedAt(0);
    forall i | 0 <= i < |m| ensures CharOf((Zeros(z) + m)[z + i]) == ORDERED[m[i]] {
      OrderedAt(m[i]);
    }
  }

  /** What decoding into `n` bytes must do: the bytes and the canonical byte count, or
      nothing when a character is foreign or the number does not fit. */
  datatype Decoded = Rejected | Decoded(bytes: seq<nat>, count: nat)

  function Decoding(text: seq<char>, n: nat): Decoded {
    if !InAlphabet(text) || TextValue(text) >= Pow(256, n) then Rejected
    else
      var bytes := Fixed(TextValue(text), 256, n);
      Decoded(bytes, n - LeadingZeros(bytes) + LeadingZeros(TextDigits(text)))
  }

  // ----- the size estimate of the encoder -----

  /** 256^n never needs more than floor(n * 138 / 100) + 1 base-58 digits. */
  lemma {:induction false} SizeEstimateSuffices(n: nat)
    ensures Pow(256, n) <= Pow(58, n * 138 / 100 + 1)
  {
    if n < 8 {
      SmallPowers();
    } else {
      var m := n - 8;
      SizeEstimateSuffices(m);
      var e := m * 138 / 100 + 1;
      PowAdd(256, 8, m);
      PowAdd(58, 11, e);
      SmallPowers();
      MulMonotone(Pow(256, 8), Pow(58, 11), Pow(256, m));
      MulMonotone(Pow(256, m), Pow(58, e), Pow(58, 11));
      PowMonotone(58, 11 + e, n * 138 / 100 + 1);
    }
  }

  lemma SmallPowers()
    ensures Pow(256, 0) == 1 && Pow(256, 1) == 256 && Pow(256, 2) == 65536
    ensures Pow(256, 3) == 16777216 && Pow(256, 4) == LIMB
    ensures Pow(256, 5) == 1099511627776 && Pow(256, 6) == 281474976710656
    ensures Pow(256, 7) == 72057594037927936 && Pow(256, 8) == 18446744073709551616
    ensures Pow(58, 1) == 58 && Pow(58, 2) == 3364 && Pow(58, 3) == 195112
    ensures Pow(58, 4) == 11316496 && Pow(58, 5) == 656356768 && Pow(58, 6) == 38068692544
    ensures Pow(58, 7) == 2207984167552 && Pow(58, 9) == 7427658739644928
    ensures Pow(58, 10) == 430804206899405824 && Pow(58, 11) == 24986644000165537792
  {
    assert Pow(58, 8) == 128063081718016;
  }

  // ----- the encoder -----

  /** base58_encode. `text` receives the canonical text and a terminator when `textlen`
      leaves room for both; otherwise nothing is written and the needed size comes back. */
  method Encode(data: seq<Byte>, text: array<char>, textlen: nat) returns (ok: bool, newlen: nat)
    requires textlen <= text.Length
    modifies text
    ensures ok <==> textlen > |Canonical(data)|
    ensures newlen == |Canonical(data)| + 1
    ensures ok ==> text[..newlen] == Canonical(data) + ['\0']
    ensures text[if ok then newlen else 0..] == old(text[if ok then newlen else 0..])
  {
    var len := |data|;
    var zcount := 0;
    while zcount < len && data[zcount] == 0
      invariant zcount <= len
      invariant forall k :: 0 <= k < zcount ==> data[k] == 0
    {
      zcount := zcount + 1;
    }
    var size := (len - zcount) * 138 / 100 + 1;
    var buf := ConvertToBase58(data[zcount..], size);
    var j := 0;
    while j < size && buf[j] == 0
      invariant 0 <= j <= size
      invariant forall k :: 0 <= k < j ==> buf[k] == 0
    {
      j := j + 1;
    }
    CanonicalDigits(data, zcount, buf[..], j);
    newlen := zcount + size - j + 1;
    ok := textlen >= newlen;
    if ok {
      WriteText(text, zcount, buf[..], j);
    }
  }

  method WriteText(text: array<char>, zcount: nat, buf: seq<nat>, first: nat)
    requires first <= |buf| && DigitsBelow(buf, 58) && zcount + |buf| - first < text.Length
    modifies text
    ensures text[..zcount + |buf| - first + 1] == seq(zcount, _ => '1') + Render(buf[first..]) + ['\0']
    ensures text[zcount + |buf| - first + 1..] == old(text[zcount + |buf| - first + 1..])
  {
    forall k | 0 <= k < zcount { text[k] := '1'; }
    var i, j := zcount, first;
    while j < |buf|
      invariant first <= j <= |buf| && i == zcount + j - first
      invariant forall k :: 0 <= k < zcount ==> text[k] == '1'
      invariant forall k :: zcount <= k < i ==> text[k] == CharOf(buf[first + k - zcount])
      invariant forall k :: i <= k < text.Length ==> text[k] == old(text[k])
    {
      text[i] := CharOf(buf[j]);
      i := i + 1;
      j := j + 1;
    }
    text[i] := '\0';
  }

  lemma CanonicalDigits(data: seq<Byte>, zcount: nat, buf: seq<nat>, j: nat)
    requires zcount <= |data| && (zcount < |data| ==> data[zcount] != 0)
    requires forall k :: 0 <= k < zcount ==> data[k] == 0
    requires j <= |buf| && DigitsBelow(buf, 58)
    requires (forall k :: 0 <= k < j ==> buf[k] == 0) && (j < |buf| ==> buf[j] != 0)
    requires Val(buf, 58) == Val(data[zcount..], 256)
    ensures |Canonical(data)| == zcount + |buf| - j
    ensures Canonical(data) == seq(zcount, _ => '1') + Render(buf[j..])
  {
    LeadingZerosAre(data, zcount);
    SignificantValue(data, zcount, 256);
    SignificantValue(buf, j, 58);
    MinimalUnique(buf[j..], 58);
    RenderPadded(zcount, buf[j..]);
  }

  lemma SignificantValue(digits: seq<nat>, z: nat, base: nat)
    requires z <= |digits| && forall k :: 0 <= k < z ==> digits[k] == 0
    ensures Val(digits[z..], base) == Val(digits, base)
  {
    assert digits == digits[..z] + digits[z..];
    ValDropZeros(digits[..z], digits[z..], base);
  }

  lemma RenderPadded(z: nat, digits: seq<nat>)
    requires DigitsBelow(digits, 58)
    ensures DigitsBelow(Zeros(z) + digits, 58)
    ensures Render(Zeros(z) + digits) == seq(z, _ => '1') + Render(digits)
  {
    forall i | 0 <= i < z + |digits|
      ensures Render(Zeros(z) + digits)[i] == (seq(z, _ => '1') + Render(digits))[i]
    {
      assert i < z ==> (Zeros(z) + digits)[i] == 0;
    }
  }

  /** The in-place conversion loop with its high-water mark: the buffer ends up holding
      the value of `bin`, and no column left of the buffer is ever touched. */
  method ConvertToBase58(bin: seq<Byte>, size: nat) returns (buf: array<nat>)
    requires size == |bin| * 138 / 100 + 1
    ensures fresh(buf) && buf.Length == size && DigitsBelow(buf[..], 58)
    ensures Val(buf[..], 58) == Val(bin, 256)
  {
    buf := new nat[size](_ => 0);
    var i, high := 0, size - 1;
    ValOfZeros(buf[..], 58);
    while i < |bin|
      invariant 0 <= i <= |bin| && -1 <= high < size
      invariant DigitsBelow(buf[..], 58)
      invariant forall k :: 0 <= k <= high ==> buf[k] == 0
      invariant Val(buf[..], 58) == Val(bin[..i], 256)
    {
      high := AccumulateByte(buf, bin[i], high, bin[..i], |bin|);
      assert bin[..i + 1] == bin[..i] + [bin[i]];
      ValSnoc(bin[..i], bin[i], 256);
      i := i + 1;
    }
    assert bin[..i] == bin;
  }

  /** One round of the outer loop: buf := buf * 256 + byte; returns the new mark. */
  method AccumulateByte(buf: array<nat>, byte: Byte, high: int, ghost done: seq<Byte>, ghost total: nat)
    returns (j: int)
    requires -1 <= high < buf.Length && |done| < total && buf.Length == total * 138 / 100 + 1
    requires DigitsBelow(buf[..], 58) && Val(buf[..], 58) == Val(done, 256)
    requires forall k :: 0 <= k <= high ==> buf[k] == 0
    modifies buf
    ensures -1 <= j < buf.Length && DigitsBelow(buf[..], 58)
    ensures forall k :: 0 <= k <= j ==> buf[k] == 0
    ensures Val(buf[..], 58) == Val(old(buf[..]), 58) * 256 + byte
  {
    var size := buf.Length;
    ghost var before := buf[..];
    ghost var target := 256 * Val(before, 58) + byte;
    var carry: nat := byte;
    j := size - 1;
    ColumnsStart(before, carry, 256, 58);
    while j > high || carry != 0
      invariant -1 <= j < size && carry <= 255 && size == buf.Length
      invariant Columns(before, buf[..], j + 1, carry, 256, 58, target)
      decreases j + 1
    {
      if j == -1 { ColumnExists(done, byte, total, before, buf[..], carry); }
      ghost var now := buf[..];
      var t := carry + 256 * buf[j];
      buf[j] := t % 58;
      ColumnsStep(before, now, j, carry, t / 58, t % 58, 256, 58, target);
      assert buf[..] == now[j := t % 58];
      carry := t / 58;
      j := j - 1;
    }
    ColumnsEnd(before, buf[..], j + 1, 256, 58, target);
  }

  /** There is always a column to write: were all columns used up with something still to
      carry, the value would exceed what the size estimate provides for. */
  lemma ColumnExists(done: seq<Byte>, byte: Byte, total: nat, before: seq<nat>, now: seq<nat>, carry: nat)
    requires |done| < total && |now| == total * 138 / 100 + 1
    requires Columns(before, now, 0, carry, 256, 58, 256 * Val(done, 256) + byte)
    ensures carry == 0
  {
    assert now[0..] == now && before[..0] == [];
    if carry > 0 { HeadBound(carry, now, 58); }
    EstimateCovers(done, byte, total);
  }

  lemma EstimateCovers(done: seq<Byte>, byte: Byte, total: nat)
    requires |done| < total
    ensures 256 * Val(done, 256) + byte < Pow(58, total * 138 / 100 + 1)
  {
    var all := done + [byte];
    ValSnoc(done, byte, 256);
    ValBound(all, 256);
    PowMonotone(256, |all|, total);
    SizeEstimateSuffices(total);
  }

  // ----- the decoder -----

  /** The characters the decoder looks at: a zero length means the whole C string. */
  function Given(text: seq<char>, textlen: nat): seq<char>
    requires textlen <= |text|
  {
    if textlen == 0 then text else text[..textlen]
  }

  /** base58_decode: exactly the decoding of the text, or -1 with the buffer untouched. */
  method Decode(text: seq<char>, textlen: nat, data: array<Byte>, datalen: nat) returns (r: int)
    requires textlen <= |text| && datalen <= data.Length
    modifies data
    ensures match Decoding(Given(text, textlen), datalen)
            case Rejected => r == -1 && data[..] == old(data[..])
            case Decoded(bytes, count) => r == count && data[..datalen] == bytes
    ensures data[datalen..] == old(data[datalen..])
  {
    var textu := Given(text, textlen);
    var zerocount := 0;
    while zerocount < |textu| && textu[zerocount] == '1'
      invariant zerocount <= |textu|
      invariant forall k :: 0 <= k < zerocount ==> textu[k] == '1'
    {
      zerocount := zerocount + 1;
    }
    var ok, limbs := ReadLimbs(textu, zerocount, datalen);
    if !ok {
      return -1;
    }
    WriteBytes(data, datalen, limbs);
    FixedUnique(data[..datalen], TextValue(textu), 256, datalen);
    var i := CountZeros(data, datalen);
    LeadingOnes(textu, zerocount);
    r := datalen - i + zerocount;
  }

  /** The loop over the zero bytes at the front of the result. */
  method CountZeros(data: array<Byte>, datalen: nat) returns (i: nat)
    requires datalen <= data.Length
    ensures i == LeadingZeros(data[..datalen])
  {
    i := 0;
    while i < datalen && data[i] == 0
      invariant i <= datalen
      invariant forall k :: 0 <= k < i ==> data[k] == 0
    {
      i := i + 1;
    }
    LeadingZerosAre(data[..datalen], i);
  }

  lemma LeadingOnes(text: seq<char>, z: nat)
    requires InAlphabet(text) && z <= |text| && (z < |text| ==> text[z] != '1')
    requires forall k :: 0 <= k < z ==> text[k] == '1'
    ensures LeadingZeros(TextDigits(text)) == z
  {
    if z < |text| { CharOfDigit(text[z]); }
    LeadingZerosAre(TextDigits(text), z);
  }

  lemma FixedUnique(digits: seq<nat>, v: nat, base: nat, n: nat)
    requires base >= 2 && |digits| == n && DigitsBelow(digits, base) && Val(digits, base) == v
    ensures v < Pow(base, n) && digits == Fixed(v, base, n)
  {
    ValBound(digits, base);
    ValFixed(v, base, n);
    ValInjective(digits, Fixed(v, base, n), base);
  }

  function LimbCount(datalen: nat): nat { (datalen + 3) / 4 }

  /** The main loop over the characters: limbs := limbs * 58 + digit, refusing foreign
      characters and any carry out of the top byte. */
  method ReadLimbs(text: seq<char>, zerocount: nat, datalen: nat) returns (ok: bool, limbs: seq<nat>)
    requires zerocount <= |text| && forall k :: 0 <= k < zerocount ==> text[k] == '1'
    ensures ok <==> InAlphabet(text) && TextValue(text) < Pow(256, datalen)
    ensures ok ==> |limbs| == LimbCount(datalen) && DigitsBelow(limbs, LIMB) && Val(limbs, LIMB) == TextValue(text)
  {
    var outisz, bytesleft := LimbCount(datalen), datalen % 4;
    var outi := new nat[outisz](_ => 0);
    limbs := [];
    OnesRead(text[..zerocount], outi[..], datalen);
    var i := zerocount;
    while i < |text|
      invariant zerocount <= i <= |text| && outi.Length == outisz
      invariant ReadSoFar(text[..i], outi[..], datalen)
    {
      if text[i] as int >= 0x80 || DigitOf(text[i]) == -1 {
        ok := false;
        return;
      }
      ghost var before := outi[..];
      var c := AccumulateDigit(outi, DigitOf(text[i]));
      AfterDigit(text, i, before, c, outi[..], datalen);
      if c != 0 || (bytesleft != 0 && outi[0] >= Pow(256, bytesleft)) {
        ok := false;
        return;
      }
      i := i + 1;
    }
    assert text[..i] == text;
    ok := true;
    limbs := outi[..];
  }

  /** The limbs hold the number the text denotes, and it fits. */
  ghost predicate ReadSoFar(text: seq<char>, limbs: seq<nat>, datalen: nat) {
    InAlphabet(text) && DigitsBelow(limbs, LIMB) && Val(limbs, LIMB) == TextValue(text) < Pow(256, datalen)
  }

  /** The ones in front are worth nothing. */
  lemma OnesRead(text: seq<char>, limbs: seq<nat>, datalen: nat)
    requires forall k :: 0 <= k < |text| ==> text[k] == '1'
    requires forall k :: 0 <= k < |limbs| ==> limbs[k] == 0
    ensures ReadSoFar(text, limbs, datalen)
  {
    ValOfZeros(limbs, LIMB);
    ValOfZeros(TextDigits(text), 58);
    PowPositive(256, datalen);
  }

  /** The carry and the mask test decide whether the number still fits; once it does not,
      the whole text does not. */
  lemma AfterDigit(text: seq<char>, i: nat, before: seq<nat>, c: nat, limbs: seq<nat>, datalen: nat)
    requires i < |text| && DigitOf(text[i]) != -1 && ReadSoFar(text[..i], before, datalen)
    requires |limbs| == LimbCount(datalen) && DigitsBelow(limbs, LIMB)
    requires Val([c] + limbs, LIMB) == 58 * Val(before, LIMB) + DigitOf(text[i])
    ensures if c == 0 && (datalen % 4 == 0 || limbs[0] < Pow(256, datalen % 4))
            then ReadSoFar(text[..i + 1], limbs, datalen)
            else !(InAlphabet(text) && TextValue(text) < Pow(256, datalen))
  {
    TextSnoc(text, i);
    if c != 0 {
      HeadBound(c, limbs, LIMB);
      LimbsCover(datalen);
    } else {
      ValDropZeros([c], limbs, LIMB);
      FitsTopLimb(limbs, datalen);
    }
    TextPrefix(text, i + 1);
  }

  lemma TextSnoc(text: seq<char>, i: nat)
    requires i < |text| && InAlphabet(text[..i]) && DigitOf(text[i]) != -1
    ensures InAlphabet(text[..i + 1])
    ensures TextValue(text[..i + 1]) == TextValue(text[..i]) * 58 + DigitOf(text[i])
  {
    assert TextDigits(text[..i + 1]) == TextDigits(text[..i]) + [DigitOf(text[i])];
    ValSnoc(TextDigits(text[..i]), DigitOf(text[i]), 58);
  }

  /** More characters never make the number smaller. */
  lemma TextPrefix(text: seq<char>, i: nat)
    requires i <= |text| && InAlphabet(text[..i])
    ensures InAlphabet(text) ==> TextValue(text) >= TextValue(text[..i])
    decreases |text| - i
  {
    if InAlphabet(text) {
      if i == |text| {
        assert text[..i] == text;
      } else {
        TextSnoc(text, i);
        TextPrefix(text, i + 1);
      }
    }
  }

  lemma LimbsCover(datalen: nat)
    ensures Pow(256, datalen) <= Pow(LIMB, LimbCount(datalen))
    ensures datalen % 4 == 0 ==> Pow(256, datalen) == Pow(LIMB, LimbCount(datalen))
    ensures datalen % 4 != 0 ==> Pow(256, datalen) == Pow(256, datalen % 4) * Pow(LIMB, LimbCount(datalen) - 1)
  {
    var n := LimbCount(datalen);
    SmallPowers();
    PowPow(256, 4, n);
    PowMonotone(256, datalen, 4 * n);
    if datalen % 4 != 0 {
      PowPow(256, 4, n - 1);
      PowAdd(256, datalen % 4, 4 * (n - 1));
    }
  }

  /** The mask test on the first limb decides whether the number fits `datalen` bytes. */
  lemma FitsTopLimb(limbs: seq<nat>, datalen: nat)
    requires |limbs| == LimbCount(datalen) && DigitsBelow(limbs, LIMB)
    ensures Val(limbs, LIMB) < Pow(256, datalen) <==> (datalen % 4 == 0 || limbs[0] < Pow(256, datalen % 4))
  {
    LimbsCover(datalen);
    ValBound(limbs, LIMB);
    if datalen % 4 != 0 {
      var rest := limbs[1..];
      assert limbs == [limbs[0]] + rest;
      ValAppend([limbs[0]], rest, LIMB);
      ValSingle(limbs[0], LIMB);
      ValBound(rest, LIMB);
      ScaledBelow(limbs[0], Pow(256, datalen % 4), Pow(LIMB, |rest|), Val(rest, LIMB));
    }
  }

  lemma ScaledBelow(x: nat, bound: nat, scale: nat, low: nat)
    requires low < scale
    ensures x * scale + low < bound * scale <==> x < bound
  {
    if x < bound {
      MulMonotone(x + 1, bound, scale);
      assert (x + 1) * scale == x * scale + scale;
    } else {
      MulMonotone(bound, x, scale);
    }
  }

  /** One character: outi := outi * 58 + c; the carry left over comes back, and the mask
      of six bits loses nothing of it. */
  method AccumulateDigit(outi: array<nat>, digit: nat) returns (c: nat)
    requires digit < 58 && DigitsBelow(outi[..], LIMB)
    modifies outi
    ensures c < 58 && DigitsBelow(outi[..], LIMB)
    ensures Val([c] + outi[..], LIMB) == 58 * Val(old(outi[..]), LIMB) + digit
  {
    ghost var before := outi[..];
    ghost var target := 58 * Val(before, LIMB) + digit;
    c := digit;
    var j := outi.Length;
    ColumnsStart(before, c, 58, LIMB);
    while j > 0
      invariant 0 <= j <= outi.Length && c < 58
      invariant Columns(before, outi[..], j, c, 58, LIMB, target)
    {
      j := j - 1;
      ghost var now := outi[..];
      var t := outi[j] * 58 + c;
      outi[j] := t % LIMB;
      CarryFits(now[j], c);
      ColumnsStep(before, now, j, c, t / LIMB, t % LIMB, 58, LIMB, target);
      assert outi[..] == now[j := t % LIMB];
      c := (t / LIMB) % 64;
    }
    assert outi[0..] == outi[..] && before[..0] == [];
  }

  /** The mask of six bits loses nothing of the carry. */
  lemma CarryFits(limb: nat, c: nat)
    requires limb < LIMB && c < 58
    ensures (limb * 58 + c) / LIMB % 64 == (limb * 58 + c) / LIMB < 58
  {
  }

  /** The limbs go out as bytes, most significant first; the first limb may be partial. */
  method WriteBytes(data: array<Byte>, datalen: nat, limbs: seq<nat>)
    requires datalen <= data.Length && |limbs| == LimbCount(datalen)
    requires DigitsBelow(limbs, LIMB) && Val(limbs, LIMB) < Pow(256, datalen)
    modifies data
    ensures DigitsBelow(data[..datalen], 256) && Val(data[..datalen], 256) == Val(limbs, LIMB)
    ensures data[datalen..] == old(data[datalen..])
  {
    var j, w := 0, 0;
    if datalen % 4 != 0 {
      FitsTopLimb(limbs, datalen);
      w := WritePartial(data, datalen % 4, limbs[0]);
      j := 1;
      ValSingle(limbs[0], LIMB);
      assert limbs[..1] == [limbs[0]];
    }
    while j < |limbs|
      invariant 0 <= j <= |limbs| && w == datalen - 4 * (|limbs| - j)
      invariant Val(data[..w], 256) == Val(limbs[..j], LIMB)
      invariant data[datalen..] == old(data[datalen..])
    {
      WriteFull(data, w, limbs, j);
      w := w + 4;
      j := j + 1;
    }
    assert limbs[..j] == limbs;
  }

  /** The fall-through switch over the bytes of an incomplete first limb. */
  method WritePartial(data: array<Byte>, bytesleft: nat, x: nat) returns (w: nat)
    requires 1 <= bytesleft <= 3 && bytesleft <= data.Length && x < Pow(256, bytesleft)
    modifies data
    ensures w == bytesleft && Val(data[..w], 256) == x
    ensures forall k :: w <= k < data.Length ==> data[k] == old(data[k])
  {
    w := 0;
    if bytesleft == 3 {
      data[w] := x / 0x10000 % 256;
      w := w + 1;
    }
    if bytesleft >= 2 {
      data[w] := x / 0x100 % 256;
      w := w + 1;
    }
    data[w] := x % 256;
    w := w + 1;
    PartialLimb(data[..w], x);
  }

  method WriteFull(data: array<Byte>, w: nat, limbs: seq<nat>, j: nat)
    requires w + 4 <= data.Length && j < |limbs| && limbs[j] < LIMB
    requires Val(data[..w], 256) == Val(limbs[..j], LIMB)
    modifies data
    ensures Val(data[..w + 4], 256) == Val(limbs[..j + 1], LIMB)
    ensures forall k :: w + 4 <= k < data.Length ==> data[k] == old(data[k])
  {
    var x := limbs[j];
    ghost var before := data[..w];
    data[w] := x / 0x1000000 % 256;
    data[w + 1] := x / 0x10000 % 256;
    data[w + 2] := x / 0x100 % 256;
    data[w + 3] := x % 256;
    assert data[..w + 4] == before + [x / 0x1000000 % 256, x / 0x10000 % 256, x / 0x100 % 256, x % 256];
    FullLimb(before, limbs, j);
  }

  lemma PartialLimb(bytes: seq<nat>, x: nat)
    requires 1 <= |bytes| <= 3 && x < Pow(256, |bytes|)
    requires bytes == if |bytes| == 1 then [x % 256] else if |bytes| == 2 then [x / 0x100 % 256, x % 256]
                      else [x / 0x10000 % 256, x / 0x100 % 256, x % 256]
    ensures Val(bytes, 256) == x
  {
    var n := |bytes|;
    var b2, b1, b0 := x / 0x10000 % 256, x / 0x100 % 256, x % 256;
    TopBytes(x, n);
    if n == 1 {
      ValSingle(b0, 256);
    } else if n == 2 {
      ValSingle(b1, 256);
      ValSnoc([b1], b0, 256);
      assert [b1, b0] == [b1] + [b0];
    } else {
      ValSingle(b2, 256);
      ValSnoc([b2], b1, 256);
      ValSnoc([b2] + [b1], b0, 256);
      assert [b2, b1, b0] == [b2] + [b1] + [b0];
    }
  }

  lemma TopBytes(x: nat, n: nat)
    requires 1 <= n <= 3 && x < Pow(256, n)
    ensures n == 1 ==> x == x % 256
    ensures n == 2 ==> x == x / 0x100 % 256 * 256 + x % 256
    ensures n == 3 ==> x == (x / 0x10000 % 256 * 256 + x / 0x100 % 256) * 256 + x % 256
  {
    SmallPowers();
  }

  lemma FullLimb(before: seq<nat>, limbs: seq<nat>, j: nat)
    requires j < |limbs| && limbs[j] < LIMB && Val(before, 256) == Val(limbs[..j], LIMB)
    ensures var x := limbs[j];
            Val(before + [x / 0x1000000 % 256, x / 0x10000 % 256, x / 0x100 % 256, x % 256], 256)
            == Val(limbs[..j + 1], LIMB)
  {
    var x := limbs[j];
    var b3, b2, b1, b0 := x / 0x1000000 % 256, x / 0x10000 % 256, x / 0x100 % 256, x % 256;
    ValSnoc(before, b3, 256);
    ValSnoc(before + [b3], b2, 256);
    ValSnoc(before + [b3] + [b2], b1, 256);
    ValSnoc(before + [b3] + [b2] + [b1], b0, 256);
    assert before + [b3, b2, b1, b0] == before + [b3] + [b2] + [b1] + [b0];
    assert limbs[..j + 1] == limbs[..j] + [x];
    ValSnoc(limbs[..j], x, LIMB);
    GetPut32(x);
  }

  // ----- what the codec promises -----

  /** The canonical text denotes the number and keeps the count of leading zero bytes. */
  lemma CanonicalDenotes(data: seq<Byte>)
    ensures TextValue(Canonical(data)) == Val(data, 256)
    ensures LeadingZeros(TextDigits(Canonical(data))) == LeadingZeros(data)
  {
    var z, m := LeadingZeros(data), Minimal(Val(data, 256), 58);
    ValMinimal(Val(data, 256), 58);
    ValDropZeros(Zeros(z), m, 58);
    LeadingZerosOf(z, m);
  }

  /** Decoding the canonical text into a buffer of the original length gives the bytes back. */
  lemma RoundTrip(data: seq<Byte>)
    ensures Decoding(Canonical(data), |data|) == Decoded(data, |data|)
  {
    CanonicalDenotes(data);
    FixedUnique(data, Val(data, 256), 256, |data|);
  }

  /** A decoding that fills the buffer exactly came from the canonical text of the buffer. */
  lemma DecodeIsInverse(text: seq<char>, n: nat)
    requires Decoding(text, n).Decoded? && Decoding(text, n).count == n
    ensures DigitsBelow(Decoding(text, n).bytes, 256) && Canonical(Decoding(text, n).bytes) == text
  {
    var v, digits := TextValue(text), TextDigits(text);
    var bytes := Fixed(v, 256, n);
    ValFixed(v, 256, n);
    PaddedMinimal(digits, 58);
    RenderTextDigits(text);
  }

  /** No two byte strings, of whatever lengths, share a text. */
  lemma CanonicalInjective(a: seq<Byte>, b: seq<Byte>)
    requires Canonical(a) == Canonical(b)
    ensures a == b
  {
    CanonicalDenotes(a);
    CanonicalDenotes(b);
    PaddedMinimal(a, 256);
    PaddedMinimal(b, 256);
  }

  /** The count a decoding reports does not depend on the buffer, and a buffer suffices
      exactly when the number itself fits. */
  lemma CountIndependentOfBuffer(text: seq<char>, n: nat, m: nat)
    requires InAlphabet(text) && n <= m
    ensures Decoding(text, n).Decoded? <==> |Minimal(TextValue(text), 256)| <= n
    ensures Decoding(text, n).Decoded? ==> Decoding(text, m).Decoded?
    ensures Decoding(text, m).Decoded? ==>
              Decoding(text, m).count == |Minimal(TextValue(text), 256)| + LeadingZeros(TextDigits(text))
    ensures Decoding(text, n).Decoded? ==> Decoding(text, n).count == Decoding(text, m).count
  {
    var v := TextValue(text);
    MinimalFits(v, 256, n);
    MinimalFits(v, 256, m);
    if v < Pow(256, n) { ValFixed(v, 256, n); }
    if v < Pow(256, m) { ValFixed(v, 256, m); }
  }

  const KEY_SIZE := 32

  /** The texts that name a key. */
  ghost predicate IsKeyText(text: seq<char>) {
    exists key: seq<Byte> :: |key| == KEY_SIZE && Canonical(key) == text
  }

  /** Checking the count in a 64-byte buffer and decoding into 32 bytes accept the same
      texts: exactly the canonical texts of 32-byte keys. */
  lemma KeyValidation(text: seq<char>)
    ensures IsKeyText(text) <==> Decoding(text, 32).Decoded? && Decoding(text, 32).count == 32
    ensures IsKeyText(text) <==> Decoding(text, 64).Decoded? && Decoding(text, 64).count == 32
  {
    if IsKeyText(text) {
      var key: seq<Byte> :| |key| == KEY_SIZE && Canonical(key) == text;
      RoundTrip(key);
    }
    if InAlphabet(text) {
      CountIndependentOfBuffer(text, KEY_SIZE, 2 * KEY_SIZE);
      if Decoding(text, 2 * KEY_SIZE).Decoded? && Decoding(text, 2 * KEY_SIZE).count == KEY_SIZE {
        DecodeIsInverse(text, KEY_SIZE);
      }
    }
  }

  /** is_valid_key. */
  method IsValidKey(key: seq<char>) returns (valid: bool)
    ensures valid <==> IsKeyText(key)
  {
    var result := new Byte[2 * KEY_SIZE];
    var len := Decode(key, |key|, result, 2 * KEY_SIZE);
    assert |key| > 0 ==> key[..|key|] == key;
    KeyValidation(key);
    return len == KEY_SIZE;
  }

  /** get_friend_number up to the lookup: a text that passes yields the key it names. */
  method KeyOf(friendid: seq<char>) returns (key: seq<Byte>, ok: bool)
    ensures ok <==> IsKeyText(friendid)
    ensures ok ==> |key| == 32 && Canonical(key) == friendid
  {
    var publicKey := new Byte[KEY_SIZE];
    var len := Decode(friendid, |friendid|, publicKey, KEY_SIZE);
    assert |friendid| > 0 ==> friendid[..|friendid|] == friendid;
    KeyValidation(friendid);
    ok := len == KEY_SIZE;
    key := [];
    if ok {
      DecodeIsInverse(friendid, KEY_SIZE);
      key := publicKey[..];
      assert publicKey[..] == publicKey[..KEY_SIZE] == Decoding(friendid, KEY_SIZE).bytes;
    }
  }
}
