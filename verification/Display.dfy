/**
 * The nixie display: six tubes showing hh:mm:ss and four separator dots,
 * driven through a chain of eight shift registers. Each digit is a one-hot
 * 10-bit code, sent most significant bit first; the frame is the 64-bit stream
 * of the six codes with two dots before the third and two before the fifth
 * tube, packed into eight bytes, most significant bit first.
 */
module Display {
  import opened Calendar

  /** digitMapping for the Z570M tube: the code that lights digit `d`. */
  const DigitMapping: seq<bv16> := [0x0001, 0x0200, 0x0100, 0x0080, 0x0040, 0x0020, 0x0010, 0x0008, 0x0004, 0x0002]

  /** Bit 9 - i of a digit code: the i-th bit shifted out. */
  predicate CodeBit(code: bv16, i: nat)
    requires i < 10
  {
    code & [0x200, 0x100, 0x080, 0x040, 0x020, 0x010, 0x008, 0x004, 0x002, 0x001][i] != 0
  }

  /** The 10 bits of a digit code in the order they are shifted out: bit 9 first, bit 0 last. */
  function CodeBits(code: bv16): (bits: seq<bool>)
    ensures |bits| == 10
  {
    seq(10, i requires 0 <= i < 10 => CodeBit(code, i))
  }

  /**
   * Every code sets exactly one of the low 10 bits: the tube pins come in the
   * order 1, 2, ..., 9, 0, so digit `d` is the bit shifted out at position
   * (d + 9) % 10.
   */
  lemma MappingIsOneHot(d: nat)
    requires d < 10
    ensures DigitMapping[d] & 0xFC00 == 0
    ensures forall i :: 0 <= i < 10 ==> (CodeBits(DigitMapping[d])[i] <==> i == (d + 9) % 10)
  {
  }

  /** The ten codes are distinct. */
  lemma MappingIsInjective(d1: nat, d2: nat)
    requires d1 < 10 && d2 < 10 && DigitMapping[d1] == DigitMapping[d2]
    ensures d1 == d2
  {
    MappingIsOneHot(d1);
    MappingIsOneHot(d2);
    assert CodeBits(DigitMapping[d1])[(d1 + 9) % 10];
  }

  /** The position of the first set bit of a code, from position `i` on (10 when there is none). */
  function FirstSet(bits: seq<bool>, i: nat): (p: nat)
    requires i <= |bits|
    ensures i <= p <= |bits|
    ensures p < |bits| ==> bits[p]
    ensures forall j :: i <= j < p ==> !bits[j]
    decreases |bits| - i
  {
    if i == |bits| then i else if bits[i] then i else FirstSet(bits, i + 1)
  }

  /** Reads the digit a tube shows from its 10 bits (0 when no pin is lit). */
  function DigitOfCode(bits: seq<bool>): (d: nat)
    ensures d < 10
  {
    (FirstSet(bits, 0) + 1) % 10
  }

  lemma DigitOfCodeInverts(d: nat)
    requires d < 10
    ensures DigitOfCode(CodeBits(DigitMapping[d])) == d
  {
    MappingIsOneHot(d);
    var bits := CodeBits(DigitMapping[d]);
    var p := FirstSet(bits, 0);
    assert bits[(d + 9) % 10];
    assert p == (d + 9) % 10;
  }

  // ---------------------------------------------------------------------------
  // The frame

  /** The display contents: digits[0] is the tens of the hour, digits[5] the units of the second. */
  datatype Panel = Panel(digits: seq<nat>, dotBR: bool, dotUR: bool, dotBL: bool, dotUL: bool)

  predicate ValidPanel(p: Panel)
  {
    |p.digits| == 6 && forall i :: 0 <= i < 6 ==> p.digits[i] < 10
  }

  /** The dot bits shifted out just before digit `i`. */
  function DotsBefore(p: Panel, i: nat): seq<bool>
  {
    if i == 2 then [p.dotBR, p.dotUR] else if i == 4 then [p.dotBL, p.dotUL] else []
  }

  /** The bits shifted out for the first `n` digits, with their dots. */
  function StreamUpTo(p: Panel, n: nat): (bits: seq<bool>)
    requires ValidPanel(p) && n <= 6
    ensures |bits| == 10 * n + (if n > 2 then 2 else 0) + (if n > 4 then 2 else 0)
  {
    if n == 0 then [] else StreamUpTo(p, n - 1) + DotsBefore(p, n - 1) + CodeBits(DigitMapping[p.digits[n - 1]])
  }

  /** The mask of bit `c` of a byte sent most significant bit first: 0x80 shifted right `c` times. */
  function Mask(c: nat): bv8
    requires c <= 8
  {
    if c == 0 then 0x80 else Mask(c - 1) >> 1
  }

  /** The masks of the eight bits of a byte, and the empty mask after them. */
  lemma MaskValue(c: nat)
    requires c <= 8
    ensures Mask(c) == [0x80, 0x40, 0x20, 0x10, 0x08, 0x04, 0x02, 0x01, 0x00][c]
  {
    if c > 0 {
      MaskValue(c - 1);
    }
  }

  /** The byte holding `bits` from its most significant bit down (unused low bits are 0). */
  function ByteOf(bits: seq<bool>): bv8
    requires |bits| <= 8
  {
    if |bits| == 0 then 0 else ByteOf(bits[..|bits| - 1]) | (if bits[|bits| - 1] then Mask(|bits| - 1) else 0)
  }

  /** The bytes of a bit stream, eight bits to a byte. */
  function Pack(bits: seq<bool>): (bytes: seq<bv8>)
    requires |bits| % 8 == 0
    ensures |bytes| == |bits| / 8
  {
    if |bits| == 0 then [] else Pack(bits[..|bits| - 8]) + [ByteOf(bits[|bits| - 8..])]
  }

  /** What displayShow sends over SPI for the panel `p`. */
  function Frame(p: Panel): (bytes: seq<bv8>)
    requires ValidPanel(p)
    ensures |bytes| == 8
  {
    Pack(StreamUpTo(p, 6))
  }

  /** The bits of a byte, most significant first. */
  function ByteBits(b: bv8): (bits: seq<bool>)
    ensures |bits| == 8
  {
    seq(8, i requires 0 <= i < 8 => b & Mask(i) != 0)
  }

  function Unpack(bytes: seq<bv8>): (bits: seq<bool>)
    ensures |bits| == 8 * |bytes|
  {
    if bytes == [] then [] else Unpack(bytes[..|bytes| - 1]) + ByteBits(bytes[|bytes| - 1])
  }

  /** Reads the panel back from a frame. */
  function DecodeFrame(bytes: seq<bv8>): (p: Panel)
    requires |bytes| == 8
    ensures ValidPanel(p)
  {
    var b := Unpack(bytes);
    Panel([DigitOfCode(b[0..10]), DigitOfCode(b[10..20]), DigitOfCode(b[22..32]),
           DigitOfCode(b[32..42]), DigitOfCode(b[44..54]), DigitOfCode(b[54..64])],
          b[20], b[21], b[42], b[43])
  }

  lemma MasksAreDisjoint(i: nat, j: nat)
    requires i < 8 && j < 8 && i != j
    ensures Mask(i) & Mask(j) == 0 && Mask(i) != 0
  {
    MaskValue(i);
    MaskValue(j);
  }

  /** Bit `i` of ByteOf(bits) is bits[i], and the bits past the end are clear. */
  lemma {:induction false} ByteOfBit(bits: seq<bool>, i: nat)
    requires |bits| <= 8 && i < 8
    ensures (ByteOf(bits) & Mask(i) != 0) == (i < |bits| && bits[i])
  {
    if |bits| > 0 {
      ByteOfBit(bits[..|bits| - 1], i);
      if i != |bits| - 1 {
        MasksAreDisjoint(i, |bits| - 1);
      } else {
        MaskValue(i);
      }
    }
  }

  lemma ByteBitsOfByte(bits: seq<bool>)
    requires |bits| == 8
    ensures ByteBits(ByteOf(bits)) == bits
  {
    forall i | 0 <= i < 8
      ensures ByteBits(ByteOf(bits))[i] == bits[i]
    {
      ByteOfBit(bits, i);
    }
  }

  /** Unpacking the packed stream gives the stream back. */
  lemma {:induction false} UnpackPack(bits: seq<bool>)
    requires |bits| % 8 == 0
    ensures Unpack(Pack(bits)) == bits
  {
    if |bits| > 0 {
      var n := |bits| - 8;
      UnpackPack(bits[..n]);
      ByteBitsOfByte(bits[n..]);
      assert Pack(bits)[..|Pack(bits)| - 1] == Pack(bits[..n]);
      assert bits == bits[..n] + bits[n..];
    }
  }

  /** The code of digit `i` of the panel. */
  function Code(p: Panel, i: nat): (bits: seq<bool>)
    requires ValidPanel(p) && i < 6
    ensures |bits| == 10
  {
    CodeBits(DigitMapping[p.digits[i]])
  }

  lemma StreamLayout(p: Panel)
    requires ValidPanel(p)
    ensures StreamUpTo(p, 6)
         == Code(p, 0) + Code(p, 1) + [p.dotBR, p.dotUR] + Code(p, 2) + Code(p, 3) + [p.dotBL, p.dotUL] + Code(p, 4) + Code(p, 5)
  {
    assert StreamUpTo(p, 2) == Code(p, 0) + Code(p, 1);
    assert StreamUpTo(p, 4) == StreamUpTo(p, 2) + [p.dotBR, p.dotUR] + Code(p, 2) + Code(p, 3);
  }

  /** Where each code and each dot sits in the 64-bit stream. */
  lemma StreamSlices(p: Panel)
    requires ValidPanel(p)
    ensures var s := StreamUpTo(p, 6);
      && s[0..10] == Code(p, 0) && s[10..20] == Code(p, 1) && s[22..32] == Code(p, 2)
      && s[32..42] == Code(p, 3) && s[44..54] == Code(p, 4) && s[54..64] == Code(p, 5)
      && s[20] == p.dotBR && s[21] == p.dotUR && s[42] == p.dotBL && s[43] == p.dotUL
  {
    StreamLayout(p);
  }

  /** The panel is recovered from the frame: the frame loses no digit and no dot. */
  lemma FrameRoundTrip(p: Panel)
    requires ValidPanel(p)
    ensures DecodeFrame(Frame(p)) == p
  {
    UnpackPack(StreamUpTo(p, 6));
    StreamSlices(p);
    DigitOfCodeInverts(p.digits[0]);
    DigitOfCodeInverts(p.digits[1]);
    DigitOfCodeInverts(p.digits[2]);
    DigitOfCodeInverts(p.digits[3]);
    DigitOfCodeInverts(p.digits[4]);
    DigitOfCodeInverts(p.digits[5]);
    assert DecodeFrame(Frame(p)).digits == p.digits;
  }

  // ---------------------------------------------------------------------------
  // Shifting bits into bytes

  /**
   * The state of displayShow once the bits `sentBits + pending` are shifted
   * in: the whole bytes of `sentBits` have gone out as `out`, the `bitCount`
   * bits of `pending` wait in `byteOut`, and `mask` selects the next bit.
   */
  predicate Emitted(sentBits: seq<bool>, pending: seq<bool>, bitCount: nat, byteOut: bv8, mask: bv8, out: seq<bv8>)
  {
    && |sentBits| % 8 == 0
    && bitCount == |pending| < 8
    && mask == Mask(bitCount)
    && byteOut == ByteOf(pending)
    && out == Pack(sentBits)
  }

  /** A bit shifted in under the mask extends the pending byte, and the mask moves one bit down. */
  lemma ByteOfSnoc(bits: seq<bool>, b: bool, byteOut: bv8, mask: bv8)
    requires |bits| < 8 && byteOut == ByteOf(bits) && mask == Mask(|bits|)
    ensures ByteOf(bits + [b]) == if b then byteOut | mask else byteOut
    ensures mask >> 1 == Mask(|bits| + 1)
  {
    assert (bits + [b])[..|bits|] == bits;
  }

  /** Packing a stream extended by a whole byte appends that byte. */
  lemma PackSnoc(bits: seq<bool>, chunk: seq<bool>)
    requires |bits| % 8 == 0 && |chunk| == 8
    ensures Pack(bits + chunk) == Pack(bits) + [ByteOf(chunk)]
  {
    var s := bits + chunk;
    assert s[..|s| - 8] == bits;
    assert s[|s| - 8..] == chunk;
  }

  /**
   * One bit shifted in, short of a full byte: it is or-ed in under the mask
   * and the mask moves on.
   */
  lemma ShiftBit(sentBits: seq<bool>, pending: seq<bool>, bitCount: nat, byteOut: bv8, mask: bv8, out: seq<bv8>, b: bool)
    requires Emitted(sentBits, pending, bitCount, byteOut, mask, out) && bitCount < 7
    ensures Emitted(sentBits, pending + [b], bitCount + 1, if b then byteOut | mask else byteOut, mask >> 1, out)
  {
    ByteOfSnoc(pending, b, byteOut, mask);
  }

  /** The eighth bit of a byte: the byte is complete and goes out. */
  lemma ShiftLastBit(sentBits: seq<bool>, pending: seq<bool>, bitCount: nat, byteOut: bv8, mask: bv8, out: seq<bv8>, b: bool)
    requires Emitted(sentBits, pending, bitCount, byteOut, mask, out) && bitCount == 7
    ensures Emitted(sentBits + (pending + [b]), [], 0, 0, 0x80, out + [if b then byteOut | mask else byteOut])
  {
    ByteOfSnoc(pending, b, byteOut, mask);
    PackSnoc(sentBits, pending + [b]);
  }

  /** Moving the head of `rest` to the end of `done` keeps their concatenation. */
  lemma MoveHead(done: seq<bool>, done': seq<bool>, rest: seq<bool>)
    requires |rest| > 0 && done' == done + [rest[0]]
    ensures done' + rest[1..] == done + rest
  {
    assert rest == [rest[0]] + rest[1..];
  }

  /** The stream after digit `n` is the stream before it, its dots and its code. */
  lemma StreamStep(p: Panel, n: nat)
    requires ValidPanel(p) && n < 6
    ensures StreamUpTo(p, n + 1) == StreamUpTo(p, n) + DotsBefore(p, n) + CodeBits(DigitMapping[p.digits[n]])
  {
  }

  /**
   * The bits a code gives when bit 9 is tested and the code is shifted left
   * by one, `n` times over: bit 9 first, then bit 8, and so on.
   */
  function ShiftOut(v: bv16, n: nat): (bits: seq<bool>)
    ensures |bits| == n
    decreases n
  {
    if n == 0 then [] else [v & 0x0200 != 0] + ShiftOut(v << 1, n - 1)
  }

  /** Shifting a code left by one moves each of its bits one place towards the front of the order. */
  lemma CodeBitShift(x: bv16, i: nat)
    requires i < 9
    ensures CodeBit(x << 1, i) == CodeBit(x, i + 1)
  {
  }

  /** Testing bit 9 and shifting gives the bits of the code in shift-out order. */
  lemma {:induction false} ShiftOutBits(v: bv16, n: nat, i: nat)
    requires i < n <= 10
    ensures ShiftOut(v, n)[i] == CodeBit(v, i)
    decreases i
  {
    if i > 0 {
      ShiftOutBits(v << 1, n - 1, i - 1);
      CodeBitShift(v, i - 1);
    }
  }

  lemma ShiftOutIsCodeBits(code: bv16)
    ensures ShiftOut(code, 10) == CodeBits(code)
  {
    forall i | 0 <= i < 10
      ensures ShiftOut(code, 10)[i] == CodeBits(code)[i]
    {
      ShiftOutBits(code, 10, i);
    }
  }

  /** Digits of a time of day: tens and units of the hour, the minute and the second. */
  function DigitsOf(el: Elements): seq<nat>
  {
    [el.hour / 10, el.hour % 10, el.minute / 10, el.minute % 10, el.second / 10, el.second % 10]
  }

  /** The six digits are decimal digits and spell the hour, minute and second of the time. */
  lemma DigitsSpellTime(t: nat)
    ensures var d := DigitsOf(CivilOf(t));
      && (forall i :: 0 <= i < 6 ==> d[i] < 10)
      && 10 * d[0] + d[1] == CivilOf(t).hour
      && 10 * d[2] + d[3] == CivilOf(t).minute
      && 10 * d[4] + d[5] == CivilOf(t).second
  {
    CivilOfInRange(t);
  }

  // ---------------------------------------------------------------------------
  // The display driver

  /** The number of pending bits is the length of the stream so far, modulo 8. */
  lemma PendingAt(p: Panel, n: nat, sentBits: seq<bool>, pending: seq<bool>)
    requires ValidPanel(p) && n <= 6 && sentBits + pending == StreamUpTo(p, n)
    requires |sentBits| % 8 == 0 && |pending| < 8
    ensures n == 2 ==> |pending| == 4
    ensures n == 4 ==> |pending| == 2
  {
    assert |sentBits| + |pending| == |StreamUpTo(p, n)|;
  }

  /** The dots ahead of digit `n`, if any, extend the stream so far. */
  lemma DotsStep(p: Panel, n: nat, sentBits: seq<bool>, pending: seq<bool>, pending': seq<bool>)
    requires ValidPanel(p) && n < 6 && sentBits + pending == StreamUpTo(p, n)
    requires n == 2 ==> pending' == pending + [p.dotBR, p.dotUR]
    requires n == 4 ==> pending' == pending + [p.dotBL, p.dotUL]
    requires n != 2 && n != 4 ==> pending' == pending
    ensures sentBits + pending' == StreamUpTo(p, n) + DotsBefore(p, n)
  {
  }

  /** The code of digit `n` after its dots completes the stream up to digit `n + 1`. */
  lemma DigitStep(p: Panel, n: nat, before: seq<bool>, after: seq<bool>)
    requires ValidPanel(p) && n < 6 && before == StreamUpTo(p, n) + DotsBefore(p, n)
    requires after == before + ShiftOut(DigitMapping[p.digits[n]], 10)
    ensures after == StreamUpTo(p, n + 1)
  {
    ShiftOutIsCodeBits(DigitMapping[p.digits[n]]);
    StreamStep(p, n);
  }

  /** Once all six digits are shifted in, nothing is pending and the bytes sent are the frame. */
  lemma FrameEmitted(p: Panel, sentBits: seq<bool>, pending: seq<bool>, bitCount: nat, byteOut: bv8, mask: bv8, out: seq<bv8>)
    requires ValidPanel(p) && Emitted(sentBits, pending, bitCount, byteOut, mask, out)
    requires sentBits + pending == StreamUpTo(p, 6)
    ensures out == Frame(p)
  {
    assert |sentBits| == 64 && pending == [];
    assert sentBits == StreamUpTo(p, 6);
  }

  class Display {
    var digits: array<nat>   // digits[0] is the left tube
    var dotBR: bool
    var dotUR: bool
    var dotBL: bool
    var dotUL: bool
    var sent: seq<bv8>       // the bytes sent to the shift registers, oldest first

    predicate Valid()
      reads this, digits
    {
      digits.Length == 6 && forall i :: 0 <= i < 6 ==> digits[i] < 10
    }

    function Contents(): Panel
      reads this, digits
    {
      Panel(digits[..], dotBR, dotUR, dotBL, dotUL)
    }

    /** The zero-initialised display cache: all digits 0, all dots off. */
    constructor ()
      ensures Valid() && fresh(digits) && sent == []
      ensures Contents() == Panel([0, 0, 0, 0, 0, 0], false, false, false, false)
    {
      digits := new nat[6](_ => 0);
      dotBR, dotUR, dotBL, dotUL := false, false, false, false;
      sent := [];
    }

    /** displayInit: all four separator dots on (the port set-up is not modelled). */
    method Init()
      modifies this
      ensures digits == old(digits) && sent == old(sent)
      ensures dotBR && dotUR && dotBL && dotUL
    {
      dotBR := true;
      dotUR := true;
      dotBL := true;
      dotUL := true;
    }

    /** displayShow: shifts the frame of the current contents out, byte by byte. */
    method Show()
      requires Valid()
      modifies this
      ensures digits == old(digits) && dotBR == old(dotBR) && dotUR == old(dotUR)
      ensures dotBL == old(dotBL) && dotUL == old(dotUL)
      ensures sent == old(sent) + Frame(Contents())
    {
      var byteOut: bv8 := 0;
      var bitCount: nat := 0;
      var mask: bv8 := 0x80;
      ghost var p := Contents();
      var out: seq<bv8> := [];  // the bytes handed to spiSendByte
      ghost var sentBits: seq<bool> := [];
      ghost var pending: seq<bool> := [];
      for digitCount := 0 to 6
        modifies {}
        invariant Emitted(sentBits, pending, bitCount, byteOut, mask, out)
        invariant sentBits + pending == StreamUpTo(p, digitCount)
      {
        byteOut, mask, bitCount, out, sentBits, pending :=
          ShowDigit(digitCount, digits[digitCount], dotBR, dotUR, dotBL, dotUL,
                    byteOut, mask, bitCount, out, p, sentBits, pending);
      }
      FrameEmitted(p, sentBits, pending, bitCount, byteOut, mask, out);
      sent := sent + out;
    }

    /**
     * One pass of the outer loop of displayShow: the dots that go ahead of
     * digit 2 and digit 4, then the code of digit `digitCount`.
     */
    static method ShowDigit(digitCount: nat, digit: nat, dotBR: bool, dotUR: bool, dotBL: bool, dotUL: bool,
                            byteOut0: bv8, mask0: bv8, bitCount0: nat, out0: seq<bv8>,
                            ghost p: Panel, ghost sentBits0: seq<bool>, ghost pending0: seq<bool>)
      returns (byteOut: bv8, mask: bv8, bitCount: nat, out: seq<bv8>, ghost sentBits: seq<bool>, ghost pending: seq<bool>)
      requires ValidPanel(p) && digitCount < 6 && digit == p.digits[digitCount]
      requires dotBR == p.dotBR && dotUR == p.dotUR && dotBL == p.dotBL && dotUL == p.dotUL
      requires Emitted(sentBits0, pending0, bitCount0, byteOut0, mask0, out0)
      requires sentBits0 + pending0 == StreamUpTo(p, digitCount)
      ensures Emitted(sentBits, pending, bitCount, byteOut, mask, out)
      ensures sentBits + pending == StreamUpTo(p, digitCount + 1)
    {
      byteOut, mask, bitCount, out, sentBits, pending := byteOut0, mask0, bitCount0, out0, sentBits0, pending0;
      PendingAt(p, digitCount, sentBits, pending);
      if digitCount == 2 {
        byteOut, mask, bitCount, pending := ShiftOutDots(dotBR, dotUR, byteOut, mask, bitCount, out, sentBits, pending);
      } else if digitCount == 4 {
        byteOut, mask, bitCount, pending := ShiftOutDots(dotBL, dotUL, byteOut, mask, bitCount, out, sentBits, pending);
      }
      DotsStep(p, digitCount, sentBits, pending0, pending);
      ghost var before := sentBits + pending;
      byteOut, mask, bitCount, out, sentBits, pending :=
        ShiftOutCode(DigitMapping[digit], byteOut, mask, bitCount, out, sentBits, pending);
      DigitStep(p, digitCount, before, sentBits + pending);
    }

    /** The separation dots of displayShow: two bits shifted in ahead of digit 2 or digit 4. */
    static method ShiftOutDots(a: bool, b: bool, byteOut0: bv8, mask0: bv8, bitCount0: nat, out: seq<bv8>,
                               ghost sentBits: seq<bool>, ghost pending0: seq<bool>)
      returns (byteOut: bv8, mask: bv8, bitCount: nat, ghost pending: seq<bool>)
      requires Emitted(sentBits, pending0, bitCount0, byteOut0, mask0, out) && bitCount0 < 6
      ensures Emitted(sentBits, pending, bitCount, byteOut, mask, out)
      ensures pending == pending0 + [a, b]
    {
      byteOut, mask, bitCount := byteOut0, mask0, bitCount0;
      ShiftBit(sentBits, pending0, bitCount, byteOut, mask, out, a);
      if a {
        byteOut := byteOut | mask;
      }
      mask := mask >> 1;
      bitCount := bitCount + 1;
      ShiftBit(sentBits, pending0 + [a], bitCount, byteOut, mask, out, b);
      if b {
        byteOut := byteOut | mask;
      }
      mask := mask >> 1;
      bitCount := bitCount + 1;
      pending := pending0 + [a] + [b];
    }

    /**
     * The inner loop of displayShow: the ten bits of a digit code go out from
     * bit 9 down, and every full byte is handed to spiSendByte.
     */
    static method ShiftOutCode(code: bv16, byteOut0: bv8, mask0: bv8, bitCount0: nat, out0: seq<bv8>,
                               ghost sentBits0: seq<bool>, ghost pending0: seq<bool>)
      returns (byteOut: bv8, mask: bv8, bitCount: nat, out: seq<bv8>, ghost sentBits: seq<bool>, ghost pending: seq<bool>)
      requires Emitted(sentBits0, pending0, bitCount0, byteOut0, mask0, out0)
      ensures Emitted(sentBits, pending, bitCount, byteOut, mask, out)
      ensures sentBits + pending == sentBits0 + pending0 + ShiftOut(code, 10)
    {
      byteOut, mask, bitCount, out, sentBits, pending := byteOut0, mask0, bitCount0, out0, sentBits0, pending0;
      var digitValue := code;
      ghost var rest := ShiftOut(code, 10);
      for digitBitCount := 0 to 10
        invariant |rest| == 10 - digitBitCount && ShiftOut(digitValue, |rest|) == rest
        invariant Emitted(sentBits, pending, bitCount, byteOut, mask, out)
        invariant sentBits + pending + rest == sentBits0 + pending0 + ShiftOut(code, 10)
      {
        var bit;
        bit, digitValue := TopBit(digitValue, rest);
        ghost var before := sentBits + pending;
        byteOut, mask, bitCount, out, sentBits, pending :=
          ShiftInBit(bit, byteOut, mask, bitCount, out, sentBits, pending);
        MoveHead(before, sentBits + pending, rest);
        rest := rest[1..];
      }
      assert rest == [];
    }

    /** The test of bit 9 and the shift by one in the inner loop of displayShow. */
    static method TopBit(digitValue0: bv16, ghost rest: seq<bool>) returns (bit: bool, digitValue: bv16)
      requires |rest| > 0 && ShiftOut(digitValue0, |rest|) == rest
      ensures bit == rest[0] && ShiftOut(digitValue, |rest| - 1) == rest[1..]
    {
      bit := digitValue0 & 0x0200 != 0;
      digitValue := digitValue0 << 1;
    }

    /**
     * The bit bookkeeping shared by the dots and the codes in displayShow: `bit`
     * is or-ed in under the mask, and the eighth bit of a byte sends the byte.
     */
    static method ShiftInBit(bit: bool, byteOut0: bv8, mask0: bv8, bitCount0: nat, out0: seq<bv8>,
                             ghost sentBits0: seq<bool>, ghost pending0: seq<bool>)
      returns (byteOut: bv8, mask: bv8, bitCount: nat, out: seq<bv8>, ghost sentBits: seq<bool>, ghost pending: seq<bool>)
      requires Emitted(sentBits0, pending0, bitCount0, byteOut0, mask0, out0)
      ensures Emitted(sentBits, pending, bitCount, byteOut, mask, out)
      ensures sentBits + pending == sentBits0 + pending0 + [bit]
    {
      byteOut, mask, bitCount, out := byteOut0, mask0, bitCount0, out0;
      if bitCount < 7 {
        ShiftBit(sentBits0, pending0, bitCount, byteOut, mask, out, bit);
      } else {
        ShiftLastBit(sentBits0, pending0, bitCount, byteOut, mask, out, bit);
      }
      if bit {
        byteOut := byteOut | mask;
      }
      mask := mask >> 1;
      bitCount := bitCount + 1;
      if bitCount == 8 {
        out := out + [byteOut];
        bitCount := 0;
        byteOut := 0;
        mask := 0x80;
        sentBits, pending := sentBits0 + (pending0 + [bit]), [];
      } else {
        sentBits, pending := sentBits0, pending0 + [bit];
      }
    }

    method ShowTime(time: nat)
      requires Valid()
      modifies this, digits
      ensures digits == old(digits) && Valid()
      ensures digits[..] == DigitsOf(CivilOf(time))
      ensures dotBR == old(dotBR) && dotUR == old(dotUR) && dotBL == old(dotBL) && dotUL == old(dotUL)
      ensures sent == old(sent) + Frame(Contents())
    {
      var el := BreakTime(time);
      DigitsSpellTime(time);
      digits[5] := el.second % 10;
      digits[4] := el.second / 10;
      digits[3] := el.minute % 10;
      digits[2] := el.minute / 10;
      digits[1] := el.hour % 10;
      digits[0] := el.hour / 10;
      Show();
    }
  }
}
