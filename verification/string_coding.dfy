/**
 * The replacement for the Java 8 `StringCoding.decode(byte[], int, int)`: a
 * UTF-8 to UTF-16 decoder without validation. The lead byte alone decides how
 * many bytes a sequence takes; continuation bytes contribute their low six
 * bits whatever their high bits are; a four-byte sequence becomes a surrogate
 * pair.
 *
 * The bit operations of the code act on non-negative values and on disjoint
 * bit fields, so they are written here as the equal integer operations:
 * `x & 0x3F` as `x % 0x40`, `x << 6` as `x * 0x40`, `x >> 10` as `x / 0x400`
 * and `|` of disjoint fields as `+`.
 */
module StringCoding {
  import opened JavaTypes

  /**
   * The high-surrogate formula used for a four-byte sequence: the one in the
   * code, or the one of RFC 2781 section 2.1 (see `HighSurrogate`).
   */
  datatype Surrogates = AsWritten | Intended

  /** `b & 0xFF`: the unsigned value of a Java byte. */
  function Unsigned(b: int8): (r: int)
    ensures 0 <= r < 0x100
  {
    if b < 0 then b as int + 0x100 else b as int
  }

  /** `b & 0x3F`: the six low bits of a continuation byte. */
  function Payload(b: int8): (r: int)
    ensures 0 <= r < 0x40
  {
    Unsigned(b) % 0x40
  }

  /** The number of bytes a sequence takes, decided by the unsigned value of its lead byte. */
  function SequenceLength(lead: int): (n: nat)
    ensures 1 <= n <= 4
  {
    if lead <= 0x7F then 1 else if lead <= 0xDF then 2 else if lead <= 0xEF then 3 else 4
  }

  /** A whole sequence: as many bytes as its lead byte announces. */
  predicate IsSequence(w: seq<int8>)
  {
    |w| >= 1 && |w| == SequenceLength(Unsigned(w[0]))
  }

  /**
   * The value `ch` a sequence decodes to: the payload bits of the lead byte
   * followed by six bits from each continuation byte.
   */
  function CodeValue(w: seq<int8>): (ch: int)
    requires IsSequence(w)
    ensures 0 <= ch < 0x20_0000
    ensures |w| < 4 ==> ch < 0x1_0000
  {
    var lead := Unsigned(w[0]);
    if lead <= 0x7F then lead
    else if lead <= 0xDF then (lead % 0x20) * 0x40 + Payload(w[1])
    else if lead <= 0xEF then (lead % 0x10) * 0x1000 + Payload(w[1]) * 0x40 + Payload(w[2])
    else (lead % 0x08) * 0x4_0000 + Payload(w[1]) * 0x1000 + Payload(w[2]) * 0x40 + Payload(w[3])
  }

  /**
   * The high surrogate for the value of a four-byte sequence. As written:
   * `0xD7C0 + ((ch >> 10) & 0x3ff)`; intended: `0xD7C0 + (ch >> 10)`, which is
   * `0xD800` plus the top ten bits of `ch - 0x10000`.
   */
  function HighSurrogate(ch: int, variant: Surrogates): char16
    requires 0 <= ch < 0x20_0000
  {
    match variant
    case AsWritten => (0xD7C0 + (ch / 0x400) % 0x400) as char16
    case Intended => (0xD7C0 + ch / 0x400) as char16
  }

  /** The low surrogate: `0xDC00 + (ch & 0x3ff)`. */
  function LowSurrogate(ch: int): char16
    requires 0 <= ch
  {
    (0xDC00 + ch % 0x400) as char16
  }

  /** The chars one sequence writes: one for up to three bytes, a surrogate pair for four. */
  function Units(w: seq<int8>, variant: Surrogates): (us: seq<char16>)
    requires IsSequence(w)
    ensures 1 <= |us| <= |w|
  {
    Chars(CodeValue(w), |w| == 4, variant)
  }

  /** The chars written for the value `ch`: itself, or a surrogate pair when it came from a four-byte sequence. */
  function Chars(ch: int, pair: bool, variant: Surrogates): (us: seq<char16>)
    requires 0 <= ch < 0x20_0000 && (!pair ==> ch < 0x1_0000)
    ensures |us| == if pair then 2 else 1
  {
    if pair then [HighSurrogate(ch, variant), LowSurrogate(ch)] else [ch as char16]
  }

  /**
   * The decoding loop, on the bytes `rest` from the current index on, with
   * `remaining` bytes left before the end index and `out` already written
   * into a buffer of `cap` chars. A sequence may run past the end index; it
   * is read as long as the array has the bytes. Reading past the array, or
   * writing past the buffer, raises ArrayIndexOutOfBoundsException.
   */
  function Run(rest: seq<int8>, remaining: int, cap: int, out: seq<char16>, variant: Surrogates): Result<seq<char16>, Throwable>
    decreases remaining
  {
    if remaining <= 0 then Success(out)
    else if rest == [] then Failure(ArrayIndexOutOfBoundsException)
    else
      var n := SequenceLength(Unsigned(rest[0]));
      if n > |rest| then Failure(ArrayIndexOutOfBoundsException)
      else
        var us := Units(rest[..n], variant);
        if |out| + |us| > cap then Failure(ArrayIndexOutOfBoundsException)
        else Run(rest[n..], remaining - n, cap, out + us, variant)
  }

  /** The first pass of the loop, at index `off` of the array. */
  lemma RunFrom(bytes: seq<int8>, off: int, remaining: int, cap: int, out: seq<char16>, variant: Surrogates)
    requires 0 <= off < |bytes| && remaining > 0
    ensures var n := SequenceLength(Unsigned(bytes[off]));
      Run(bytes[off..], remaining, cap, out, variant)
      == if off + n > |bytes| then Failure(ArrayIndexOutOfBoundsException)
         else if |out| + |Units(bytes[off..off + n], variant)| > cap then Failure(ArrayIndexOutOfBoundsException)
         else Run(bytes[off + n..], remaining - n, cap, out + Units(bytes[off..off + n], variant), variant)
  {
    var n := SequenceLength(Unsigned(bytes[off]));
    if off + n <= |bytes| {
      assert bytes[off..][..n] == bytes[off..off + n];
      assert bytes[off..][n..] == bytes[off + n..];
    }
  }

  /**
   * The whole decoding loop over the indexes from `offset` up to the
   * exclusive end index `length`, into a buffer of `cap` chars; the first
   * read raises ArrayIndexOutOfBoundsException when `offset` is outside the
   * array.
   */
  function Loop(bytes: seq<int8>, offset: int, length: int, cap: int, variant: Surrogates): Result<seq<char16>, Throwable>
  {
    if offset >= length then Success([])
    else if offset < 0 || offset >= |bytes| then Failure(ArrayIndexOutOfBoundsException)
    else Run(bytes[offset..], length - offset, cap, [], variant)
  }

  /**
   * `decode(bytes, offset, length)`: a buffer of `length - offset` chars (a
   * negative size raises NegativeArraySizeException), filled by the loop.
   */
  function DecodeSpec(bytes: seq<int8>, offset: int32, length: int32, variant: Surrogates): Result<seq<char16>, Throwable>
  {
    var size := Wrap(length as int - offset as int);
    if size < 0 then Failure(NegativeArraySizeException)
    else Loop(bytes, offset as int, length as int, size as int, variant)
  }

  /**
   * The decoder itself. On success the array holds exactly the decoded chars:
   * the buffer when `count == length`, otherwise a copy of its first `count`
   * chars.
   */
  method Decode(bytes: array<int8>, offset: int32, length: int32) returns (r: Result<array<char16>, Throwable>)
    ensures r.Success? <==> DecodeSpec(bytes[..], offset, length, AsWritten).Success?
    ensures r.Success? ==> fresh(r.value) && r.value[..] == DecodeSpec(bytes[..], offset, length, AsWritten).value
    ensures r.Failure? ==> DecodeSpec(bytes[..], offset, length, AsWritten) == Failure(r.error)
  {
    var size := Wrap(length as int - offset as int);
    if size < 0 {
      return Failure(NegativeArraySizeException);
    }
    var buffer := new char16[size as int];
    var ok, count := Fill(bytes, buffer, offset as int, length as int);
    if !ok {
      return Failure(ArrayIndexOutOfBoundsException);
    }
    if count == length as int {
      return Success(buffer);
    }
    var copy := new char16[count](i requires 0 <= i < count reads buffer => buffer[i]);
    assert copy[..] == buffer[..count];
    return Success(copy);
  }

  /**
   * The loop of the decoder, filling `buffer` from its start; `ok` is false
   * where the loop raises ArrayIndexOutOfBoundsException.
   */
  method Fill(bytes: array<int8>, buffer: array<char16>, offset: int, length: int) returns (ok: bool, count: int)
    modifies buffer
    ensures 0 <= count <= buffer.Length
    ensures ok <==> Loop(bytes[..], offset, length, buffer.Length, AsWritten).Success?
    ensures !ok ==> Loop(bytes[..], offset, length, buffer.Length, AsWritten) == Failure(ArrayIndexOutOfBoundsException)
    ensures ok ==> Loop(bytes[..], offset, length, buffer.Length, AsWritten).value == buffer[..count]
  {
    count := 0;
    var off := offset;
    ghost var input, spec := bytes[..], Loop(bytes[..], offset, length, buffer.Length, AsWritten);
    while off < length
      invariant bytes[..] == input
      invariant offset <= off && 0 <= count <= buffer.Length
      invariant off == offset ==> count == 0
      invariant off > offset ==> 0 <= offset < length && off <= bytes.Length
      invariant off > offset ==> Run(input[off..], length - off, buffer.Length, buffer[..count], AsWritten) == spec
      decreases length - off
    {
      if off < 0 || off >= bytes.Length {
        return false, count;
      }
      assert Run(input[off..], length - off, buffer.Length, buffer[..count], AsWritten) == spec by {
        if off == offset {
          assert buffer[..count] == [];
        }
      }
      var next, written;
      ok, next, written := DecodeSequence(bytes, buffer, off, count, length - off);
      if !ok {
        return false, count;
      }
      assert Run(input[next..], length - next, buffer.Length, buffer[..written], AsWritten) == spec;
      off, count := next, written;
    }
    ok := true;
  }

  /**
   * One pass of the decoding loop: reads the sequence at `off` and writes its
   * chars at `count`; `ok` is false where the code raises
   * ArrayIndexOutOfBoundsException.
   */
  method DecodeSequence(bytes: array<int8>, buffer: array<char16>, off: int, count: int, ghost remaining: int)
    returns (ok: bool, next: int, written: int)
    requires 0 <= off < bytes.Length && 0 < remaining && 0 <= count <= buffer.Length
    modifies buffer
    ensures ok ==> off < next <= bytes.Length && count < written <= buffer.Length && written - count <= next - off
    ensures ok ==> (Run(bytes[..][next..], remaining - (next - off), buffer.Length, buffer[..written], AsWritten)
                    == Run(bytes[..][off..], remaining, buffer.Length, old(buffer[..count]), AsWritten))
    ensures !ok ==> (Run(bytes[..][off..], remaining, buffer.Length, old(buffer[..count]), AsWritten)
                     == Failure(ArrayIndexOutOfBoundsException))
  {
    RunFrom(bytes[..], off, remaining, buffer.Length, buffer[..count], AsWritten);
    var ch;
    ok, next, ch := ReadSequence(bytes, off);
    if !ok {
      return false, next, count;
    }
    ghost var w := bytes[..][off..next];
    assert IsSequence(w) && Units(w, AsWritten) == Chars(ch, next - off == 4, AsWritten);
    ok, written := WriteChars(buffer, count, ch, next - off == 4);
  }

  /**
   * The reading half of a pass: the value of the sequence at `off`, and the
   * index after it; `ok` is false where a read past the array raises
   * ArrayIndexOutOfBoundsException.
   */
  method ReadSequence(bytes: array<int8>, off: int) returns (ok: bool, next: int, ch: int)
    requires 0 <= off < bytes.Length
    ensures ok <==> off + SequenceLength(Unsigned(bytes[off])) <= bytes.Length
    ensures ok ==> next == off + SequenceLength(Unsigned(bytes[off])) && ch == CodeValue(bytes[..][off..next])
  {
    next := off;
    ch := Unsigned(bytes[next]);
    next := next + 1;
    if ch <= 0x7F {
      assert bytes[..][off..next] == [bytes[off]];
    } else if ch <= 0xDF {
      if next >= bytes.Length {
        return false, next, ch;
      }
      ch := (ch % 0x20) * 0x40 + Payload(bytes[next]);
      next := next + 1;
      assert bytes[..][off..next] == [bytes[off], bytes[off + 1]];
    } else if ch <= 0xEF {
      if next + 1 >= bytes.Length {
        return false, next, ch;
      }
      ch := (ch % 0x10) * 0x1000 + Payload(bytes[next]) * 0x40 + Payload(bytes[next + 1]);
      next := next + 2;
      assert bytes[..][off..next] == [bytes[off], bytes[off + 1], bytes[off + 2]];
    } else {
      if next + 2 >= bytes.Length {
        return false, next, ch;
      }
      ch := (ch % 0x08) * 0x4_0000 + Payload(bytes[next]) * 0x1000 + Payload(bytes[next + 1]) * 0x40 + Payload(bytes[next + 2]);
      next := next + 3;
      assert bytes[..][off..next] == [bytes[off], bytes[off + 1], bytes[off + 2], bytes[off + 3]];
    }
    ok := true;
  }

  /**
   * The writing half of a pass: the high surrogate (for a four-byte
   * sequence) and then the value or its low surrogate, each write raising
   * ArrayIndexOutOfBoundsException past the end of the buffer.
   */
  method WriteChars(buffer: array<char16>, count: int, ch: int, pair: bool) returns (ok: bool, written: int)
    requires 0 <= count <= buffer.Length
    requires 0 <= ch < 0x20_0000 && (!pair ==> ch < 0x1_0000)
    modifies buffer
    ensures ok <==> count + |Chars(ch, pair, AsWritten)| <= buffer.Length
    ensures ok ==> written == count + |Chars(ch, pair, AsWritten)|
    ensures ok ==> buffer[..written] == old(buffer[..count]) + Chars(ch, pair, AsWritten)
  {
    var c := ch;
    written := count;
    if pair {
      if written >= buffer.Length {
        return false, written;
      }
      buffer[written] := HighSurrogate(c, AsWritten);
      written := written + 1;
      c := 0xDC00 + c % 0x400;
    }
    if written >= buffer.Length {
      return false, written;
    }
    buffer[written] := c as char16;
    written := written + 1;
    ok := true;
  }

  /**
   * A loop that completes keeps what was already written and never writes
   * past the buffer.
   */
  lemma {:induction false} RunWithinCapacity(rest: seq<int8>, remaining: int, cap: int, out: seq<char16>, variant: Surrogates)
    requires Run(rest, remaining, cap, out, variant).Success? && |out| <= cap
    ensures var cs := Run(rest, remaining, cap, out, variant).value; |out| <= |cs| <= cap && cs[..|out|] == out
    decreases remaining
  {
    if remaining > 0 {
      var n := SequenceLength(Unsigned(rest[0]));
      var us := Units(rest[..n], variant);
      RunWithinCapacity(rest[n..], remaining - n, cap, out + us, variant);
      var cs := Run(rest, remaining, cap, out, variant).value;
      assert cs[..|out|] == cs[..|out + us|][..|out|];
      assert (out + us)[..|out|] == out;
    }
  }

  /** The chars decoded always fit in the buffer of `length - offset` chars. */
  lemma DecodedFitsBuffer(bytes: seq<int8>, offset: int32, length: int32, variant: Surrogates)
    requires DecodeSpec(bytes, offset, length, variant).Success?
    ensures |DecodeSpec(bytes, offset, length, variant).value| <= Wrap(length as int - offset as int) as int
  {
    if offset < length {
      RunWithinCapacity(bytes[offset..], length as int - offset as int, Wrap(length as int - offset as int) as int, [], variant);
    }
  }

  /**
   * The decoder hands out its buffer uncopied when it wrote `length` chars;
   * that only happens when `offset` is 0, so the buffer is then exactly full.
   */
  lemma UncopiedBufferIsFull(bytes: seq<int8>, offset: int32, length: int32, variant: Surrogates)
    requires DecodeSpec(bytes, offset, length, variant).Success?
    requires |DecodeSpec(bytes, offset, length, variant).value| == length as int
    ensures offset == 0 && |DecodeSpec(bytes, offset, length, variant).value| == Wrap(length as int - offset as int) as int
  {
    DecodedFitsBuffer(bytes, offset, length, variant);
  }

  /**
   * Without overflow of `length - offset`, NegativeArraySizeException is
   * raised exactly when `offset` lies beyond `length`.
   */
  lemma NegativeSize(bytes: seq<int8>, offset: int32, length: int32, variant: Surrogates)
    requires MIN_INT <= length as int - offset as int <= MAX_INT
    ensures DecodeSpec(bytes, offset, length, variant) == Failure(NegativeArraySizeException) <==> offset > length
  {
    if offset < length && 0 <= offset as int < |bytes| {
      RunRaisesIndexErrors(bytes[offset..], length as int - offset as int, (length - offset) as int, [], variant);
    }
  }

  /** The loop raises nothing but ArrayIndexOutOfBoundsException. */
  lemma {:induction false} RunRaisesIndexErrors(rest: seq<int8>, remaining: int, cap: int, out: seq<char16>, variant: Surrogates)
    ensures Run(rest, remaining, cap, out, variant).Failure? ==>
      Run(rest, remaining, cap, out, variant).error == ArrayIndexOutOfBoundsException
    decreases remaining
  {
    if remaining > 0 && rest != [] {
      var n := SequenceLength(Unsigned(rest[0]));
      if n <= |rest| {
        RunRaisesIndexErrors(rest[n..], remaining - n, cap, out + Units(rest[..n], variant), variant);
      }
    }
  }

  /**
   * The size wraps around when `length - offset` overflows: a range that
   * starts at the smallest int raises NegativeArraySizeException although
   * `offset < length`.
   */
  lemma OverflowingSize(bytes: seq<int8>)
    ensures DecodeSpec(bytes, MIN_INT as int32, 1, AsWritten) == Failure(NegativeArraySizeException)
  {
    assert Wrap(1 - MIN_INT) == (1 - MIN_INT - TWO_32) as int32;
  }

  /**
   * A sequence may run past the end index, as long as the array holds its
   * bytes: with `length` 2, the four bytes of U+10000 still decode to its
   * surrogate pair, and with `length` 1 the buffer of one char has no room
   * for the pair.
   */
  lemma TruncatedRange()
    ensures DecodeSpec([-0x10, -0x70, -0x80, -0x80], 0, 2, AsWritten) == Success([0xD800, 0xDC00])
    ensures DecodeSpec([-0x10, -0x70, -0x80, -0x80], 0, 1, AsWritten) == Failure(ArrayIndexOutOfBoundsException)
  {
    var bytes: seq<int8> := [-0x10, -0x70, -0x80, -0x80];
    assert IsSequence(bytes) && CodeValue(bytes) == 0x1_0000;
    assert Units(bytes, AsWritten) == [0xD800, 0xDC00];
    assert bytes[0..] == bytes + [];
    RunStep(bytes, [], 2, 2, [], AsWritten);
    assert [] + Units(bytes, AsWritten) == Units(bytes, AsWritten);
    assert bytes[..4] == bytes;
  }

  /** A Unicode scalar value: the code points RFC 3629 section 3 encodes. */
  predicate IsScalar(cp: int)
  {
    0 <= cp <= 0x10_FFFF && !(0xD800 <= cp <= 0xDFFF)
  }

  /**
   * The code points a decoder variant gets right: all scalar values, and for
   * the code as written only those below U+100000.
   */
  predicate Decodable(cps: seq<int>, variant: Surrogates)
  {
    AllScalars(cps) && (variant == AsWritten ==> forall i :: 0 <= i < |cps| ==> cps[i] < 0x10_0000)
  }

  /** The Java byte whose unsigned value is `v`. */
  function ToByte(v: int): (b: int8)
    requires 0 <= v < 0x100
    ensures Unsigned(b) == v
  {
    if v < 0x80 then v as int8 else (v - 0x100) as int8
  }

  /** The UTF-8 form of one code point (RFC 3629 section 3). */
  function Utf8Char(cp: int): (bs: seq<int8>)
    requires 0 <= cp <= 0x10_FFFF
    ensures 1 <= |bs| <= 4
  {
    if cp < 0x80 then [ToByte(cp)]
    else if cp < 0x800 then [ToByte(0xC0 + cp / 0x40), ToByte(0x80 + cp % 0x40)]
    else if cp < 0x1_0000 then
      [ToByte(0xE0 + cp / 0x1000), ToByte(0x80 + (cp / 0x40) % 0x40), ToByte(0x80 + cp % 0x40)]
    else
      [ToByte(0xF0 + cp / 0x4_0000), ToByte(0x80 + (cp / 0x1000) % 0x40),
       ToByte(0x80 + (cp / 0x40) % 0x40), ToByte(0x80 + cp % 0x40)]
  }

  /** A string of Unicode scalar values. */
  predicate AllScalars(cps: seq<int>)
  {
    forall i :: 0 <= i < |cps| ==> IsScalar(cps[i])
  }

  /** The UTF-8 form of a string of code points. */
  function Utf8(cps: seq<int>): seq<int8>
    requires AllScalars(cps)
  {
    if cps == [] then [] else assert IsScalar(cps[0]); Utf8Char(cps[0]) + Utf8(cps[1..])
  }

  /** The UTF-16 form of one code point (RFC 2781 section 2.1). */
  function Utf16Char(cp: int): (us: seq<char16>)
    requires IsScalar(cp)
    ensures 1 <= |us| <= 2
  {
    if cp < 0x1_0000 then [cp as char16]
    else [(0xD800 + (cp - 0x1_0000) / 0x400) as char16, (0xDC00 + (cp - 0x1_0000) % 0x400) as char16]
  }

  /** The UTF-16 form of a string of code points. */
  function Utf16(cps: seq<int>): seq<char16>
    requires AllScalars(cps)
  {
    if cps == [] then [] else assert IsScalar(cps[0]); Utf16Char(cps[0]) + Utf16(cps[1..])
  }

  /**
   * The UTF-8 form of a code point is one whole sequence, and decoding it
   * gives its UTF-16 form: the decoder inverts the encoder, code point by
   * code point, wherever the variant handles the code point.
   */
  lemma SequenceRoundTrip(cp: int, variant: Surrogates)
    requires IsScalar(cp) && (variant == AsWritten ==> cp < 0x10_0000)
    ensures IsSequence(Utf8Char(cp))
    ensures Units(Utf8Char(cp), variant) == Utf16Char(cp)
  {
    var w := Utf8Char(cp);
    CodeValueRoundTrip(cp);
    if cp < 0x1_0000 {
      assert Units(w, variant) == [cp as char16];
    } else {
      SurrogatePair(cp, variant);
      assert Units(w, variant) == [HighSurrogate(cp, variant), LowSurrogate(cp)];
    }
  }

  /** The surrogates the decoder writes for a supplementary code point are those of RFC 2781. */
  lemma SurrogatePair(cp: int, variant: Surrogates)
    requires 0x1_0000 <= cp <= 0x10_FFFF && (variant == AsWritten ==> cp < 0x10_0000)
    ensures [HighSurrogate(cp, variant), LowSurrogate(cp)] == Utf16Char(cp)
  {
    assert (cp - 0x1_0000) / 0x400 == cp / 0x400 - 0x40;
    assert (cp - 0x1_0000) % 0x400 == cp % 0x400;
  }

  /** The value of the UTF-8 form of a code point is the code point. */
  lemma CodeValueRoundTrip(cp: int)
    requires 0 <= cp <= 0x10_FFFF
    ensures IsSequence(Utf8Char(cp)) && CodeValue(Utf8Char(cp)) == cp
    ensures |Utf8Char(cp)| < 4 <==> cp < 0x1_0000
  {
    if cp < 0x80 {
    } else if cp < 0x800 {
      TwoByteValue(cp);
    } else if cp < 0x1_0000 {
      ThreeByteValue(cp);
    } else {
      FourByteValue(cp);
    }
  }

  lemma TwoByteValue(cp: int)
    requires 0x80 <= cp < 0x800
    ensures IsSequence(Utf8Char(cp)) && CodeValue(Utf8Char(cp)) == cp
  {
    var w := Utf8Char(cp);
    assert Unsigned(w[0]) % 0x20 == cp / 0x40 by {
      assert Unsigned(w[0]) == 0xC0 + cp / 0x40;
    }
    ContinuationPayload(cp % 0x40);
  }

  lemma ThreeByteValue(cp: int)
    requires 0x800 <= cp < 0x1_0000
    ensures IsSequence(Utf8Char(cp)) && CodeValue(Utf8Char(cp)) == cp
  {
    var w := Utf8Char(cp);
    assert Unsigned(w[0]) % 0x10 == cp / 0x1000 by {
      assert Unsigned(w[0]) == 0xE0 + cp / 0x1000;
    }
    ContinuationPayload((cp / 0x40) % 0x40);
    ContinuationPayload(cp % 0x40);
    SixBitDigits(cp);
  }

  lemma FourByteValue(cp: int)
    requires 0x1_0000 <= cp <= 0x10_FFFF
    ensures IsSequence(Utf8Char(cp)) && CodeValue(Utf8Char(cp)) == cp
  {
    var w := Utf8Char(cp);
    var a, b, c, d := cp / 0x4_0000, (cp / 0x1000) % 0x40, (cp / 0x40) % 0x40, cp % 0x40;
    assert Unsigned(w[0]) % 0x08 == a by {
      assert Unsigned(w[0]) == 0xF0 + a && a < 0x08;
    }
    ContinuationPayload(b);
    ContinuationPayload(c);
    ContinuationPayload(d);
    assert CodeValue(w) == a * 0x4_0000 + b * 0x1000 + c * 0x40 + d;
    SixBitDigits(cp);
  }

  /** A continuation byte carries its six-bit digit. */
  lemma ContinuationPayload(x: int)
    requires 0 <= x < 0x40
    ensures Payload(ToByte(0x80 + x)) == x
  {
  }

  /** A number splits into six-bit digits. */
  lemma SixBitDigits(x: int)
    requires 0 <= x
    ensures x == (x / 0x1000) * 0x1000 + ((x / 0x40) % 0x40) * 0x40 + x % 0x40
    ensures x / 0x1000 == (x / 0x4_0000) * 0x40 + (x / 0x1000) % 0x40
  {
    assert x == (x / 0x40) * 0x40 + x % 0x40;
    assert x / 0x40 == (x / 0x1000) * 0x40 + (x / 0x40) % 0x40;
    assert x / 0x1000 == (x / 0x4_0000) * 0x40 + (x / 0x1000) % 0x40;
  }

  /** The encodings of a non-empty string start with those of its first code point. */
  lemma DecodableCons(cps: seq<int>, variant: Surrogates)
    requires Decodable(cps, variant) && cps != []
    ensures IsScalar(cps[0]) && (variant == AsWritten ==> cps[0] < 0x10_0000)
    ensures Decodable(cps[1..], variant)
    ensures Utf8(cps) == Utf8Char(cps[0]) + Utf8(cps[1..])
    ensures Utf16(cps) == Utf16Char(cps[0]) + Utf16(cps[1..])
  {
    assert IsScalar(cps[0]);
  }

  /** Concatenating sequences associates. */
  lemma AppendAssociates<T>(a: seq<T>, b: seq<T>, c: seq<T>)
    ensures a + b + c == a + (b + c)
  {
  }

  /** One pass of the loop over a whole sequence `w` at the front of the bytes, with room for its chars. */
  lemma RunStep(w: seq<int8>, tail: seq<int8>, remaining: int, cap: int, out: seq<char16>, variant: Surrogates)
    requires IsSequence(w) && remaining > 0
    requires |out| + |Units(w, variant)| <= cap
    ensures Run(w + tail, remaining, cap, out, variant) == Run(tail, remaining - |w|, cap, out + Units(w, variant), variant)
  {
    assert (w + tail)[0] == w[0];
    assert (w + tail)[..|w|] == w;
    assert (w + tail)[|w|..] == tail;
  }

  /** The bytes of a list of sequences, one after the other. */
  function Concat(ws: seq<seq<int8>>): seq<int8>
  {
    if ws == [] then [] else ws[0] + Concat(ws[1..])
  }

  /** Every element is a whole sequence. */
  predicate AllSequences(ws: seq<seq<int8>>)
  {
    ws == [] || (IsSequence(ws[0]) && AllSequences(ws[1..]))
  }

  /** The chars of a list of whole sequences, one after the other. */
  function AllUnits(ws: seq<seq<int8>>, variant: Surrogates): (us: seq<char16>)
    requires AllSequences(ws)
    ensures |us| <= |Concat(ws)|
  {
    if ws == [] then [] else Units(ws[0], variant) + AllUnits(ws[1..], variant)
  }

  /**
   * A whole sequence `w`, followed by sequences `more` that decode to
   * `chars`, decodes to the chars of `w` followed by `chars`.
   */
  lemma RunThenRest(w: seq<int8>, more: seq<int8>, tail: seq<int8>, chars: seq<char16>, cap: int, out: seq<char16>, variant: Surrogates)
    requires IsSequence(w)
    requires |out| + |Units(w, variant)| <= cap
    requires Run(more + tail, |more|, cap, out + Units(w, variant), variant) == Success(out + Units(w, variant) + chars)
    ensures Run(w + more + tail, |w| + |more|, cap, out, variant) == Success(out + Units(w, variant) + chars)
  {
    assert w + more + tail == w + (more + tail);
    RunStep(w, more + tail, |w| + |more|, cap, out, variant);
  }

  /**
   * Input made of whole sequences decodes to the chars of those sequences,
   * whatever follows the end index, provided the buffer has room for them.
   */
  lemma {:induction false} RunDecodes(ws: seq<seq<int8>>, tail: seq<int8>, cap: int, out: seq<char16>, variant: Surrogates)
    requires AllSequences(ws)
    requires |out| + |AllUnits(ws, variant)| <= cap
    ensures Run(Concat(ws) + tail, |Concat(ws)|, cap, out, variant) == Success(out + AllUnits(ws, variant))
    decreases |ws|
  {
    if ws == [] {
      assert out + [] == out;
    } else {
      var w, rest := ws[0], ws[1..];
      RunDecodes(rest, tail, cap, out + Units(w, variant), variant);
      RunThenRest(w, Concat(rest), tail, AllUnits(rest, variant), cap, out, variant);
      AppendAssociates(out, Units(w, variant), AllUnits(rest, variant));
    }
  }

  /**
   * `decode` never raises an exception on a range made of whole sequences:
   * it returns their chars.
   */
  lemma WholeSequencesDecode(bytes: seq<int8>, offset: int32, length: int32, ws: seq<seq<int8>>, variant: Surrogates)
    requires AllSequences(ws)
    requires 0 <= offset as int <= length as int <= |bytes| && bytes[offset..length] == Concat(ws)
    ensures DecodeSpec(bytes, offset, length, variant) == Success(AllUnits(ws, variant))
  {
    assert Wrap(length as int - offset as int) as int == length as int - offset as int;
    LoopDecodes(bytes, offset as int, length as int, ws, variant);
  }

  /** The loop over a range made of whole sequences, with a buffer as large as the range. */
  lemma LoopDecodes(bytes: seq<int8>, offset: int, length: int, ws: seq<seq<int8>>, variant: Surrogates)
    requires AllSequences(ws)
    requires 0 <= offset <= length <= |bytes| && bytes[offset..length] == Concat(ws)
    ensures Loop(bytes, offset, length, length - offset, variant) == Success(AllUnits(ws, variant))
  {
    if offset < length {
      var tail := bytes[length..];
      assert bytes[offset..] == Concat(ws) + tail by {
        assert bytes[offset..] == bytes[offset..length] + tail;
      }
      RunDecodes(ws, tail, length - offset, [], variant);
      assert [] + AllUnits(ws, variant) == AllUnits(ws, variant);
    } else {
      assert |AllUnits(ws, variant)| <= |Concat(ws)| == 0;
    }
  }

  /** The UTF-8 forms of the code points of a string, one per code point. */
  function Utf8Sequences(cps: seq<int>): (ws: seq<seq<int8>>)
    requires AllScalars(cps)
    ensures |ws| == |cps|
  {
    if cps == [] then [] else assert IsScalar(cps[0]); [Utf8Char(cps[0])] + Utf8Sequences(cps[1..])
  }

  /**
   * The UTF-8 form of a string is the list of the UTF-8 forms of its code
   * points, each a whole sequence, and their chars are the UTF-16 form.
   */
  lemma {:induction false} Utf8SequencesDecode(cps: seq<int>, variant: Surrogates)
    requires Decodable(cps, variant)
    ensures AllSequences(Utf8Sequences(cps))
    ensures Concat(Utf8Sequences(cps)) == Utf8(cps)
    ensures AllUnits(Utf8Sequences(cps), variant) == Utf16(cps)
  {
    if cps != [] {
      DecodableCons(cps, variant);
      SequenceRoundTrip(cps[0], variant);
      Utf8SequencesDecode(cps[1..], variant);
      var ws := Utf8Sequences(cps);
      assert ws[0] == Utf8Char(cps[0]) && ws[1..] == Utf8Sequences(cps[1..]);
    }
  }

  /**
   * Round trip: `decode` of the UTF-8 form of a string over its whole range
   * is the UTF-16 form of the string, for every string the variant handles.
   */
  lemma DecodeRoundTrip(cps: seq<int>, variant: Surrogates)
    requires Decodable(cps, variant) && |Utf8(cps)| <= MAX_INT
    ensures DecodeSpec(Utf8(cps), 0, |Utf8(cps)| as int32, variant) == Success(Utf16(cps))
  {
    var bytes := Utf8(cps);
    Utf8SequencesDecode(cps, variant);
    assert bytes[0..|bytes|] == bytes;
    WholeSequencesDecode(bytes, 0, |bytes| as int32, Utf8Sequences(cps), variant);
  }

  /**
   * `decode` as its JDK caller `String(byte[], int, int)` means it: `count`
   * bytes from `offset`, into a buffer of `count` chars.
   */
  function DecodeCounted(bytes: seq<int8>, offset: int32, count: int32, variant: Surrogates): Result<seq<char16>, Throwable>
  {
    if count < 0 then Failure(NegativeArraySizeException)
    else Loop(bytes, offset as int, offset as int + count as int, count as int, variant)
  }

  /**
   * As written, `length` is an end index and not a count: from offset 1 with
   * length 2, "ABC" decodes to "B", where the counted reading gives "BC".
   */
  lemma LengthIsEndIndex()
    ensures DecodeSpec([0x41, 0x42, 0x43], 1, 2, AsWritten) == Success([0x42])
    ensures DecodeCounted([0x41, 0x42, 0x43], 1, 2, AsWritten) == Success([0x42, 0x43])
  {
    var b: seq<int8>, c: seq<int8> := [0x42], [0x43];
    assert IsSequence(b) && Units(b, AsWritten) == [0x42];
    assert IsSequence(c) && Units(c, AsWritten) == [0x43];
    assert [0x41, 0x42, 0x43][1..] == b + c && c == c + [];
    assert Wrap(2 - 1) == 1;
    RunStep(b, c, 1, 1, [], AsWritten);
    assert [] + Units(b, AsWritten) == [0x42];
    RunStep(b, c, 2, 2, [], AsWritten);
    RunStep(c, [], 1, 2, [0x42], AsWritten);
  }

  /** The counted reading decodes exactly the `count` bytes from `offset`, when they are whole sequences. */
  lemma CountedDecodes(bytes: seq<int8>, offset: int32, count: int32, ws: seq<seq<int8>>, variant: Surrogates)
    requires AllSequences(ws)
    requires 0 <= offset as int && 0 <= count as int && offset as int + count as int <= |bytes|
    requires bytes[offset..offset as int + count as int] == Concat(ws)
    ensures DecodeCounted(bytes, offset, count, variant) == Success(AllUnits(ws, variant))
  {
    LoopDecodes(bytes, offset as int, offset as int + count as int, ws, variant);
  }

  /**
   * The code as written gets U+100000 wrong: its UTF-8 form F4 80 80 80
   * decodes to D7C0 DC00 instead of the surrogate pair DBC0 DC00, which the
   * intended formula produces.
   */
  lemma HighSurrogateMasked()
    ensures Utf8([0x10_0000]) == [-0x0C, -0x80, -0x80, -0x80]
    ensures Utf16([0x10_0000]) == [0xDBC0, 0xDC00]
    ensures DecodeSpec([-0x0C, -0x80, -0x80, -0x80], 0, 4, AsWritten) == Success([0xD7C0, 0xDC00])
    ensures DecodeSpec([-0x0C, -0x80, -0x80, -0x80], 0, 4, Intended) == Success([0xDBC0, 0xDC00])
  {
    var bytes: seq<int8> := [-0x0C, -0x80, -0x80, -0x80];
    assert IsSequence(bytes) && CodeValue(bytes) == 0x10_0000;
    assert Units(bytes, AsWritten) == [0xD7C0, 0xDC00];
    assert Units(bytes, Intended) == [0xDBC0, 0xDC00];
    assert [bytes][1..] == [];
    assert Concat([bytes]) == bytes + Concat([]) == bytes;
    assert AllSequences([bytes]) && bytes[0..4] == bytes;
    assert AllUnits([bytes], AsWritten) == Units(bytes, AsWritten);
    assert AllUnits([bytes], Intended) == Units(bytes, Intended);
    WholeSequencesDecode(bytes, 0, 4, [bytes], AsWritten);
    WholeSequencesDecode(bytes, 0, 4, [bytes], Intended);
  }
}
