/** The older, table-driven engine of xbee/base.py (the same code is repeated
    as static methods of xbee1.py). It differs from xbee/backend/base.py in
    three ways: responses have no null-terminated fields, no parsing rules
    and no echoed-command check; a response may name one field to decode as
    IO samples; and its IO header has 9 digital and 6 analog lines, with
    analog readings masked to 10 bits. */
module LegacyBase {
  import opened Bytes
  import opened Results
  import opened Packets
  import Marshal
  import IoSamples
  import AtHooks
  import XBeeFrame

  // ------------------------------------------------------------ IO samples

  /** What `_parse_samples_header` returns: count, digital and analog lines. */
  datatype Header = Header(count: nat, dio: seq<nat>, adc: seq<nat>)

  /** Lines 0..7 from the bits of byte 2, then line 8 from bit 0 of byte 1. */
  function DigitalLines(b1: byte, b2: byte): seq<nat>
  {
    IoSamples.Channels(b2 as bv16, 8) + (if Bit(b1 as bv16, 0) then [8] else [])
  }

  /** Byte 1 shifted so that bit c is the flag of analog line c. */
  function AnalogMask(b1: byte): bv16
  {
    (b1 as bv16) >> 1
  }

  /** Analog line c (0..5) from bit c + 1 of byte 1. */
  function AnalogLines(b1: byte): seq<nat>
  {
    IoSamples.Channels(AnalogMask(b1), 6)
  }

  /** `_parse_samples_header`, specified; fewer than three bytes cannot be read. */
  function SamplesHeader(io: seq<byte>): (r: Result<Header>)
    ensures r.Ok? <==> |io| >= 3
  {
    if |io| < 3 then Err(TruncatedIoSample)
    else Ok(Header(io[0], DigitalLines(io[1], io[2]), AnalogLines(io[1])))
  }

  /** `value &= 0x3FF` on the signed reading: its low ten bits, as Python's
      `&` on a negative number keeps the two's-complement bits. */
  function AnalogValue(hi: byte, lo: byte): int
  {
    XBeeFrame.Signed16(hi, lo) % 0x400
  }

  /** The digital lines of one sample from the (clamped) two-byte slice:
      line 8 reads `values[0]`, lines 0..7 read `values[1]`. */
  function ReadDigital(chans: seq<nat>, values: seq<byte>, acc: map<nat, bool>): Result<map<nat, bool>>
  {
    if |chans| == 0 then Ok(acc)
    else if chans[0] > 7 then
      if |values| < 1 then Err(TruncatedIoSample)
      else ReadDigital(chans[1..], values, acc[chans[0] := Bit(values[0] as bv16, chans[0] - 8)])
    else
      if |values| < 2 then Err(TruncatedIoSample)
      else ReadDigital(chans[1..], values, acc[chans[0] := Bit(values[1] as bv16, chans[0])])
  }

  /** The analog lines of one sample, two bytes each from position pos; a
      slice that is not exactly two bytes long cannot be unpacked. */
  function ReadAnalog(chans: seq<nat>, io: seq<byte>, pos: nat, acc: map<nat, int>): Result<map<nat, int>>
  {
    if |chans| == 0 then Ok(acc)
    else
      var raw := Slice(io, pos, pos + 2);
      if |raw| != 2 then Err(TruncatedIoSample)
      else ReadAnalog(chans[1..], io, pos + 2, acc[chans[0] := AnalogValue(raw[0], raw[1])])
  }

  /** Where the analog readings of a sample start. */
  function AnalogStart(h: Header, pos: nat): nat
  {
    if |h.dio| > 0 then pos + 2 else pos
  }

  /** One sample read at pos, and the position after it. */
  function ReadSample(h: Header, io: seq<byte>, pos: nat): Result<(Sample, nat)>
  {
    var dio :- if |h.dio| > 0 then ReadDigital(h.dio, Slice(io, pos, pos + 2), map[]) else Ok(map[]);
    var adc :- ReadAnalog(h.adc, io, AnalogStart(h, pos), map[]);
    Ok((Sample(dio, adc), AnalogStart(h, pos) + 2 * |h.adc|))
  }

  /** n more samples from pos on; bytes after the last one are ignored. */
  function ReadSamples(h: Header, io: seq<byte>, pos: nat, n: nat, acc: seq<Sample>): Result<seq<Sample>>
    decreases n
  {
    if n == 0 then Ok(acc)
    else
      var one :- ReadSample(h, io, pos);
      ReadSamples(h, io, one.1, n - 1, acc + [one.0])
  }

  /** `_parse_samples`, specified: the header, then `count` samples from byte 3. */
  function Samples(io: seq<byte>): Result<seq<Sample>>
  {
    var h :- SamplesHeader(io);
    ReadSamples(h, io, 3, h.count, [])
  }

  /** `_parse_samples_header`: tests the flag bits one by one. */
  method ParseSamplesHeader(io: seq<byte>) returns (r: Result<Header>)
    ensures r == SamplesHeader(io)
  {
    if |io| < 3 {
      return Err(TruncatedIoSample);
    }
    var count := io[0];
    var dio := IoSamples.ChannelLoop(io[2] as bv16, 8);
    var byte1 := io[1] as bv16;
    if byte1 & 1 != 0 {
      dio := dio + [8];
    }
    assert Bit(byte1, 0) <==> byte1 & 1 != 0;
    var adc := AnalogFlags(byte1);
    assert AnalogMask(io[1]) == byte1 >> 1;
    assert dio == DigitalLines(io[1], io[2]);
    r := Ok(Header(count, dio, adc));
  }

  /** The analog half of `_parse_samples_header`: flag `2 << c` of byte 1
      enables analog line c. */
  method AnalogFlags(byte1: bv16) returns (adc: seq<nat>)
    ensures adc == IoSamples.Channels(byte1 >> 1, 6)
  {
    adc := [];
    for line := 0 to 6
      invariant adc == IoSamples.Channels(byte1 >> 1, line)
    {
      ShiftedBit(byte1, line);
      if byte1 & (2 << line) != 0 {
        adc := adc + [line];
      }
    }
  }

  /** Flag `2 << c` of x is bit c of `x >> 1`. */
  lemma ShiftedBit(x: bv16, c: nat)
    requires c < 6
    ensures (x & (2 << c) != 0) <==> Bit(x >> 1, c)
  {
    assert c == 0 || c == 1 || c == 2 || c == 3 || c == 4 || c == 5;
    assert (x >> 1) & (1 << c) == (x & (2 << c)) >> 1;
  }

  /** The loop over the enabled digital lines of one sample. */
  method DigitalValues(chans: seq<nat>, values: seq<byte>) returns (r: Result<map<nat, bool>>)
    ensures r == ReadDigital(chans, values, map[])
  {
    var dio: map<nat, bool> := map[];
    for j := 0 to |chans|
      invariant ReadDigital(chans, values, map[]) == ReadDigital(chans[j..], values, dio)
    {
      assert chans[j..][1..] == chans[j + 1..];
      var line := chans[j];
      if line > 7 {
        if |values| < 1 {
          return Err(TruncatedIoSample);
        }
        dio := dio[line := Bit(values[0] as bv16, line - 8)];
      } else {
        if |values| < 2 {
          return Err(TruncatedIoSample);
        }
        dio := dio[line := Bit(values[1] as bv16, line)];
      }
    }
    assert chans[|chans|..] == [];
    r := Ok(dio);
  }

  /** The loop over the enabled analog lines of one sample, two bytes each. */
  method AnalogValues(chans: seq<nat>, io: seq<byte>, start: nat) returns (r: Result<map<nat, int>>)
    ensures r == ReadAnalog(chans, io, start, map[])
  {
    var adc: map<nat, int> := map[];
    var pos := start;
    for j := 0 to |chans|
      invariant ReadAnalog(chans, io, start, map[]) == ReadAnalog(chans[j..], io, pos, adc)
    {
      assert chans[j..][1..] == chans[j + 1..];
      var raw := Slice(io, pos, pos + 2);
      if |raw| != 2 {
        return Err(TruncatedIoSample);
      }
      adc := adc[chans[j] := AnalogValue(raw[0], raw[1])];
      pos := pos + 2;
    }
    assert chans[|chans|..] == [];
    r := Ok(adc);
  }

  /** The body of the sample loop of `_parse_samples`. */
  method ParseSample(h: Header, io: seq<byte>, pos: nat) returns (r: Result<(Sample, nat)>)
    ensures r == ReadSample(h, io, pos)
  {
    var dio: map<nat, bool> := map[];
    var next := pos;
    if |h.dio| > 0 {
      var digital := DigitalValues(h.dio, Slice(io, pos, pos + 2));
      if digital.Err? {
        return Err(digital.error);
      }
      dio := digital.value;
      next := pos + 2;
    }
    var adc := AnalogValues(h.adc, io, next);
    if adc.Err? {
      return Err(adc.error);
    }
    r := Ok((Sample(dio, adc.value), next + 2 * |h.adc|));
  }

  /** `_parse_samples`: for each sample, the digital bytes if any digital
      line is enabled, then two bytes per analog line, advancing `byte_pos`. */
  method ParseSamples(io: seq<byte>) returns (r: Result<seq<Sample>>)
    ensures r == Samples(io)
  {
    var header := ParseSamplesHeader(io);
    if header.Err? {
      return Err(header.error);
    }
    var h := header.value;
    var samples: seq<Sample> := [];
    var pos: nat := 3;
    var left: nat := h.count;
    while left > 0
      invariant Samples(io) == ReadSamples(h, io, pos, left, samples)
    {
      var one := ParseSample(h, io, pos);
      if one.Err? {
        return Err(one.error);
      }
      samples := samples + [one.value.0];
      pos := one.value.1;
      left := left - 1;
    }
    r := Ok(samples);
  }

  /** Digital line c < 8 is enabled by bit c of byte 2, line 8 by bit 0 of
      byte 1. */
  predicate DigitalEnabled(b1: byte, b2: byte, c: nat)
  {
    (c < 8 && Bit(b2 as bv16, c)) || (c == 8 && Bit(b1 as bv16, 0))
  }

  /** Analog line c < 6 is enabled by bit c + 1 of byte 1. */
  predicate AnalogEnabled(b1: byte, c: nat)
  {
    c < 6 && Bit(b1 as bv16, c + 1)
  }

  /** The digital lines are the enabled ones, ascending. */
  lemma DigitalLinesMeaning(b1: byte, b2: byte)
    ensures IoSamples.Ascending(DigitalLines(b1, b2))
    ensures forall c: nat :: c in DigitalLines(b1, b2) <==> DigitalEnabled(b1, b2, c)
  {
    var low := IoSamples.Channels(b2 as bv16, 8);
    var high: seq<nat> := if Bit(b1 as bv16, 0) then [8] else [];
    IoSamples.ChannelsMeaning(b2 as bv16, 8);
    forall c: nat
      ensures c in low + high <==> (c < 8 && Bit(b2 as bv16, c)) || (c == 8 && Bit(b1 as bv16, 0))
    {
      assert c in low + high <==> c in low || c in high;
    }
    forall i, j | 0 <= i < j < |low + high|
      ensures (low + high)[i] < (low + high)[j]
    {
      if j >= |low| {
        assert (low + high)[i] in low;
      }
    }
  }

  /** The analog lines are the enabled ones, ascending. */
  lemma AnalogLinesMeaning(b1: byte)
    ensures IoSamples.Ascending(AnalogLines(b1))
    ensures forall c: nat :: c in AnalogLines(b1) <==> AnalogEnabled(b1, c)
  {
    IoSamples.ChannelsMeaning(AnalogMask(b1), 6);
    forall c: nat | c < 6
      ensures Bit(AnalogMask(b1), c) <==> Bit(b1 as bv16, c + 1)
    {
      ShiftedBit(b1 as bv16, c);
      assert (2 as bv16) << c == 1 << (c + 1) by {
        assert c == 0 || c == 1 || c == 2 || c == 3 || c == 4 || c == 5;
      }
    }
  }

  /** The legacy header as the API describes it: the first byte counts the
      samples, digital line c < 8 is enabled by bit c of byte 2 and line 8 by
      bit 0 of byte 1, analog line c < 6 by bit c + 1 of byte 1; both lists
      ascend. */
  lemma SamplesHeaderMeaning(io: seq<byte>)
    requires |io| >= 3
    ensures var h := SamplesHeader(io).value;
            && h.count == io[0]
            && IoSamples.Ascending(h.dio) && IoSamples.Ascending(h.adc)
            && (forall c: nat :: c in h.dio <==> DigitalEnabled(io[1], io[2], c))
            && (forall c: nat :: c in h.adc <==> AnalogEnabled(io[1], c))
  {
    DigitalLinesMeaning(io[1], io[2]);
    AnalogLinesMeaning(io[1]);
  }

  /** The digital lines of a sample are read exactly when the slice holds
      the bytes they need (one for line 8, two for lines 0..7); each enabled
      line then gets its bit, and nothing else changes. */
  lemma {:induction false} ReadDigitalMeaning(chans: seq<nat>, values: seq<byte>, acc: map<nat, bool>)
    ensures ReadDigital(chans, values, acc).Ok? <==> forall c :: c in chans ==> |values| >= (if c > 7 then 1 else 2)
    ensures ReadDigital(chans, values, acc).Ok? ==>
              var m := ReadDigital(chans, values, acc).value;
              && (forall c :: c in m <==> c in acc || c in chans)
              && (forall c :: c in chans ==> m[c] == if c > 7 then Bit(values[0] as bv16, c - 8) else Bit(values[1] as bv16, c))
              && (forall c :: c in acc && c !in chans ==> m[c] == acc[c])
    decreases |chans|
  {
    if |chans| > 0 {
      var c0 := chans[0];
      var tail := chans[1..];
      assert forall c :: c in chans <==> c == c0 || c in tail by {
        assert chans == [c0] + tail;
      }
      assert chans[1..] == tail;
      if |values| >= (if c0 > 7 then 1 else 2) {
        var acc' := acc[c0 := if c0 > 7 then Bit(values[0] as bv16, c0 - 8) else Bit(values[1] as bv16, c0)];
        assert ReadDigital(chans, values, acc) == ReadDigital(tail, values, acc');
        ReadDigitalMeaning(tail, values, acc');
      } else {
        assert ReadDigital(chans, values, acc) == Err(TruncatedIoSample);
        assert c0 in chans;
      }
    }
  }

  /** An analog value is the unsigned big-endian reading's low ten bits: the
      sign of the signed unpacking never shows, and the value is below 1024. */
  lemma AnalogValueMeaning(hi: byte, lo: byte)
    ensures AnalogValue(hi, lo) == BigEndian(hi, lo) % 0x400
    ensures 0 <= AnalogValue(hi, lo) < 0x400
  {
    var u: int := BigEndian(hi, lo);
    if hi >= 0x80 {
      assert u - 0x10000 == (u - 0x400 * 64);
      assert (u - 0x400 * 64) % 0x400 == u % 0x400;
    }
  }

  /** Every analog value read lies in 0..1023. */
  lemma {:induction false} ReadAnalogRange(chans: seq<nat>, io: seq<byte>, pos: nat, acc: map<nat, int>)
    requires forall c :: c in acc ==> 0 <= acc[c] < 0x400
    requires ReadAnalog(chans, io, pos, acc).Ok?
    ensures forall c :: c in ReadAnalog(chans, io, pos, acc).value ==> 0 <= ReadAnalog(chans, io, pos, acc).value[c] < 0x400
    decreases |chans|
  {
    if |chans| > 0 {
      var raw := Slice(io, pos, pos + 2);
      AnalogValueMeaning(raw[0], raw[1]);
      ReadAnalogRange(chans[1..], io, pos + 2, acc[chans[0] := AnalogValue(raw[0], raw[1])]);
    }
  }

  /** One sample's analog values all lie in 0..1023. */
  lemma SampleAnalogRange(h: Header, io: seq<byte>, pos: nat)
    requires ReadSample(h, io, pos).Ok?
    ensures forall c :: c in ReadSample(h, io, pos).value.0.adc ==> 0 <= ReadSample(h, io, pos).value.0.adc[c] < 0x400
  {
    ReadAnalogRange(h.adc, io, AnalogStart(h, pos), map[]);
  }

  /** The samples read so far are kept in front and exactly n are added;
      every analog value of the added samples lies in 0..1023. */
  lemma {:induction false} ReadSamplesMeaning(h: Header, io: seq<byte>, pos: nat, n: nat, acc: seq<Sample>)
    requires ReadSamples(h, io, pos, n, acc).Ok?
    ensures var r := ReadSamples(h, io, pos, n, acc).value;
            && |r| == |acc| + n && r[..|acc|] == acc
            && forall k, c :: |acc| <= k < |r| && c in r[k].adc ==> 0 <= r[k].adc[c] < 0x400
    decreases n
  {
    if n > 0 {
      var one := ReadSample(h, io, pos).value;
      SampleAnalogRange(h, io, pos);
      var acc' := acc + [one.0];
      ReadSamplesMeaning(h, io, one.1, n - 1, acc');
      var r := ReadSamples(h, io, pos, n, acc).value;
      assert r == ReadSamples(h, io, one.1, n - 1, acc').value;
      assert r[..|acc|] == r[..|acc'|][..|acc|];
      assert r[|acc|] == r[..|acc'|][|acc|];
    }
  }

  /** `_parse_samples` returns exactly as many samples as the header's count,
      and every analog value in them is a 10-bit reading. */
  lemma SamplesMeaning(io: seq<byte>)
    requires Samples(io).Ok?
    ensures |io| >= 3 && |Samples(io).value| == io[0]
    ensures forall k, c :: 0 <= k < |Samples(io).value| && c in Samples(io).value[k].adc ==>
              0 <= Samples(io).value[k].adc[c] < 0x400
  {
    var h := SamplesHeader(io).value;
    ReadSamplesMeaning(h, io, 3, h.count, []);
  }

  lemma ChannelsLowByte()
    ensures IoSamples.Channels(0xFF, 8) == [0, 1, 2, 3, 4, 5, 6, 7]
  {
  }

  lemma ChannelsNone()
    ensures IoSamples.Channels(0, 6) == []
  {
  }

  /** Header 01 01 FF: one sample, all nine digital lines, no analog line. */
  lemma HeaderAllHigh()
    ensures SamplesHeader(IoSamples.AllHighPayload) == Ok(Header(1, [0, 1, 2, 3, 4, 5, 6, 7, 8], []))
  {
    var io := IoSamples.AllHighPayload;
    ChannelsLowByte();
    ChannelsNone();
    assert io[2] as bv16 == 0xFF && Bit(io[1] as bv16, 0) && AnalogMask(io[1]) == 0;
    assert DigitalLines(io[1], io[2]) == [0, 1, 2, 3, 4, 5, 6, 7] + [8];
    assert [0, 1, 2, 3, 4, 5, 6, 7] + [8] == [0, 1, 2, 3, 4, 5, 6, 7, 8];
  }

  /** One step of reading a digital line 0..7 from the second byte. */
  lemma ReadDigitalLow(c: nat, rest: seq<nat>, values: seq<byte>, acc: map<nat, bool>)
    requires c <= 7 && |values| >= 2
    ensures ReadDigital([c] + rest, values, acc) == ReadDigital(rest, values, acc[c := Bit(values[1] as bv16, c)])
  {
    assert ([c] + rest)[1..] == rest;
  }

  lemma AllHighBits()
    ensures Bit(0xFF, 0) && Bit(0xFF, 1) && Bit(0xFF, 2) && Bit(0xFF, 3)
    ensures Bit(0xFF, 4) && Bit(0xFF, 5) && Bit(0xFF, 6) && Bit(0xFF, 7) && Bit(0x01, 0)
  {
  }

  /** The digital bytes of the library's all-high sample. */
  const AllHighWord: seq<byte> := [0x01, 0xFF]

  /** Lines 0..7 read high from its second byte. */
  lemma LowLinesHigh()
    ensures ReadDigital([0, 1, 2, 3, 4, 5, 6, 7, 8], AllHighWord, map[])
            == ReadDigital([8], AllHighWord, map[0 := true, 1 := true, 2 := true, 3 := true, 4 := true, 5 := true, 6 := true, 7 := true])
  {
    var v := AllHighWord;
    AllHighBits();
    assert v[1] as bv16 == 0xFF;
    assert [0, 1, 2, 3, 4, 5, 6, 7, 8] == [0] + [1, 2, 3, 4, 5, 6, 7, 8];
    ReadDigitalLow(0, [1, 2, 3, 4, 5, 6, 7, 8], v, map[]);
    ReadDigitalLow(1, [2, 3, 4, 5, 6, 7, 8], v, map[0 := true]);
    ReadDigitalLow(2, [3, 4, 5, 6, 7, 8], v, map[0 := true, 1 := true]);
    ReadDigitalLow(3, [4, 5, 6, 7, 8], v, map[0 := true, 1 := true, 2 := true]);
    ReadDigitalLow(4, [5, 6, 7, 8], v, map[0 := true, 1 := true, 2 := true, 3 := true]);
    ReadDigitalLow(5, [6, 7, 8], v, map[0 := true, 1 := true, 2 := true, 3 := true, 4 := true]);
    ReadDigitalLow(6, [7, 8], v, map[0 := true, 1 := true, 2 := true, 3 := true, 4 := true, 5 := true]);
    ReadDigitalLow(7, [8], v, map[0 := true, 1 := true, 2 := true, 3 := true, 4 := true, 5 := true, 6 := true]);
  }

  /** The digital bytes 01 FF set each of the nine lines. */
  lemma DigitalAllHigh()
    ensures ReadDigital([0, 1, 2, 3, 4, 5, 6, 7, 8], AllHighWord, map[]) == Ok(IoSamples.AllHighSample.dio)
  {
    LowLinesHigh();
    AllHighBits();
    assert AllHighWord[0] as bv16 == 0x01;
    var m := map[0 := true, 1 := true, 2 := true, 3 := true, 4 := true, 5 := true, 6 := true, 7 := true];
    assert ReadDigital([8], AllHighWord, m) == Ok(m[8 := true]);
  }

  /** The library's example: header 01 01 FF enables all nine digital lines,
      and the sample 01 FF sets every one of them. */
  lemma SampleExampleAllHigh()
    ensures Samples(IoSamples.AllHighPayload) == Ok([IoSamples.AllHighSample])
  {
    var io := IoSamples.AllHighPayload;
    HeaderAllHigh();
    var h := Header(1, [0, 1, 2, 3, 4, 5, 6, 7, 8], []);
    assert Slice(io, 3, 5) == AllHighWord;
    DigitalAllHigh();
    assert ReadSample(h, io, 3) == Ok((IoSamples.AllHighSample, 5));
    assert [] + [IoSamples.AllHighSample] == [IoSamples.AllHighSample];
  }

  // ------------------------------------------------------------ responses

  /** A response field: a fixed byte count, or None for the rest of the payload. */
  datatype Field = Field(name: string, len: Option<nat>)

  /** A response: its name, its fields in order, and the field (if any) whose
      bytes are decoded as IO samples (`parse_as_io_samples`). */
  datatype Spec = Spec(name: string, structure: seq<Field>, ioSamples: Option<string>)

  /** The legacy fields as fields of the backend's walk, which reads fixed
      and variable fields exactly as the legacy loop does. */
  function Convert(structure: seq<Field>): (r: seq<ResponseField>)
    ensures |r| == |structure|
    ensures forall i :: 0 <= i < |structure| ==>
              r[i].name == structure[i].name && r[i].len == if structure[i].len.Some? then Fixed(structure[i].len.value) else Variable
  {
    seq(|structure|, i requires 0 <= i < |structure| =>
          ResponseField(structure[i].name, if structure[i].len.Some? then Fixed(structure[i].len.value) else Variable, None))
  }

  /** The final step of `_split_response`: the named field is replaced by
      its decoded samples; it is looked up without a presence check. */
  function ParseIoField(ioSamples: Option<string>, p: Packet): Result<Packet>
  {
    match ioSamples
    case None => Ok(p)
    case Some(key) =>
      var raw :- AtHooks.LookupBytes(p, key);
      var samples :- Samples(raw);
      Ok(Packet(p.id, p.fields[key := Value.Samples(samples)]))
  }

  /** `_split_response` of xbee/base.py, specified. An empty payload has no
      id byte; an unknown id is a KeyError whatever the byte is. */
  function Split(responses: map<byte, Spec>, data: seq<byte>): Result<Packet>
  {
    if |data| == 0 then Err(EmptyPayload)
    else if data[0] !in responses then Err(UnknownResponse(data[0]))
    else
      var spec := responses[data[0]];
      var c :- Marshal.Walk(Convert(spec.structure), data, 1, map[]);
      if c.index < |data| then Err(LongerThanExpected)
      else ParseIoField(spec.ioSamples, Packet(spec.name, c.fields))
  }

  /** `_split_response`: the loop over the fields, then the IO-sample step. */
  method SplitResponse(responses: map<byte, Spec>, data: seq<byte>) returns (r: Result<Packet>)
    ensures r == Split(responses, data)
  {
    if |data| == 0 {
      return Err(EmptyPayload);
    }
    if data[0] !in responses {
      return Err(UnknownResponse(data[0]));
    }
    var spec := responses[data[0]];
    var structure := spec.structure;
    ghost var walked := Convert(structure);
    var index: nat := 1;
    var info: map<string, Value> := map[];
    var i := 0;
    while i < |structure|
      invariant 0 <= i <= |structure| && 1 <= index <= |data|
      invariant Marshal.Walk(walked, data, 1, map[]) == Marshal.Walk(walked[i..], data, index, info)
    {
      var f := structure[i];
      assert walked[i..][0] == walked[i] && walked[i..][1..] == walked[i + 1..];
      if f.len.Some? {
        if index + f.len.value > |data| {
          return Err(ShorterThanExpected);
        }
        info := info[f.name := Raw(data[index..index + f.len.value])];
        index := index + f.len.value;
      } else {
        var fieldData := data[index..];
        if |fieldData| > 0 {
          info := info[f.name := Raw(fieldData)];
          index := index + |fieldData|;
        }
        break;
      }
      i := i + 1;
    }
    assert Marshal.Walk(walked, data, 1, map[]) == Ok(Marshal.Cursor(index, info)) by {
      if i == |structure| {
        assert walked[i..] == [];
      }
    }
    if index < |data| {
      return Err(LongerThanExpected);
    }
    var p := Packet(spec.name, info);
    match spec.ioSamples {
      case None =>
        r := Ok(p);
      case Some(key) =>
        var raw := AtHooks.LookupBytes(p, key);
        if raw.Err? {
          return Err(raw.error);
        }
        var samples := ParseSamples(raw.value);
        if samples.Err? {
          return Err(samples.error);
        }
        r := Ok(Packet(p.id, p.fields[key := Value.Samples(samples.value)]));
    }
  }

  /** The same responses as tables of the backend engine, with no parsing
      rules and no commands to compare an unknown id against. */
  function Backend(responses: map<byte, Spec>): (v: Variant)
    ensures v.responses.Keys == responses.Keys && v.commands == []
  {
    Variant([], map b | b in responses :: ResponseSpec(responses[b].name, Convert(responses[b].structure), []), Series1)
  }

  /** Where no field is decoded as samples, the legacy split is the backend's
      split of the same tables: the backend only adds the echoed-command
      check, parsing rules and null-terminated fields. */
  lemma SplitAgreesWithBackend(responses: map<byte, Spec>, data: seq<byte>)
    requires |data| == 0 || data[0] !in responses || responses[data[0]].ioSamples.None?
    ensures Split(responses, data) == Marshal.Split(Backend(responses), data)
  {
    var v := Backend(responses);
    if |data| > 0 && data[0] !in responses {
      assert Marshal.EchoedCommand(v.commands, data[0]) == None;
    }
  }

  /** The IO-sample step: without a field to decode the packet is kept; a
      missing field is a KeyError; otherwise only that field changes, to
      the decoded samples of its bytes. */
  lemma ParseIoFieldMeaning(ioSamples: Option<string>, p: Packet)
    requires forall k :: k in p.fields ==> p.fields[k].Raw?
    ensures ioSamples.None? ==> ParseIoField(ioSamples, p) == Ok(p)
    ensures ioSamples.Some? && ioSamples.value !in p.fields ==> ParseIoField(ioSamples, p) == Err(MissingKey(ioSamples.value))
    ensures ioSamples.Some? && ioSamples.value in p.fields ==>
              var key := ioSamples.value;
              match Samples(p.fields[key].bytes)
              case Ok(s) => ParseIoField(ioSamples, p) == Ok(Packet(p.id, p.fields[key := Value.Samples(s)]))
              case Err(e) => ParseIoField(ioSamples, p) == Err(e)
  {
  }

  /** Splitting the encoding of values that fit a response gives back those
      values, each under its field's name (a trailing empty one left out),
      before the IO-sample step. */
  lemma SplitRoundTrip(responses: map<byte, Spec>, id: byte, values: seq<seq<byte>>)
    requires id in responses
    requires Marshal.Fits(Convert(responses[id].structure), values) && VariableLast(Convert(responses[id].structure))
    ensures Split(responses, [id] + Marshal.Encode(Convert(responses[id].structure), values))
            == ParseIoField(responses[id].ioSamples,
                            Packet(responses[id].name, Marshal.Fields(Convert(responses[id].structure), values, map[])))
  {
    var st := Convert(responses[id].structure);
    Marshal.WalkEncode(st, values, [id], map[]);
  }

  /** Splitting a payload of a response of three fixed fields and a trailing
      one: those values (the trailing one only when not empty), then the
      IO-sample step. */
  lemma SplitFour(responses: map<byte, Spec>, id: byte, values: seq<seq<byte>>)
    requires id in responses && Marshal.FourShape(Convert(responses[id].structure)) && |values| == 4
    requires var st := Convert(responses[id].structure);
             |values[0]| == st[0].len.n && |values[1]| == st[1].len.n && |values[2]| == st[2].len.n
    ensures Split(responses, [id] + values[0] + values[1] + values[2] + values[3])
            == ParseIoField(responses[id].ioSamples,
                            Packet(responses[id].name, Marshal.FourMap(Convert(responses[id].structure), values)))
  {
    var st := Convert(responses[id].structure);
    assert Marshal.Fits(st, values) by {
      forall i | 0 <= i < 4
        ensures Marshal.FitsField(st[i].len, values[i])
      {
      }
    }
    SplitRoundTrip(responses, id, values);
    Marshal.FourEncode(st, values);
    Marshal.FourFieldsMap(st, values);
    assert [id] + (values[0] + values[1] + values[2] + values[3]) == [id] + values[0] + values[1] + values[2] + values[3];
  }

  /** A successful split reads the whole payload: it is the id byte followed
      by the encoding of values that fit the response, and the packet holds
      those values (decoded as samples in the named field). */
  lemma SplitComplete(responses: map<byte, Spec>, data: seq<byte>)
    requires Split(responses, data).Ok?
    requires VariableLast(Convert(responses[data[0]].structure))
    ensures var spec := responses[data[0]];
            exists values :: Marshal.Fits(Convert(spec.structure), values)
                             && data == [data[0]] + Marshal.Encode(Convert(spec.structure), values)
                             && Split(responses, data) == ParseIoField(spec.ioSamples, Packet(spec.name, Marshal.Fields(Convert(spec.structure), values, map[])))
  {
    var spec := responses[data[0]];
    var st := Convert(spec.structure);
    Marshal.WalkIndex(st, data, 1, map[]);
    Marshal.WalkDecodes(st, data, 1, map[]);
    var values :| Marshal.Fits(st, values) && data[1..] == Marshal.Encode(st, values)
                  && Marshal.Walk(st, data, 1, map[]).value.fields == Marshal.Fields(st, values, map[]);
    assert data == [data[0]] + data[1..];
  }

  /** A response whose samples field is missing (an empty trailing field is
      not stored) fails with a KeyError on that field. */
  lemma SplitMissingSamples(responses: map<byte, Spec>, data: seq<byte>)
    requires |data| > 0 && data[0] in responses && responses[data[0]].ioSamples.Some?
    requires Marshal.Walk(Convert(responses[data[0]].structure), data, 1, map[]).Ok?
    requires var c := Marshal.Walk(Convert(responses[data[0]].structure), data, 1, map[]).value;
             c.index == |data| && responses[data[0]].ioSamples.value !in c.fields
    ensures Split(responses, data) == Err(MissingKey(responses[data[0]].ioSamples.value))
  {
  }
}
