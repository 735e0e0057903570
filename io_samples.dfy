/** IO sample decoding of the backend engine (xbee/backend/base.py) and its
    ZigBee override (xbee/zigbee.py). An IO payload is a header (sample count,
    digital channel mask, analog channel mask) followed by `count` samples;
    each sample holds two bytes of digital line states if any digital channel
    is enabled, then two bytes per enabled analog channel. */
module IoSamples {
  import opened Bytes
  import opened Results
  import opened Packets

  /** What `_parse_samples_header` returns: the sample count, the enabled
      digital and analog channels, the digital mask and the header size. */
  datatype Header = Header(count: nat, dio: seq<nat>, aio: seq<nat>, dioMask: bv16, size: nat)

  predicate Ascending(s: seq<nat>)
  {
    forall i, j :: 0 <= i < j < |s| ==> s[i] < s[j]
  }

  /** The channels k < n whose bit is set in mask, in increasing order. */
  function Channels(mask: bv16, n: nat): (r: seq<nat>)
    ensures |r| <= n && forall c :: c in r ==> c < n
  {
    if n == 0 then [] else Channels(mask, n - 1) + (if Bit(mask, n - 1) then [n - 1] else [])
  }

  /** A channel is listed exactly when its bit is set, and the list is sorted,
      which is why the source's `sort()` calls change nothing. */
  lemma {:induction false} ChannelsMeaning(mask: bv16, n: nat)
    ensures forall c: nat :: c in Channels(mask, n) <==> c < n && Bit(mask, c)
    ensures Ascending(Channels(mask, n))
  {
    if n > 0 {
      ChannelsMeaning(mask, n - 1);
      var prev := Channels(mask, n - 1);
      var last: seq<nat> := if Bit(mask, n - 1) then [n - 1] else [];
      assert Channels(mask, n) == prev + last;
      forall c: nat
        ensures c in Channels(mask, n) <==> c < n && Bit(mask, c)
      {
        assert c in prev + last <==> c in prev || c in last;
      }
      forall i, j | 0 <= i < j < |prev + last|
        ensures (prev + last)[i] < (prev + last)[j]
      {
        if j >= |prev| {
          assert (prev + last)[i] in prev;
        }
      }
    }
  }

  function HeaderSize(layout: Layout): nat
  {
    match layout
    case Series1 => 3
    case ZigBee => 4
  }

  /** Series 1: the digital mask is the low 9 bits of bytes 1 and 2. */
  function Series1DioMask(hi: byte, lo: byte): bv16
  {
    Word(hi, lo) & 0x01FF
  }

  /** Series 1: the analog mask is the upper 7 bits of byte 1. */
  function Series1AioMask(hi: byte): bv16
  {
    ((hi as bv16) & 0xFE) >> 1
  }

  /** ZigBee: bits 7, 8 and 12..15 of the digital mask are unused. */
  function ZigBeeDioMask(hi: byte, lo: byte): bv16
  {
    Word(hi, lo) & 0x0E7F
  }

  /** The Series 1 header: count, then a 16-bit word whose low 9 bits are the
      digital mask and whose bits 9..15 are the analog mask. */
  function Series1Header(io: seq<byte>): (r: Result<Header>)
    ensures r.Ok? <==> |io| >= 3
    ensures r.Ok? ==> r.value.size == 3
  {
    if |io| < 3 then Err(TruncatedIoSample)
    else
      var dioMask := Series1DioMask(io[1], io[2]);
      var aioMask := Series1AioMask(io[1]);
      Ok(Header(io[0], Channels(dioMask, 9), Channels(aioMask, 7), dioMask, 3))
  }

  /** The ZigBee header: count, a 16-bit digital mask of which bits 7, 8 and
      12..15 are unused, and a one-byte analog mask. */
  function ZigBeeHeader(io: seq<byte>): (r: Result<Header>)
    ensures r.Ok? <==> |io| >= 4
    ensures r.Ok? ==> r.value.size == 4
  {
    if |io| < 4 then Err(TruncatedIoSample)
    else
      var dioMask := ZigBeeDioMask(io[1], io[2]);
      var aioMask := io[3] as bv16;
      Ok(Header(io[0], Channels(dioMask, 13), Channels(aioMask, 8), dioMask, 4))
  }

  function HeaderOf(layout: Layout, io: seq<byte>): (r: Result<Header>)
    ensures r.Ok? <==> |io| >= HeaderSize(layout)
    ensures r.Ok? ==> r.value.size == HeaderSize(layout)
  {
    match layout
    case Series1 => Series1Header(io)
    case ZigBee => ZigBeeHeader(io)
  }

  /** One channel loop of `_parse_samples_header`: the channels below n
      whose mask bit is set. */
  method ChannelLoop(mask: bv16, n: nat) returns (chans: seq<nat>)
    requires n <= 16
    ensures chans == Channels(mask, n)
  {
    chans := [];
    for i := 0 to n
      invariant chans == Channels(mask, i)
    {
      if mask & (1 << i) != 0 {
        chans := chans + [i];
      }
    }
  }

  /** `_parse_samples_header` of the backend engine. */
  method Series1SamplesHeader(io: seq<byte>) returns (r: Result<Header>)
    ensures r == Series1Header(io)
  {
    if |io| < 3 {
      return Err(TruncatedIoSample);
    }
    var count := io[0];
    var dioMask := Word(io[1], io[2]) & 0x01FF;
    var aioMask := ((io[1] as bv16) & 0xFE) >> 1;
    var dio := ChannelLoop(dioMask, 9);
    var aio := ChannelLoop(aioMask, 7);
    r := Ok(Header(count, dio, aio, dioMask, 3));
  }

  /** `_parse_samples_header` as the ZigBee class overrides it. */
  method ZigBeeSamplesHeader(io: seq<byte>) returns (r: Result<Header>)
    ensures r == ZigBeeHeader(io)
  {
    if |io| < 4 {
      return Err(TruncatedIoSample);
    }
    var count := io[0];
    var dioMask := Word(io[1], io[2]) & 0x0E7F;
    var aioMask := io[3] as bv16;
    var dio := ChannelLoop(dioMask, 13);
    var aio := ChannelLoop(aioMask, 8);
    r := Ok(Header(count, dio, aio, dioMask, 4));
  }

  lemma MaskLow9(w: bv16, c: nat)
    requires c < 9
    ensures Bit(w & 0x01FF, c) <==> Bit(w, c)
  {
    var b: bv16 := 1 << c;
    assert b & 0x01FF == b by {
      assert c == 0 || c == 1 || c == 2 || c == 3 || c == 4 || c == 5 || c == 6 || c == 7 || c == 8;
    }
    assert (w & 0x01FF) & b == w & (b & 0x01FF);
  }

  lemma AnalogBitsSeries1(hi: byte, c: nat)
    requires c < 7
    ensures Bit(Series1AioMask(hi), c) <==> Bit(hi as bv16, c + 1)
  {
    var x := hi as bv16;
    assert c == 0 || c == 1 || c == 2 || c == 3 || c == 4 || c == 5 || c == 6;
    assert ((x & 0xFE) >> 1) & (1 << c) == ((x & (1 << (c + 1))) >> 1);
  }

  lemma MaskZigBee(w: bv16, c: nat)
    requires c < 13
    ensures Bit(w & 0x0E7F, c) <==> (c <= 6 || 9 <= c <= 11) && Bit(w, c)
  {
    assert c == 0 || c == 1 || c == 2 || c == 3 || c == 4 || c == 5 || c == 6 || c == 7
        || c == 8 || c == 9 || c == 10 || c == 11 || c == 12;
    var b: bv16 := 1 << c;
    assert (w & 0x0E7F) & b == w & (b & 0x0E7F);
  }

  /** The Series 1 header as the API describes it: the first byte counts the
      samples, digital line c (0..8) is enabled by bit c of the 16-bit word
      formed by bytes 1 and 2, analog line c (0..6) by bit c + 1 of byte 1. */
  lemma Series1HeaderMeaning(io: seq<byte>)
    requires |io| >= 3
    ensures var h := Series1Header(io).value;
            && h.count == io[0] && h.size == 3
            && Ascending(h.dio) && Ascending(h.aio)
            && (forall c: nat :: c in h.dio <==> c < 9 && Bit(Word(io[1], io[2]), c))
            && (forall c: nat :: c in h.aio <==> c < 7 && Bit(io[1] as bv16, c + 1))
  {
    var h := Series1Header(io).value;
    ChannelsMeaning(h.dioMask, 9);
    ChannelsMeaning(Series1AioMask(io[1]), 7);
    forall c: nat | c < 9 {
      MaskLow9(Word(io[1], io[2]), c);
    }
    forall c: nat | c < 7
      ensures Bit(Series1AioMask(io[1]), c) <==> Bit(io[1] as bv16, c + 1)
    {
      AnalogBitsSeries1(io[1], c);
    }
  }

  /** The ZigBee header: digital lines 0..6 and 9..11 can be enabled (bits 7,
      8 and 12 of the mask are dropped), analog line c by bit c of byte 3. */
  lemma ZigBeeHeaderMeaning(io: seq<byte>)
    requires |io| >= 4
    ensures var h := ZigBeeHeader(io).value;
            && h.count == io[0] && h.size == 4
            && Ascending(h.dio) && Ascending(h.aio)
            && (forall c: nat :: c in h.dio <==> (c <= 6 || 9 <= c <= 11) && Bit(Word(io[1], io[2]), c))
            && (forall c: nat :: c in h.aio <==> c < 8 && Bit(io[3] as bv16, c))
  {
    var h := ZigBeeHeader(io).value;
    ChannelsMeaning(h.dioMask, 13);
    ChannelsMeaning(io[3] as bv16, 8);
    forall c: nat | c < 13 {
      MaskZigBee(Word(io[1], io[2]), c);
    }
  }

  /** The state of each digital channel, one map update per channel. */
  function ReadDigital(chans: seq<nat>, values: bv16, acc: map<nat, bool>): map<nat, bool>
  {
    if |chans| == 0 then acc
    else ReadDigital(chans[1..], values, acc[chans[0] := Bit(values, chans[0])])
  }

  /** Pops two bytes per analog channel, most significant first. */
  function ReadAnalog(chans: seq<nat>, bytes: seq<byte>, acc: map<nat, int>): Result<(map<nat, int>, seq<byte>)>
  {
    if |chans| == 0 then Ok((acc, bytes))
    else if |bytes| < 2 then Err(TruncatedIoSample)
    else ReadAnalog(chans[1..], bytes[2..], acc[chans[0] := BigEndian(bytes[0], bytes[1])])
  }

  /** Two bytes of digital states come first when any digital channel is on. */
  function DigitalSize(h: Header): nat
  {
    if |h.dio| > 0 then 2 else 0
  }

  /** The digital lines of a sample, from the word masked by the header's mask. */
  function DigitalPart(h: Header, bytes: seq<byte>): map<nat, bool>
    requires |bytes| >= DigitalSize(h)
  {
    if |h.dio| > 0 then ReadDigital(h.dio, h.dioMask & Word(bytes[0], bytes[1]), map[]) else map[]
  }

  /** One sample: the digital word if a digital channel is enabled, then the
      analog values; returns the bytes after it. */
  function ReadSample(h: Header, bytes: seq<byte>): Result<(Sample, seq<byte>)>
  {
    if |bytes| < DigitalSize(h) then Err(TruncatedIoSample)
    else
      match ReadAnalog(h.aio, bytes[DigitalSize(h)..], map[])
      case Err(e) => Err(e)
      case Ok(analog) => Ok((Sample(DigitalPart(h, bytes), analog.0), analog.1))
  }

  /** Pops n items with `read` after those already in acc, stopping at the
      first error; trailing bytes are ignored. */
  function ReadMany<T>(read: seq<byte> -> Result<(T, seq<byte>)>, bytes: seq<byte>, n: nat, acc: seq<T>): Result<seq<T>>
    decreases n
  {
    if n == 0 then Ok(acc)
    else
      var one :- read(bytes);
      ReadMany(read, one.1, n - 1, acc + [one.0])
  }

  /** Reads n samples after those already in acc. */
  function ReadSamples(h: Header, bytes: seq<byte>, n: nat, acc: seq<Sample>): Result<seq<Sample>>
  {
    ReadMany(b => ReadSample(h, b), bytes, n, acc)
  }

  /** `_parse_samples`, specified. */
  function Samples(layout: Layout, io: seq<byte>): Result<seq<Sample>>
  {
    var h :- HeaderOf(layout, io);
    ReadSamples(h, io[h.size..], h.count, [])
  }

  /** The inner loop of `_parse_samples` over the digital channels. */
  method DigitalLines(chans: seq<nat>, values: bv16) returns (dio: map<nat, bool>)
    ensures dio == ReadDigital(chans, values, map[])
  {
    dio := map[];
    for j := 0 to |chans|
      invariant ReadDigital(chans, values, map[]) == ReadDigital(chans[j..], values, dio)
    {
      assert chans[j..][1..] == chans[j + 1..];
      dio := dio[chans[j] := Bit(values, chans[j])];
    }
    assert chans[|chans|..] == [];
  }

  /** The inner loop of `_parse_samples` over the analog channels, popping two
      bytes per channel. */
  method AnalogValues(chans: seq<nat>, bytes: seq<byte>) returns (r: Result<(map<nat, int>, seq<byte>)>)
    ensures r == ReadAnalog(chans, bytes, map[])
  {
    var adc: map<nat, int> := map[];
    var rest := bytes;
    for j := 0 to |chans|
      invariant ReadAnalog(chans, bytes, map[]) == ReadAnalog(chans[j..], rest, adc)
    {
      assert chans[j..][1..] == chans[j + 1..];
      if |rest| < 2 {
        return Err(TruncatedIoSample);
      }
      adc := adc[chans[j] := BigEndian(rest[0], rest[1])];
      rest := rest[2..];
    }
    assert chans[|chans|..] == [];
    r := Ok((adc, rest));
  }

  /** The body of the sample loop of `_parse_samples`: pops one sample. */
  method PopSample(h: Header, bytes: seq<byte>) returns (r: Result<(Sample, seq<byte>)>)
    ensures r == ReadSample(h, bytes)
  {
    var sampleBytes := bytes;
    var dio: map<nat, bool> := map[];
    if |h.dio| > 0 {
      if |sampleBytes| < 2 {
        return Err(TruncatedIoSample);
      }
      dio := DigitalLines(h.dio, h.dioMask & Word(sampleBytes[0], sampleBytes[1]));
      sampleBytes := sampleBytes[2..];
    }
    assert dio == DigitalPart(h, bytes);
    assert sampleBytes == bytes[DigitalSize(h)..];
    var analog := AnalogValues(h.aio, sampleBytes);
    if analog.Err? {
      return Err(analog.error);
    }
    r := Ok((Sample(dio, analog.value.0), analog.value.1));
  }

  /** `_parse_samples`: reads the header, then pops `count` samples. */
  method ParseSamples(layout: Layout, io: seq<byte>) returns (r: Result<seq<Sample>>)
    ensures r == Samples(layout, io)
  {
    var hr: Result<Header>;
    if layout.Series1? {
      hr := Series1SamplesHeader(io);
    } else {
      hr := ZigBeeSamplesHeader(io);
    }
    if hr.Err? {
      return Err(hr.error);
    }
    var h := hr.value;
    var sampleBytes := io[h.size..];
    var samples: seq<Sample> := [];
    for k := 0 to h.count
      invariant Samples(layout, io) == ReadSamples(h, sampleBytes, h.count - k, samples)
    {
      var one := PopSample(h, sampleBytes);
      if one.Err? {
        return Err(one.error);
      }
      samples := samples + [one.value.0];
      sampleBytes := one.value.1;
    }
    r := Ok(samples);
  }

  /** The bytes one sample occupies. */
  function SampleSize(h: Header): nat
  {
    DigitalSize(h) + 2 * |h.aio|
  }

  lemma {:induction false} ReadAnalogLength(chans: seq<nat>, bytes: seq<byte>, acc: map<nat, int>)
    ensures ReadAnalog(chans, bytes, acc).Ok? <==> |bytes| >= 2 * |chans|
    ensures ReadAnalog(chans, bytes, acc).Ok? ==> ReadAnalog(chans, bytes, acc).value.1 == bytes[2 * |chans|..]
  {
    if |chans| > 0 && |bytes| >= 2 {
      ReadAnalogLength(chans[1..], bytes[2..], acc[chans[0] := BigEndian(bytes[0], bytes[1])]);
      if |bytes| >= 2 * |chans| {
        assert bytes[2..][2 * |chans[1..]|..] == bytes[2 * |chans|..];
      }
    }
  }

  /** The analog keys are the given ones and the channels; a given entry of
      no channel is kept. */
  lemma {:induction false} ReadAnalogKeys(chans: seq<nat>, bytes: seq<byte>, acc: map<nat, int>)
    requires ReadAnalog(chans, bytes, acc).Ok?
    ensures var m := ReadAnalog(chans, bytes, acc).value.0;
            && (forall c: nat :: c in m <==> c in acc || c in chans)
            && (forall c :: c in acc && c !in chans ==> m[c] == acc[c])
  {
    if |chans| > 0 {
      var tail := chans[1..];
      ReadAnalogKeys(tail, bytes[2..], acc[chans[0] := BigEndian(bytes[0], bytes[1])]);
      assert forall c :: c in chans <==> c == chans[0] || c in tail by {
        assert chans == [chans[0]] + tail;
      }
    }
  }

  /** With ascending channels, chans[k] holds the k-th two-byte value. */
  lemma {:induction false} ReadAnalogAt(chans: seq<nat>, bytes: seq<byte>, acc: map<nat, int>)
    requires Ascending(chans)
    requires ReadAnalog(chans, bytes, acc).Ok?
    ensures |bytes| >= 2 * |chans|
    ensures var m := ReadAnalog(chans, bytes, acc).value.0;
            forall k :: 0 <= k < |chans| ==> chans[k] in m && m[chans[k]] == BigEndian(bytes[2 * k], bytes[2 * k + 1])
  {
    ReadAnalogLength(chans, bytes, acc);
    if |chans| > 0 {
      var acc' := acc[chans[0] := BigEndian(bytes[0], bytes[1])];
      var tail := chans[1..];
      assert Ascending(tail);
      ReadAnalogAt(tail, bytes[2..], acc');
      ReadAnalogKeys(tail, bytes[2..], acc');
      assert chans[0] !in tail by {
        forall k | 0 <= k < |tail| ensures tail[k] != chans[0] {
          assert tail[k] == chans[k + 1];
        }
      }
      var m := ReadAnalog(chans, bytes, acc).value.0;
      assert m == ReadAnalog(tail, bytes[2..], acc').value.0;
      forall k | 0 <= k < |chans|
        ensures chans[k] in m && m[chans[k]] == BigEndian(bytes[2 * k], bytes[2 * k + 1])
      {
        if k > 0 {
          assert chans[k] == tail[k - 1];
          assert bytes[2..][2 * (k - 1)] == bytes[2 * k];
          assert bytes[2..][2 * (k - 1) + 1] == bytes[2 * k + 1];
        }
      }
    }
  }

  /** Analog channel chans[k] gets the k-th two-byte value; nothing else is touched. */
  lemma ReadAnalogValues(chans: seq<nat>, bytes: seq<byte>, acc: map<nat, int>)
    requires Ascending(chans)
    requires ReadAnalog(chans, bytes, acc).Ok?
    ensures var m := ReadAnalog(chans, bytes, acc).value.0;
            && |bytes| >= 2 * |chans|
            && (forall c: nat :: c in m <==> c in acc || c in chans)
            && (forall k :: 0 <= k < |chans| ==> m[chans[k]] == BigEndian(bytes[2 * k], bytes[2 * k + 1]))
            && (forall c :: c in acc && c !in chans ==> m[c] == acc[c])
  {
    ReadAnalogKeys(chans, bytes, acc);
    ReadAnalogAt(chans, bytes, acc);
  }

  /** Every enabled digital channel gets its bit of the digital word. */
  lemma {:induction false} ReadDigitalValues(chans: seq<nat>, values: bv16, acc: map<nat, bool>)
    ensures var m := ReadDigital(chans, values, acc);
            && (forall c: nat :: c in m <==> c in acc || c in chans)
            && (forall c :: c in chans ==> m[c] == Bit(values, c))
            && (forall c :: c in acc && c !in chans ==> m[c] == acc[c])
  {
    if |chans| > 0 {
      var tail := chans[1..];
      ReadDigitalValues(tail, values, acc[chans[0] := Bit(values, chans[0])]);
      assert forall c :: c in chans <==> c == chans[0] || c in tail by {
        assert chans == [chans[0]] + tail;
      }
    }
  }

  /** A sample succeeds exactly when SampleSize(h) bytes are left, and then
      consumes exactly that many. */
  lemma ReadSampleLength(h: Header, bytes: seq<byte>)
    ensures ReadSample(h, bytes).Ok? <==> |bytes| >= SampleSize(h)
    ensures ReadSample(h, bytes).Ok? ==> ReadSample(h, bytes).value.1 == bytes[SampleSize(h)..]
  {
    var d := DigitalSize(h);
    if |bytes| >= d {
      ReadAnalogLength(h.aio, bytes[d..], map[]);
      if |bytes| >= SampleSize(h) {
        assert bytes[d..][2 * |h.aio|..] == bytes[SampleSize(h)..];
      }
    }
  }

  /** The digital keys of a sample are the enabled digital channels, each set
      to its bit of the masked digital word. */
  lemma ReadSampleDigital(h: Header, bytes: seq<byte>)
    requires ReadSample(h, bytes).Ok?
    ensures |bytes| >= SampleSize(h)
    ensures var s := ReadSample(h, bytes).value.0;
            && (forall c: nat :: c in s.dio <==> c in h.dio)
            && (forall c :: c in h.dio ==> s.dio[c] == Bit(h.dioMask & Word(bytes[0], bytes[1]), c))
  {
    ReadSampleLength(h, bytes);
    assert ReadSample(h, bytes).value.0.dio == DigitalPart(h, bytes);
    if |h.dio| > 0 {
      ReadDigitalValues(h.dio, h.dioMask & Word(bytes[0], bytes[1]), map[]);
    }
  }

  /** The analog keys of a sample are the enabled analog channels; channel
      h.aio[k] holds the k-th two-byte value after the digital word. */
  lemma ReadSampleAnalog(h: Header, bytes: seq<byte>)
    requires Ascending(h.aio)
    requires ReadSample(h, bytes).Ok?
    ensures |bytes| >= SampleSize(h)
    ensures var s := ReadSample(h, bytes).value.0;
            var d := DigitalSize(h);
            && (forall c: nat :: c in s.adc <==> c in h.aio)
            && (forall k :: 0 <= k < |h.aio| ==> s.adc[h.aio[k]] == BigEndian(bytes[d + 2 * k], bytes[d + 2 * k + 1]))
  {
    ReadSampleLength(h, bytes);
    var d := DigitalSize(h);
    var rest := bytes[d..];
    assert ReadSample(h, bytes).value.0.adc == ReadAnalog(h.aio, rest, map[]).value.0;
    ReadAnalogValues(h.aio, rest, map[]);
    forall k | 0 <= k < |h.aio|
      ensures rest[2 * k] == bytes[d + 2 * k] && rest[2 * k + 1] == bytes[d + 2 * k + 1]
    {
    }
  }

  /** j blocks of size bytes: j * size, counted without multiplication. */
  function Offset(j: nat, size: nat): nat
  {
    if j == 0 then 0 else size + Offset(j - 1, size)
  }

  lemma {:induction false} OffsetIsProduct(j: nat, size: nat)
    ensures Offset(j, size) == j * size
  {
    if j > 0 {
      OffsetIsProduct(j - 1, size);
    }
  }

  /** A reader that succeeds exactly when `size` bytes are left and then
      consumes exactly those. */
  ghost predicate FixedReader<T>(read: seq<byte> -> Result<(T, seq<byte>)>, size: nat)
  {
    forall b: seq<byte> :: (read(b).Ok? <==> |b| >= size) && (read(b).Ok? ==> read(b).value.1 == b[size..])
  }

  /** n reads succeed exactly when n * size bytes are present, and the
      result extends acc by exactly n items. */
  lemma {:induction false} ReadManyLength<T>(read: seq<byte> -> Result<(T, seq<byte>)>, size: nat,
                                             bytes: seq<byte>, n: nat, acc: seq<T>)
    requires FixedReader(read, size)
    ensures ReadMany(read, bytes, n, acc).Ok? <==> |bytes| >= Offset(n, size)
    ensures ReadMany(read, bytes, n, acc).Ok? ==>
              var r := ReadMany(read, bytes, n, acc).value;
              |r| == |acc| + n && r[..|acc|] == acc
    decreases n
  {
    if n > 0 && |bytes| >= size {
      var one := read(bytes).value;
      ReadManyLength(read, size, one.1, n - 1, acc + [one.0]);
      if ReadMany(read, bytes, n, acc).Ok? {
        var r := ReadMany(read, bytes, n, acc).value;
        assert r[..|acc|] == r[..|acc + [one.0]|][..|acc|];
      }
    }
  }

  /** Item j of a successful read is the item read j * size bytes in. */
  lemma {:induction false} ReadManyNth<T>(read: seq<byte> -> Result<(T, seq<byte>)>, size: nat,
                                          bytes: seq<byte>, n: nat, acc: seq<T>, j: nat)
    requires FixedReader(read, size)
    requires j < n && ReadMany(read, bytes, n, acc).Ok?
    ensures Offset(j, size) <= |bytes| && read(bytes[Offset(j, size)..]).Ok?
    ensures |acc| + j < |ReadMany(read, bytes, n, acc).value|
    ensures ReadMany(read, bytes, n, acc).value[|acc| + j] == read(bytes[Offset(j, size)..]).value.0
    decreases n
  {
    var one := read(bytes).value;
    var acc' := acc + [one.0];
    if j == 0 {
      ReadManyLength(read, size, one.1, n - 1, acc');
      var r := ReadMany(read, one.1, n - 1, acc').value;
      assert r[|acc|] == r[..|acc'|][|acc|];
      assert bytes[0..] == bytes;
    } else {
      ReadManyNth(read, size, one.1, n - 1, acc', j - 1);
      SliceSlice(bytes, size, Offset(j - 1, size));
    }
  }

  /** A successful read of n items holds exactly n, item j being the one
      read j * size bytes in. */
  lemma ReadManyAll<T>(read: seq<byte> -> Result<(T, seq<byte>)>, size: nat, bytes: seq<byte>, n: nat)
    requires FixedReader(read, size) && ReadMany(read, bytes, n, []).Ok?
    ensures var r := ReadMany(read, bytes, n, []).value;
            && |r| == n
            && forall j :: 0 <= j < n ==>
                 Offset(j, size) <= |bytes| && read(bytes[Offset(j, size)..]).Ok?
                 && r[j] == read(bytes[Offset(j, size)..]).value.0
  {
    ReadManyLength(read, size, bytes, n, []);
    forall j | 0 <= j < n
      ensures Offset(j, size) <= |bytes| && read(bytes[Offset(j, size)..]).Ok?
      ensures ReadMany(read, bytes, n, []).value[j] == read(bytes[Offset(j, size)..]).value.0
    {
      ReadManyNth(read, size, bytes, n, [], j);
    }
  }

  /** Reading a sample is a fixed-size reader. */
  lemma SampleReader(h: Header)
    ensures FixedReader(b => ReadSample(h, b), SampleSize(h))
  {
    forall b: seq<byte>
      ensures ReadSample(h, b).Ok? <==> |b| >= SampleSize(h)
      ensures ReadSample(h, b).Ok? ==> ReadSample(h, b).value.1 == b[SampleSize(h)..]
    {
      ReadSampleLength(h, b);
    }
  }

  /** n samples succeed exactly when n * SampleSize(h) bytes are present, and
      the result extends acc by exactly n samples. */
  lemma ReadSamplesLength(h: Header, bytes: seq<byte>, n: nat, acc: seq<Sample>)
    ensures ReadSamples(h, bytes, n, acc).Ok? <==> |bytes| >= Offset(n, SampleSize(h))
    ensures ReadSamples(h, bytes, n, acc).Ok? ==>
              var r := ReadSamples(h, bytes, n, acc).value;
              |r| == |acc| + n && r[..|acc|] == acc
  {
    SampleReader(h);
    ReadManyLength(b => ReadSample(h, b), SampleSize(h), bytes, n, acc);
  }

  /** Sample j of a successful read is the sample that starts
      j * SampleSize(h) bytes in. */
  lemma ReadSamplesNth(h: Header, bytes: seq<byte>, n: nat, acc: seq<Sample>, j: nat)
    requires j < n && ReadSamples(h, bytes, n, acc).Ok?
    ensures Offset(j, SampleSize(h)) <= |bytes|
    ensures ReadSample(h, bytes[Offset(j, SampleSize(h))..]).Ok?
    ensures |acc| + j < |ReadSamples(h, bytes, n, acc).value|
    ensures ReadSamples(h, bytes, n, acc).value[|acc| + j] == ReadSample(h, bytes[Offset(j, SampleSize(h))..]).value.0
  {
    SampleReader(h);
    ReadManyNth(b => ReadSample(h, b), SampleSize(h), bytes, n, acc, j);
  }

  /** `_parse_samples` succeeds exactly when the payload holds the header
      and count * SampleSize bytes after it (Offset is that product, see
      OffsetIsProduct). */
  lemma SamplesOk(layout: Layout, io: seq<byte>)
    ensures Samples(layout, io).Ok? <==>
              |io| >= HeaderSize(layout)
              && |io| - HeaderSize(layout) >= Offset(HeaderOf(layout, io).value.count, SampleSize(HeaderOf(layout, io).value))
  {
    if |io| >= HeaderSize(layout) {
      var h := HeaderOf(layout, io).value;
      ReadSamplesLength(h, io[h.size..], h.count, []);
    }
  }

  /** A successful `_parse_samples` returns exactly `count` samples, sample j
      being the one read j * SampleSize bytes after the header. */
  lemma SamplesAt(layout: Layout, io: seq<byte>)
    requires Samples(layout, io).Ok?
    ensures var h := HeaderOf(layout, io).value;
            var body := io[h.size..];
            var r := Samples(layout, io).value;
            && |r| == h.count
            && forall j :: 0 <= j < h.count ==>
                 Offset(j, SampleSize(h)) <= |body|
                 && ReadSample(h, body[Offset(j, SampleSize(h))..]).Ok?
                 && r[j] == ReadSample(h, body[Offset(j, SampleSize(h))..]).value.0
  {
    var h := HeaderOf(layout, io).value;
    assert Samples(layout, io) == ReadMany(b => ReadSample(h, b), io[h.size..], h.count, []);
    SampleReader(h);
    ReadManyAll(b => ReadSample(h, b), SampleSize(h), io[h.size..], h.count);
  }

  /** `_parse_samples` returns exactly `count` samples when the payload holds
      the header and count * SampleSize bytes, and fails otherwise; sample j
      is the one read j * SampleSize bytes after the header. */
  lemma SamplesMeaning(layout: Layout, io: seq<byte>)
    ensures Samples(layout, io).Ok? <==>
              |io| >= HeaderSize(layout)
              && |io| - HeaderSize(layout) >= Offset(HeaderOf(layout, io).value.count, SampleSize(HeaderOf(layout, io).value))
    ensures Samples(layout, io).Ok? ==>
              var h := HeaderOf(layout, io).value;
              var body := io[h.size..];
              var r := Samples(layout, io).value;
              && |r| == h.count
              && forall j :: 0 <= j < h.count ==>
                   Offset(j, SampleSize(h)) <= |body|
                   && ReadSample(h, body[Offset(j, SampleSize(h))..]).Ok?
                   && r[j] == ReadSample(h, body[Offset(j, SampleSize(h))..]).value.0
  {
    SamplesOk(layout, io);
    if Samples(layout, io).Ok? {
      SamplesAt(layout, io);
    }
  }

  /** One step of reading the digital lines. */
  lemma ReadDigitalCons(c: nat, rest: seq<nat>, values: bv16, acc: map<nat, bool>)
    ensures ReadDigital([c] + rest, values, acc) == ReadDigital(rest, values, acc[c := Bit(values, c)])
  {
    assert ([c] + rest)[1..] == rest;
  }

  lemma AllHighDigital()
    ensures ReadDigital([0, 1, 2, 3, 4, 5, 6, 7, 8], 0x01FF, map[])
            == map[0 := true, 1 := true, 2 := true, 3 := true, 4 := true,
                   5 := true, 6 := true, 7 := true, 8 := true]
  {
    assert Bit(0x01FF, 0) && Bit(0x01FF, 1) && Bit(0x01FF, 2) && Bit(0x01FF, 3) && Bit(0x01FF, 4)
           && Bit(0x01FF, 5) && Bit(0x01FF, 6) && Bit(0x01FF, 7) && Bit(0x01FF, 8);
    assert [0, 1, 2, 3, 4, 5, 6, 7, 8] == [0] + [1, 2, 3, 4, 5, 6, 7, 8];
    ReadDigitalCons(0, [1, 2, 3, 4, 5, 6, 7, 8], 0x01FF, map[]);
    ReadDigitalCons(1, [2, 3, 4, 5, 6, 7, 8], 0x01FF, map[0 := true]);
    ReadDigitalCons(2, [3, 4, 5, 6, 7, 8], 0x01FF, map[0 := true, 1 := true]);
    ReadDigitalCons(3, [4, 5, 6, 7, 8], 0x01FF, map[0 := true, 1 := true, 2 := true]);
    ReadDigitalCons(4, [5, 6, 7, 8], 0x01FF, map[0 := true, 1 := true, 2 := true, 3 := true]);
    ReadDigitalCons(5, [6, 7, 8], 0x01FF, map[0 := true, 1 := true, 2 := true, 3 := true, 4 := true]);
    ReadDigitalCons(6, [7, 8], 0x01FF, map[0 := true, 1 := true, 2 := true, 3 := true, 4 := true, 5 := true]);
    ReadDigitalCons(7, [8], 0x01FF, map[0 := true, 1 := true, 2 := true, 3 := true, 4 := true, 5 := true, 6 := true]);
    ReadDigitalCons(8, [], 0x01FF, map[0 := true, 1 := true, 2 := true, 3 := true, 4 := true, 5 := true, 6 := true, 7 := true]);
  }

  lemma OddDigital()
    ensures ReadDigital([1, 3, 5, 7], 0x00AA, map[]) == map[1 := true, 3 := true, 5 := true, 7 := true]
  {
    assert Bit(0x00AA, 1) && Bit(0x00AA, 3) && Bit(0x00AA, 5) && Bit(0x00AA, 7);
    assert [1, 3, 5, 7] == [1] + [3, 5, 7];
    ReadDigitalCons(1, [3, 5, 7], 0x00AA, map[]);
    ReadDigitalCons(3, [5, 7], 0x00AA, map[1 := true]);
    ReadDigitalCons(5, [7], 0x00AA, map[1 := true, 3 := true]);
    ReadDigitalCons(7, [], 0x00AA, map[1 := true, 3 := true, 5 := true]);
  }

  /** A payload holding one sample after its header reads as that sample. */
  lemma OneSample(layout: Layout, io: seq<byte>, h: Header, sample: Sample)
    requires HeaderOf(layout, io) == Ok(h) && h.count == 1
    requires ReadSample(h, io[h.size..]) == Ok((sample, []))
    ensures Samples(layout, io) == Ok([sample])
  {
    var read := b => ReadSample(h, b);
    assert Samples(layout, io) == ReadMany(read, io[h.size..], 1, []);
    assert ReadMany(read, io[h.size..], 1, []) == ReadMany(read, [], 0, [] + [sample]);
    assert [] + [sample] == [sample];
  }

  /** The library's all-high example: header 01 01 FF (one sample, the nine
      digital lines, no analog line) and digital word 01 FF. */
  const AllHighPayload: seq<byte> := [0x01, 0x01, 0xFF, 0x01, 0xFF]

  /** What it decodes to: nine high digital lines and no analog value. */
  const AllHighSample: Sample := Sample(map[0 := true, 1 := true, 2 := true, 3 := true, 4 := true,
                                            5 := true, 6 := true, 7 := true, 8 := true], map[])

  lemma AllHighHeader()
    ensures HeaderOf(Series1, AllHighPayload) == Ok(Header(1, [0, 1, 2, 3, 4, 5, 6, 7, 8], [], 0x01FF, 3))
  {
    assert Series1DioMask(0x01, 0xFF) == 0x01FF;
    assert Series1AioMask(0x01) == 0;
    assert Channels(0x01FF, 9) == [0, 1, 2, 3, 4, 5, 6, 7, 8];
    assert Channels(0, 7) == [];
  }

  lemma SampleExampleAllHigh()
    ensures Samples(Series1, AllHighPayload) == Ok([AllHighSample])
  {
    var h := Header(1, [0, 1, 2, 3, 4, 5, 6, 7, 8], [], 0x01FF, 3);
    AllHighHeader();
    var body: seq<byte> := [0x01, 0xFF];
    assert AllHighPayload[3..] == body;
    assert 0x01FF & Word(0x01, 0xFF) == 0x01FF;
    AllHighDigital();
    assert DigitalPart(h, body) == AllHighSample.dio;
    assert body[2..] == [];
    assert ReadAnalog(h.aio, [], map[]) == Ok((map[], []));
    assert ReadSample(h, body) == Ok((AllHighSample, []));
    OneSample(Series1, AllHighPayload, h, AllHighSample);
  }

  /** The library's IO example: header 01 02 AA (one sample, digital lines 1,
      3, 5 and 7, analog line 0) and sample bytes 00 AA 00 FF. */
  const MixedPayload: seq<byte> := [0x01, 0x02, 0xAA, 0x00, 0xAA, 0x00, 0xFF]

  /** What it decodes to: the odd digital lines high and adc-0 = 255. */
  const MixedSample: Sample := Sample(map[1 := true, 3 := true, 5 := true, 7 := true], map[0 := 255])

  lemma MixedHeader()
    ensures HeaderOf(Series1, MixedPayload) == Ok(Header(1, [1, 3, 5, 7], [0], 0x00AA, 3))
  {
    assert Series1DioMask(0x02, 0xAA) == 0x00AA;
    assert Series1AioMask(0x02) == 1;
    assert Channels(0x00AA, 9) == [1, 3, 5, 7];
    assert Channels(1, 7) == [0];
  }

  lemma SampleExampleMixed()
    ensures Samples(Series1, MixedPayload) == Ok([MixedSample])
  {
    var h := Header(1, [1, 3, 5, 7], [0], 0x00AA, 3);
    MixedHeader();
    var body: seq<byte> := [0x00, 0xAA, 0x00, 0xFF];
    assert MixedPayload[3..] == body;
    assert 0x00AA & Word(0x00, 0xAA) == 0x00AA;
    OddDigital();
    assert DigitalPart(h, body) == MixedSample.dio;
    assert body[2..] == [0x00, 0xFF];
    assert [0x00, 0xFF][2..] == [];
    assert ReadAnalog(h.aio, [0x00, 0xFF], map[]) == Ok((map[0 := 255], []));
    assert ReadSample(h, body) == Ok((MixedSample, []));
    OneSample(Series1, MixedPayload, h, MixedSample);
  }
}
