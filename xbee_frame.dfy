/** The API frame envelope of xbee.py: a frame is the start byte 0x7E, the
    payload length as a signed big-endian 16-bit value, the payload, and a
    checksum byte that makes the low byte of (payload sum + checksum) 0xFF. */
module XBeeFrame {
  import opened Bytes
  import opened Results

  const StartByte: byte := 0x7E

  /** The checksum of a payload: 0xFF minus the low byte of its sum. */
  function ChecksumOf(data: seq<byte>): byte
  {
    0xFF - Sum(data) % 256
  }

  /** The acceptance test of `verify_checksum`. */
  predicate Verifies(data: seq<byte>, chk: byte)
  {
    (Sum(data) + chk) % 256 == 0xFF
  }

  /** `checksum`: sums the payload byte by byte. */
  method Checksum(data: seq<byte>) returns (chk: byte)
    ensures chk == ChecksumOf(data)
    ensures Verifies(data, chk)
  {
    var total: int := 0;
    for i := 0 to |data|
      invariant total == Sum(data[..i])
    {
      assert data[..i + 1][..i] == data[..i];
      total := total + data[i];
    }
    assert data[..|data|] == data;
    total := total % 256;
    chk := 0xFF - total;
    ChecksumVerifies(data);
  }

  /** `verify_checksum`: sums the payload and the checksum byte. */
  method VerifyChecksum(data: seq<byte>, chk: byte) returns (ok: bool)
    ensures ok <==> Verifies(data, chk)
    ensures ok <==> chk == ChecksumOf(data)
  {
    var total: int := 0;
    for i := 0 to |data|
      invariant total == Sum(data[..i])
    {
      assert data[..i + 1][..i] == data[..i];
      total := total + data[i];
    }
    assert data[..|data|] == data;
    total := total + chk;
    total := total % 256;
    ok := total == 0xFF;
    VerifiesIff(data, chk);
  }

  /** The checksum `checksum` computes is the one `verify_checksum` accepts. */
  lemma ChecksumVerifies(data: seq<byte>)
    ensures Verifies(data, ChecksumOf(data))
  {
  }

  /** A payload has exactly one valid checksum byte. */
  lemma VerifiesIff(data: seq<byte>, chk: byte)
    ensures Verifies(data, chk) <==> chk == ChecksumOf(data)
  {
    var s := Sum(data) % 256;
    assert (Sum(data) + chk) % 256 == (s + chk) % 256;
    if chk != 0xFF - s {
      assert 0 <= s + chk < 0xFF || 0xFF < s + chk < 511;
    }
  }

  /** Reordering the payload bytes does not change the checksum. */
  lemma ChecksumOrderFree(a: seq<byte>, b: seq<byte>)
    requires multiset(a) == multiset(b)
    ensures ChecksumOf(a) == ChecksumOf(b)
  {
    SumPermutation(a, b);
  }

  /** `len_bytes`: `struct.pack("> h", len(data))`, which fails above 32767. */
  function LenBytes(data: seq<byte>): (r: Result<seq<byte>>)
    ensures r.Ok? <==> |data| < 0x8000
    ensures r.Ok? ==> |r.value| == 2 && r.value[0] < 0x80 && BigEndian(r.value[0], r.value[1]) == |data|
    ensures r.Err? ==> r.error == LengthTooLarge
  {
    if |data| < 0x8000 then Ok([|data| / 256, |data| % 256]) else Err(LengthTooLarge)
  }

  /** `struct.unpack("> h", [hi, lo])`: two's complement, most significant first. */
  function Signed16(hi: byte, lo: byte): (n: int)
    ensures -0x8000 <= n < 0x8000
    ensures hi < 0x80 ==> n == BigEndian(hi, lo)
    ensures n % 0x10000 == BigEndian(hi, lo)
  {
    var u := BigEndian(hi, lo);
    if hi < 0x80 then u else u - 0x10000
  }

  /** `fill_frame`: start byte, length bytes, payload, checksum. */
  function FillFrame(data: seq<byte>): (r: Result<seq<byte>>)
    ensures r.Ok? <==> |data| < 0x8000
    ensures r.Ok? ==> |r.value| == |data| + 4 && r.value[0] == StartByte
    ensures r.Ok? ==> BigEndian(r.value[1], r.value[2]) == |data|
    ensures r.Ok? ==> r.value[3..|data| + 3] == data && Verifies(data, r.value[|data| + 3])
  {
    var len :- LenBytes(data);
    ChecksumVerifies(data);
    var frame := [StartByte] + len + data + [ChecksumOf(data)];
    assert frame[3..|data| + 3] == data;
    Ok(frame)
  }

  /** `empty_frame`: reads the length (signed), slices the payload as Python
      does, takes the last byte as checksum and rejects a frame that fails
      `verify_checksum`. */
  function EmptyFrame(frame: seq<byte>): (r: Result<seq<byte>>)
    ensures r.Ok? ==> |frame| >= 3 && Verifies(r.value, frame[|frame| - 1])
    ensures r.Ok? ==> 3 + |r.value| <= |frame| && r.value == frame[3..3 + |r.value|]
    ensures |frame| < 3 ==> r == Err(ShortFrame)
    ensures |frame| >= 3 && r.Err? ==> r.error == InvalidChecksum
    ensures |frame| >= 3 && 0 <= Signed16(frame[1], frame[2]) <= |frame| - 3 ==>
              (r.Ok? <==> Verifies(frame[3..3 + Signed16(frame[1], frame[2])], frame[|frame| - 1]))
    ensures r.Ok? && 0 <= Signed16(frame[1], frame[2]) <= |frame| - 3 ==> |r.value| == Signed16(frame[1], frame[2])
  {
    if |frame| < 3 then Err(ShortFrame)
    else
      var data := Slice(frame, 3, 3 + Signed16(frame[1], frame[2]));
      if Verifies(data, frame[|frame| - 1]) then Ok(data) else Err(InvalidChecksum)
  }

  /** A frame that is exactly start byte, non-negative length, that many
      payload bytes and one checksum byte unframes to its payload if and only
      if the checksum verifies. */
  lemma EmptyFrameWellFormed(frame: seq<byte>)
    requires |frame| >= 4 && frame[1] < 0x80
    requires |frame| == BigEndian(frame[1], frame[2]) + 4
    ensures EmptyFrame(frame) == if Verifies(frame[3..|frame| - 1], frame[|frame| - 1])
                                 then Ok(frame[3..|frame| - 1]) else Err(InvalidChecksum)
  {
  }

  /** The frame of a payload that fits: start byte, big-endian length, the
      payload, then its checksum. */
  lemma FillFrameLayout(data: seq<byte>)
    requires |data| < 0x8000
    ensures FillFrame(data) == Ok([StartByte, |data| / 256, |data| % 256] + data + [ChecksumOf(data)])
  {
    assert [StartByte] + [|data| / 256, |data| % 256] == [StartByte, |data| / 256, |data| % 256];
  }

  /** Unframing undoes framing for every payload that can be framed. */
  lemma {:induction false} FrameRoundTrip(data: seq<byte>)
    requires |data| < 0x8000
    ensures FillFrame(data).Ok? && EmptyFrame(FillFrame(data).value) == Ok(data)
  {
    var frame := FillFrame(data).value;
    assert frame[3..|frame| - 1] == data;
    EmptyFrameWellFormed(frame);
  }

  /** A frame whose checksum byte is changed is rejected. */
  lemma {:induction false} CorruptedChecksumRejected(data: seq<byte>, bad: byte)
    requires |data| < 0x8000 && bad != ChecksumOf(data)
    ensures var frame := FillFrame(data).value;
            EmptyFrame(frame[..|frame| - 1] + [bad]) == Err(InvalidChecksum)
  {
    var frame := FillFrame(data).value;
    var corrupt := frame[..|frame| - 1] + [bad];
    assert corrupt[3..|corrupt| - 1] == data;
    VerifiesIff(data, bad);
    EmptyFrameWellFormed(corrupt);
  }

  /** The checksum and framing examples of the library's own tests. */
  lemma FrameExamples()
    ensures ChecksumOf([0x00]) == 0xFF
    ensures ChecksumOf([0x36]) == 0xC9
    ensures ChecksumOf([1, 1, 1, 1, 1]) == 0xFA
    ensures Verifies([0x88, 0x44, 0x4D, 0x59, 0x01], 0x8C)
    ensures LenBytes([0]) == Ok([0x00, 0x01])
    ensures FillFrame([0x00]) == Ok([0x7E, 0x00, 0x01, 0x00, 0xFF])
    ensures FillFrame([0x00, 0x01, 0x02]) == Ok([0x7E, 0x00, 0x03, 0x00, 0x01, 0x02, 0xFC])
    ensures EmptyFrame([0x7E, 0x00, 0x01, 0x00, 0xFF]) == Ok([0x00])
    ensures EmptyFrame([0x7E, 0x00, 0x01, 0x00, 0xF6]) == Err(InvalidChecksum)
  {
    assert Sum([1, 1, 1, 1, 1]) == 5 by {
      assert [1, 1, 1, 1, 1][..4] == [1, 1, 1, 1];
      assert [1, 1, 1, 1][..3] == [1, 1, 1];
      assert [1, 1, 1][..2] == [1, 1];
      assert [1, 1][..1] == [1];
      assert [1][..0] == [];
    }
    assert Sum([0x88, 0x44, 0x4D, 0x59, 0x01]) == 0x173 by {
      SumAppend([0x88, 0x44], [0x4D, 0x59, 0x01]);
      assert [0x88, 0x44] + [0x4D, 0x59, 0x01] == [0x88, 0x44, 0x4D, 0x59, 0x01];
      assert [0x88, 0x44][..1] == [0x88];
      assert [0x88][..0] == [];
      assert [0x4D, 0x59, 0x01][..2] == [0x4D, 0x59];
      assert [0x4D, 0x59][..1] == [0x4D];
      assert [0x4D][..0] == [];
    }
    assert Sum([0x00]) == 0 && Sum([0x36]) == 0x36 by {
      assert [0x00][..0] == [];
      assert [0x36][..0] == [];
    }
    assert Sum([0x00, 0x01, 0x02]) == 3 by {
      assert [0x00, 0x01, 0x02][..2] == [0x00, 0x01];
      assert [0x00, 0x01][..1] == [0x00];
      assert [0x00][..0] == [];
    }
    assert [0x7E] + [0x00, 0x01] + [0x00] + [0xFF] == [0x7E, 0x00, 0x01, 0x00, 0xFF];
    assert [0x7E] + [0x00, 0x03] + [0x00, 0x01, 0x02] + [0xFC] == [0x7E, 0x00, 0x03, 0x00, 0x01, 0x02, 0xFC];
    assert [0x7E, 0x00, 0x01, 0x00, 0xFF][3..4] == [0x00];
    assert [0x7E, 0x00, 0x01, 0x00, 0xF6][3..4] == [0x00];
  }
}
