/** The APIFrame object of xbee/frame.py: it holds one unescaped payload and
    computes its checksum. */
module ApiFrame {
  import opened Bytes
  import XBeeFrame

  class APIFrame {
    var data: seq<byte>

    constructor (data: seq<byte>)
      ensures this.data == data
    {
      this.data := data;
    }

    /** The frame's checksum byte; it is the same byte `XBee.checksum`
        computes and the one `verify_checksum` accepts. */
    method Checksum() returns (chk: byte)
      ensures chk == XBeeFrame.ChecksumOf(data)
      ensures XBeeFrame.Verifies(data, chk)
    {
      var total: int := 0;
      for i := 0 to |data|
        invariant total == Sum(data[..i])
      {
        assert data[..i + 1][..i] == data[..i];
        total := total + data[i];
      }
      assert data[..|data|] == data;
      total := total % 256;
      chk := 0xFF - total;
      XBeeFrame.ChecksumVerifies(data);
    }
  }
}
