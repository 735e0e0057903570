/** The parsing hooks the response tables attach to the `parameter` field of
    AT command replies (xbee/ieee.py and xbee/zigbee.py): a successful reply
    to `IS` carries IO samples, a successful local reply to `ND` carries a
    discovered node's record. Any other reply leaves the parameter as it is. */
module AtHooks {
  import opened Bytes
  import opened Results
  import opened Packets
  import IoSamples

  /** `packet_info[key]`, failing with a KeyError on a missing key. */
  function Lookup(p: Packet, key: string): (r: Result<Value>)
    ensures r.Ok? <==> key in p.fields
  {
    if key in p.fields then Ok(p.fields[key]) else Err(MissingKey(key))
  }

  /** A field used as bytes; any other value has no `lower()` and fails. */
  function LookupBytes(p: Packet, key: string): (r: Result<seq<byte>>)
    ensures r.Ok? <==> key in p.fields && p.fields[key].Raw?
  {
    var v :- Lookup(p, key);
    if v.Raw? then Ok(v.bytes) else Err(NotBytes(key))
  }

  const IsCommand: seq<byte> := [0x69, 0x73]   // b'is'
  const NdCommand: seq<byte> := [0x6E, 0x64]   // b'nd'

  /** The hooks compare the command case-insensitively: exactly the four
      spellings of the two letters match. */
  lemma LowerMatchesCommand(c: seq<byte>, first: byte, second: byte)
    requires 0x61 <= first <= 0x7A && 0x61 <= second <= 0x7A
    ensures Lower(c) == [first, second] <==>
              |c| == 2 && (c[0] == first || c[0] == first - 32) && (c[1] == second || c[1] == second - 32)
  {
    if Lower(c) == [first, second] {
      assert |c| == 2;
      assert Lower(c)[0] == first && Lower(c)[1] == second;
    }
    if |c| == 2 && (c[0] == first || c[0] == first - 32) && (c[1] == second || c[1] == second - 32) {
      assert Lower(c) == [first, second];
    }
  }

  /** `_parse_IS_at_response`. The conditions are tested left to right and
      stop at the first false one, as Python's `and` does, so a missing
      `status` only matters once the command is `IS`. */
  function IsAtResponse(layout: Layout, p: Packet): Result<Value>
  {
    if p.id != "at_response" && p.id != "remote_at_response" then Lookup(p, "parameter")
    else
      var command :- LookupBytes(p, "command");
      if Lower(command) != IsCommand then Lookup(p, "parameter")
      else
        var status :- Lookup(p, "status");
        if status != Raw([0x00]) then Lookup(p, "parameter")
        else
          var parameter :- LookupBytes(p, "parameter");
          var samples :- IoSamples.Samples(layout, parameter);
          Ok(Samples(samples))
  }

  /** Fields as `_split_response` leaves an AT reply: raw command, status and
      parameter bytes. */
  predicate RawReply(p: Packet)
  {
    && "command" in p.fields && p.fields["command"].Raw?
    && "status" in p.fields && p.fields["status"].Raw?
    && "parameter" in p.fields && p.fields["parameter"].Raw?
  }

  /** A successful reply to the given AT command, compared case-insensitively. */
  predicate Successful(p: Packet, command: seq<byte>)
    requires RawReply(p)
  {
    Lower(p.fields["command"].bytes) == command && p.fields["status"].bytes == [0x00]
  }

  /** The IS hook decodes the parameter as IO samples if and only if the
      packet is a successful (remote) AT reply to IS; every other reply keeps
      its parameter bytes unchanged. */
  lemma IsAtResponseMeaning(layout: Layout, p: Packet)
    requires RawReply(p)
    ensures var decode := (p.id == "at_response" || p.id == "remote_at_response") && Successful(p, IsCommand);
            && (decode ==> IsAtResponse(layout, p) ==
                             match IoSamples.Samples(layout, p.fields["parameter"].bytes)
                             case Ok(s) => Ok(Samples(s))
                             case Err(e) => Err(e))
            && (!decode ==> IsAtResponse(layout, p) == Ok(p.fields["parameter"]))
  {
  }

  /** The record of a discovered node: fixed-size addresses, the identifier
      up to its 0x00, then five fixed-size fields. */
  function NodeRecord(parameter: seq<byte>, t: nat): (m: map<string, seq<byte>>)
    requires 10 <= t && t + 9 <= |parameter|
  {
    map["source_addr" := parameter[0..2],
        "source_addr_long" := parameter[2..10],
        "node_identifier" := parameter[10..t],
        "parent_address" := parameter[t + 1..t + 3],
        "device_type" := parameter[t + 3..t + 4],
        "status" := parameter[t + 4..t + 5],
        "profile_id" := parameter[t + 5..t + 7],
        "manufacturer" := parameter[t + 7..t + 9]]
  }

  /** Decoding of an ND reply's parameter: the identifier must be terminated
      by 0x00 at or after offset 10, and exactly nine bytes must follow. */
  function NdParameter(parameter: seq<byte>): Result<map<string, seq<byte>>>
  {
    match FirstZero(parameter, 10)
    case None => Err(MissingTerminator)
    case Some(t) =>
      if t + 9 != |parameter| then Err(NdLengthMismatch(|parameter|, t + 9))
      else Ok(NodeRecord(parameter, t))
  }

  /** `_parse_ND_at_response`, specified. */
  function NdAtResponse(p: Packet): Result<Value>
  {
    if p.id != "at_response" then Lookup(p, "parameter")
    else
      var command :- LookupBytes(p, "command");
      if Lower(command) != NdCommand then Lookup(p, "parameter")
      else
        var status :- Lookup(p, "status");
        if status != Raw([0x00]) then Lookup(p, "parameter")
        else
          var parameter :- LookupBytes(p, "parameter");
          var record :- NdParameter(parameter);
          Ok(NodeInfo(record))
  }

  /** `_parse_ND_at_response`: scans for the identifier's terminator. The
      source loops forever when there is none; here that is MissingTerminator. */
  method ParseNdAtResponse(p: Packet) returns (r: Result<Value>)
    ensures r == NdAtResponse(p)
  {
    if p.id != "at_response" {
      return Lookup(p, "parameter");
    }
    var command := LookupBytes(p, "command");
    if command.Err? {
      return Err(command.error);
    }
    if Lower(command.value) != NdCommand {
      return Lookup(p, "parameter");
    }
    var status := Lookup(p, "status");
    if status.Err? {
      return Err(status.error);
    }
    if status.value != Raw([0x00]) {
      return Lookup(p, "parameter");
    }
    var found := LookupBytes(p, "parameter");
    if found.Err? {
      return Err(found.error);
    }
    var parameter := found.value;
    var t := 10;
    while t < |parameter| && parameter[t] != 0x00
      invariant 10 <= t && (t <= |parameter| || t == 10)
      invariant forall k :: 10 <= k < t ==> parameter[k] != 0x00
      decreases |parameter| - t
    {
      t := t + 1;
    }
    if t >= |parameter| {
      return Err(MissingTerminator);
    }
    assert FirstZero(parameter, 10) == Some(t);
    if t + 9 != |parameter| {
      return Err(NdLengthMismatch(|parameter|, t + 9));
    }
    r := Ok(NodeInfo(NodeRecord(parameter, t)));
  }

  /** Decoding a well-formed ND parameter gives back each part that was put in. */
  lemma {:induction false} NdRoundTrip(addr: seq<byte>, addrLong: seq<byte>, name: seq<byte>, rest: seq<byte>)
    requires |addr| == 2 && |addrLong| == 8 && |rest| == 8
    requires forall k :: 0 <= k < |name| ==> name[k] != 0x00
    ensures NdParameter(addr + addrLong + name + [0x00] + rest) ==
              Ok(map["source_addr" := addr,
                     "source_addr_long" := addrLong,
                     "node_identifier" := name,
                     "parent_address" := rest[0..2],
                     "device_type" := rest[2..3],
                     "status" := rest[3..4],
                     "profile_id" := rest[4..6],
                     "manufacturer" := rest[6..8]])
  {
    var parameter := addr + addrLong + name + [0x00] + rest;
    var t := 10 + |name|;
    assert parameter[t] == 0x00;
    forall k | 10 <= k < t
      ensures parameter[k] != 0x00
    {
      assert parameter[k] == name[k - 10];
    }
    assert FirstZero(parameter, 10) == Some(t);
    assert parameter[0..2] == addr;
    assert parameter[2..10] == addrLong;
    assert parameter[10..t] == name;
    assert parameter[t + 1..t + 9] == rest;
    assert parameter[t + 1..t + 3] == rest[0..2];
    assert parameter[t + 3..t + 4] == rest[2..3];
    assert parameter[t + 4..t + 5] == rest[3..4];
    assert parameter[t + 5..t + 7] == rest[4..6];
    assert parameter[t + 7..t + 9] == rest[6..8];
  }

  /** Decoding loses nothing: a decoded record, with the terminator put back,
      is the parameter it came from; and decoding succeeds exactly when a
      terminator at offset 10 or later is followed by exactly nine bytes. */
  lemma NdDecodeComplete(parameter: seq<byte>)
    ensures NdParameter(parameter).Ok? <==>
              exists t :: 10 <= t < |parameter| && parameter[t] == 0x00 && t + 9 == |parameter|
                          && (forall k :: 10 <= k < t ==> parameter[k] != 0x00)
    ensures NdParameter(parameter).Ok? ==>
              var m := NdParameter(parameter).value;
              parameter == m["source_addr"] + m["source_addr_long"] + m["node_identifier"] + [0x00]
                           + m["parent_address"] + m["device_type"] + m["status"]
                           + m["profile_id"] + m["manufacturer"]
  {
    match FirstZero(parameter, 10)
    case None =>
    case Some(t) =>
      if t + 9 == |parameter| {
        var m := NdParameter(parameter).value;
        assert parameter[0..10] == parameter[0..2] + parameter[2..10];
        assert parameter[0..t] == parameter[0..10] + parameter[10..t];
        assert parameter[0..t + 1] == parameter[0..t] + [0x00];
        assert parameter[0..t + 3] == parameter[0..t + 1] + parameter[t + 1..t + 3];
        assert parameter[0..t + 4] == parameter[0..t + 3] + parameter[t + 3..t + 4];
        assert parameter[0..t + 5] == parameter[0..t + 4] + parameter[t + 4..t + 5];
        assert parameter[0..t + 7] == parameter[0..t + 5] + parameter[t + 5..t + 7];
        assert parameter[0..t + 9] == parameter[0..t + 7] + parameter[t + 7..t + 9];
        assert parameter == parameter[0..t + 9];
      } else {
        forall t' | 10 <= t' < |parameter| && parameter[t'] == 0x00 && (forall k :: 10 <= k < t' ==> parameter[k] != 0x00)
          ensures t' == t
        {
        }
      }
  }

  /** The ND hook decodes the parameter only for a successful local AT reply
      to ND; every other reply keeps its parameter bytes unchanged. */
  lemma NdAtResponseMeaning(p: Packet)
    requires RawReply(p)
    ensures var decode := p.id == "at_response" && Successful(p, NdCommand);
            && (decode ==> NdAtResponse(p) ==
                             match NdParameter(p.fields["parameter"].bytes)
                             case Ok(m) => Ok(NodeInfo(m))
                             case Err(e) => Err(e))
            && (!decode ==> NdAtResponse(p) == Ok(p.fields["parameter"]))
  {
  }
}
