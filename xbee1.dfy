/** The Series 1 driver of xbee1.py: its own command and response tables, its
    own `build_command` (the frame type byte first, then the parameters in
    the table's `order`, with no defaults), and the legacy split and IO-sample
    decoding, which it repeats from xbee/base.py. */
module XBee1 {
  import opened Bytes
  import opened Results
  import opened Packets
  import Marshal
  import LegacyBase
  import XBeeFrame
  import Ieee
  import AtHooks
  import IoSamples

  /** A command: its frame type byte and its parameters in sending order. */
  datatype CommandSpec = CommandSpec(id: byte, order: seq<LegacyBase.Field>)

  /** Keys of a table entry that are never parameters. */
  const ReservedNames: seq<string> := ["id", "order"]

  function Counted(name: string, n: nat): LegacyBase.Field { LegacyBase.Field(name, Some(n)) }

  function Trailing(name: string): LegacyBase.Field { LegacyBase.Field(name, None) }

  const Commands: map<string, CommandSpec> := map[
    "at" := CommandSpec(0x08, [Counted("frame_id", 1), Counted("command", 2), Trailing("parameter")]),
    "queued_at" := CommandSpec(0x09, [Counted("frame_id", 1), Counted("command", 2), Trailing("parameter")]),
    "remote_at" := CommandSpec(0x17, [Counted("frame_id", 1), Counted("dest_addr_long", 8), Counted("dest_addr", 2),
                                      Counted("options", 1), Counted("command", 2), Trailing("parameter")]),
    "tx_long_addr" := CommandSpec(0x00, [Counted("frame_id", 1), Counted("dest_addr", 8), Counted("options", 1),
                                         Trailing("data")]),
    "tx" := CommandSpec(0x01, [Counted("frame_id", 1), Counted("dest_addr", 2), Counted("options", 1), Trailing("data")])]

  const AtResponse := LegacyBase.Spec("at_response", [Counted("frame_id", 1), Counted("command", 2), Counted("status", 1),
                                                      Trailing("parameter")], None)

  const RxIoData := LegacyBase.Spec("rx_io_data", [Counted("source", 2), Counted("rssi", 1), Counted("options", 1),
                                                   Trailing("samples")], Some("samples"))

  /** The response table; only `rx_io_data` (0x83) is in `io_data_packets`. */
  const Responses: map<byte, LegacyBase.Spec> := map[
    0x80 := LegacyBase.Spec("rx_long_addr", [Counted("source", 8), Counted("rssi", 1), Counted("options", 1),
                                             Trailing("rf_data")], None),
    0x81 := LegacyBase.Spec("rx", [Counted("source", 2), Counted("rssi", 1), Counted("options", 1), Trailing("rf_data")], None),
    0x83 := RxIoData,
    0x89 := LegacyBase.Spec("tx_status", [Counted("frame_id", 1), Counted("status", 1)], None),
    0x8A := LegacyBase.Spec("status", [Counted("status", 1)], None),
    0x88 := AtResponse,
    0x97 := LegacyBase.Spec("remote_at_response", [Counted("frame_id", 1), Counted("source_addr_long", 8),
                                                   Counted("source_addr", 2), Counted("command", 2), Counted("status", 1),
                                                   Trailing("parameter")], None)]

  // ---------------------------------------------------------------- building

  /** The bytes one parameter contributes: the caller's value; a missing
      fixed-length parameter is a KeyError and a missing variable one gives
      nothing. The length is checked only for a non-empty value. */
  function ParamData(f: LegacyBase.Field, args: map<string, seq<byte>>): Result<seq<byte>>
  {
    if f.name !in args then
      if f.len.Some? then Err(MissingField(f.name, f.len.value)) else Ok([])
    else
      var data := args[f.name];
      if |data| > 0 && f.len.Some? && f.len.value != 0 && |data| != f.len.value then
        Err(FieldLengthMismatch(f.name, f.len.value, |data|))
      else Ok(data)
  }

  /** What a parameter of the order contributes: reserved names are skipped. */
  function Contribution(f: LegacyBase.Field, args: map<string, seq<byte>>): Result<seq<byte>>
  {
    if f.name in ReservedNames then Ok([]) else ParamData(f, args)
  }

  /** The parameters' bytes in order, stopping at the first failing one. */
  function BuildParams(order: seq<LegacyBase.Field>, args: map<string, seq<byte>>): Result<seq<byte>>
  {
    if |order| == 0 then Ok([])
    else if order[0].name in ReservedNames then BuildParams(order[1..], args)
    else
      var data :- ParamData(order[0], args);
      Prefix(data, BuildParams(order[1..], args))
  }

  /** `build_command`, specified. */
  function Build(name: string, args: map<string, seq<byte>>): Result<seq<byte>>
  {
    if name !in Commands then Err(UnknownCommand(name))
    else Prefix([Commands[name].id], BuildParams(Commands[name].order, args))
  }

  /** `build_command`: the id byte, then each parameter's bytes in order. */
  method BuildCommand(name: string, args: map<string, seq<byte>>) returns (r: Result<seq<byte>>)
    ensures r == Build(name, args)
  {
    if name !in Commands {
      return Err(UnknownCommand(name));
    }
    var spec := Commands[name];
    var order := spec.order;
    var packet: seq<byte> := [spec.id];
    assert order[0..] == order;
    for i := 0 to |order|
      invariant Build(name, args) == Prefix(packet, BuildParams(order[i..], args))
    {
      assert order[i..][1..] == order[i + 1..];
      var f := order[i];
      if f.name in ReservedNames {
        continue;
      }
      var data: seq<byte>;
      if f.name in args {
        data := args[f.name];
      } else if f.len.Some? {
        return Err(MissingField(f.name, f.len.value));
      } else {
        data := [];
      }
      if |data| > 0 && f.len.Some? && f.len.value != 0 && |data| != f.len.value {
        return Err(FieldLengthMismatch(f.name, f.len.value, |data|));
      }
      assert ParamData(f, args) == Ok(data);
      Marshal.PrefixAppend(packet, data, BuildParams(order[i + 1..], args));
      packet := packet + data;
    }
    assert order[|order|..] == [];
    assert packet + [] == packet;
    r := Ok(packet);
  }

  /** A parameter's bytes are exactly what the caller gave (nothing when it is
      absent and of variable length); a fixed length is enforced on a
      non-empty value only, and there are no defaults. */
  lemma ParamDataMeaning(f: LegacyBase.Field, args: map<string, seq<byte>>)
    ensures ParamData(f, args).Ok? <==>
              (f.name in args || f.len.None?)
              && (f.name in args && |args[f.name]| > 0 && f.len.Some? && f.len.value != 0 ==> |args[f.name]| == f.len.value)
    ensures ParamData(f, args).Ok? ==> ParamData(f, args).value == if f.name in args then args[f.name] else []
  {
  }

  /** Building the parameters succeeds exactly when every one is acceptable;
      the bytes are then their contributions in order. */
  lemma {:induction false} BuildParamsOk(order: seq<LegacyBase.Field>, args: map<string, seq<byte>>)
    ensures BuildParams(order, args).Ok? <==> forall i :: 0 <= i < |order| ==> Contribution(order[i], args).Ok?
    ensures BuildParams(order, args).Ok? ==>
              BuildParams(order, args).value ==
                Marshal.Flatten(seq(|order|, i requires 0 <= i < |order| && Contribution(order[i], args).Ok? =>
                                              Contribution(order[i], args).value))
  {
    if |order| > 0 {
      BuildParamsOk(order[1..], args);
      var head := Contribution(order[0], args);
      assert order[0].name !in ReservedNames ==> head == ParamData(order[0], args);
      assert BuildParams(order, args) == if head.Err? then Err(head.error) else Prefix(head.value, BuildParams(order[1..], args)) by {
        if order[0].name in ReservedNames {
          Marshal.PrefixEmpty(BuildParams(order[1..], args));
        }
      }
      if head.Ok? && BuildParams(order[1..], args).Ok? {
        var parts := seq(|order|, i requires 0 <= i < |order| && Contribution(order[i], args).Ok? =>
                                    Contribution(order[i], args).value);
        var tail := seq(|order[1..]|, i requires 0 <= i < |order[1..]| && Contribution(order[1..][i], args).Ok? =>
                                        Contribution(order[1..][i], args).value);
        assert parts[1..] == tail;
      }
      if head.Err? {
        assert !(forall i :: 0 <= i < |order| ==> Contribution(order[i], args).Ok?);
      } else if forall i :: 0 <= i < |order| ==> Contribution(order[i], args).Ok? {
        forall i | 0 <= i < |order[1..]| ensures Contribution(order[1..][i], args).Ok? {
          assert order[1..][i] == order[i + 1];
        }
      } else {
        var k :| 0 <= k < |order| && !Contribution(order[k], args).Ok?;
        assert order[1..][k - 1] == order[k];
      }
    }
  }

  /** A key that names no parameter of the order (`id`, for instance)
      plays no part in building it. */
  lemma {:induction false} BuildParamsIgnores(order: seq<LegacyBase.Field>, args: map<string, seq<byte>>,
                                              key: string, value: seq<byte>)
    requires forall i :: 0 <= i < |order| ==> order[i].name != key || order[i].name in ReservedNames
    ensures BuildParams(order, args[key := value]) == BuildParams(order, args)
  {
    if |order| > 0 {
      forall i | 0 <= i < |order[1..]| ensures order[1..][i].name != key || order[1..][i].name in ReservedNames {
        assert order[1..][i] == order[i + 1];
      }
      BuildParamsIgnores(order[1..], args, key, value);
      if order[0].name !in ReservedNames {
        assert ParamData(order[0], args[key := value]) == ParamData(order[0], args);
      }
    }
  }

  /** A built command starts with the table's frame type byte, which the
      caller cannot override: an `id` argument is ignored. */
  lemma BuildStartsWithId(name: string, args: map<string, seq<byte>>, id: seq<byte>)
    requires Build(name, args).Ok?
    ensures name in Commands && |Build(name, args).value| >= 1 && Build(name, args).value[0] == Commands[name].id
    ensures Build(name, args["id" := id]) == Build(name, args)
  {
    var order := Commands[name].order;
    assert forall i :: 0 <= i < |order| ==> order[i].name != "id";
    BuildParamsIgnores(order, args, "id", id);
  }

  /** The parameters of `at`: frame id, command, then any parameter value. */
  lemma AtPayload(args: map<string, seq<byte>>)
    requires "frame_id" in args && |args["frame_id"]| == 1 && "command" in args && |args["command"]| == 2
    ensures Build("at", args) ==
              Ok([0x08] + args["frame_id"] + args["command"] + if "parameter" in args then args["parameter"] else [])
  {
    var f := Commands["at"].order;
    var p := if "parameter" in args then args["parameter"] else [];
    assert ParamData(f[2], args) == Ok(p);
    assert f[2..][1..] == [];
    assert BuildParams(f[2..], args) == Ok(p + []);
    assert f[1..][1..] == f[2..] && f[1..][0] == f[1];
    assert ParamData(f[1], args) == Ok(args["command"]);
    assert f[1].name !in ReservedNames;
    assert p + [] == p;
    assert BuildParams(f[1..], args) == Prefix(args["command"], BuildParams(f[2..], args));
    assert BuildParams(f[1..], args) == Ok(args["command"] + p);
    assert ParamData(f[0], args) == Ok(args["frame_id"]);
    assert BuildParams(f, args) == Ok(args["frame_id"] + (args["command"] + p));
    assert [0x08] + (args["frame_id"] + (args["command"] + p)) == [0x08] + args["frame_id"] + args["command"] + p;
  }

  /** The library's build examples, and the two ways this builder differs
      from the one of xbee/backend/base.py: no default frame id, and an empty
      value is not length-checked. */
  lemma BuildAtExamples()
    ensures Build("at", map["frame_id" := [0x2B], "command" := [0x4D, 0x59]]) == Ok([0x08, 0x2B, 0x4D, 0x59])
    ensures Build("at", map[]) == Err(MissingField("frame_id", 1))
    ensures Build("at", map["command" := [0x4D, 0x59]]) == Err(MissingField("frame_id", 1))
    ensures Build("at", map["frame_id" := [0x41, 0x42], "command" := [0x4D, 0x59]])
            == Err(FieldLengthMismatch("frame_id", 1, 2))
    ensures Build("at", map["frame_id" := [], "command" := [0x4D, 0x59]]) == Ok([0x08, 0x4D, 0x59])
    ensures Build("at_command", map[]) == Err(UnknownCommand("at_command"))
  {
    AtPayload(map["frame_id" := [0x2B], "command" := [0x4D, 0x59]]);
    assert [0x08] + [0x2B] + [0x4D, 0x59] + [] == [0x08, 0x2B, 0x4D, 0x59];
    var f := Commands["at"].order;
    var args := map["frame_id" := [], "command" := [0x4D, 0x59]];
    assert f[1..][1..] == f[2..] && f[2..][1..] == [];
    assert BuildParams(f[2..], args) == Ok([]);
    assert BuildParams(f[1..], args) == Ok([0x4D, 0x59] + []);
    assert BuildParams(f, args) == Ok([] + ([0x4D, 0x59] + []));
    assert [0x08] + ([] + ([0x4D, 0x59] + [])) == [0x08, 0x4D, 0x59];
  }

  /** `send`: the built command in an API frame. Escaping is not modelled. */
  function Send(name: string, args: map<string, seq<byte>>): Result<seq<byte>>
  {
    var payload :- Build(name, args);
    XBeeFrame.FillFrame(payload)
  }

  /** What `send` writes unframes to the built command. */
  lemma SendUnframes(name: string, args: map<string, seq<byte>>)
    requires Build(name, args).Ok? && |Build(name, args).value| < 0x8000
    ensures Send(name, args).Ok? && XBeeFrame.EmptyFrame(Send(name, args).value) == Build(name, args)
  {
    XBeeFrame.FrameRoundTrip(Build(name, args).value);
  }

  /** The arguments of the library's `at` examples: frame id 'A', command MY,
      and a two-byte parameter in the second. */
  const AtArgs: map<string, seq<byte>> := map["frame_id" := [0x41], "command" := [0x4D, 0x59]]
  const AtArgsWithParameter: map<string, seq<byte>> := AtArgs["parameter" := [0x00, 0x00]]

  /** Sending `at` with frame id 'A' and command MY writes this frame. */
  lemma SendAtExampleBare()
    ensures Send("at", AtArgs) == Ok([0x7E, 0x00, 0x04, 0x08, 0x41, 0x4D, 0x59, 0x10])
  {
    var p: seq<byte> := [0x08, 0x41, 0x4D, 0x59];
    AtPayload(AtArgs);
    assert [0x08] + [0x41] + [0x4D, 0x59] + [] == p;
    Ieee.SumAtPayloads();
    XBeeFrame.FillFrameLayout(p);
    assert [0x7E, 0x00, 0x04] + p + [0x10] == [0x7E, 0x00, 0x04, 0x08, 0x41, 0x4D, 0x59, 0x10];
  }

  /** The same with a two-byte parameter. */
  lemma SendAtExampleParameter()
    ensures Send("at", AtArgsWithParameter) == Ok([0x7E, 0x00, 0x06, 0x08, 0x41, 0x4D, 0x59, 0x00, 0x00, 0x10])
  {
    var p: seq<byte> := [0x08, 0x41, 0x4D, 0x59, 0x00, 0x00];
    AtPayload(AtArgsWithParameter);
    assert [0x08] + [0x41] + [0x4D, 0x59] + [0x00, 0x00] == p;
    Ieee.SumAtPayloads();
    XBeeFrame.FillFrameLayout(p);
    assert [0x7E, 0x00, 0x06] + p + [0x10] == [0x7E, 0x00, 0x06, 0x08, 0x41, 0x4D, 0x59, 0x00, 0x00, 0x10];
  }

  /** Sending `at` with frame id 'A' and command MY, with and without a
      parameter, writes these frames. */
  lemma SendAtExamples()
    ensures Send("at", AtArgs) == Ok([0x7E, 0x00, 0x04, 0x08, 0x41, 0x4D, 0x59, 0x10])
    ensures Send("at", AtArgsWithParameter) == Ok([0x7E, 0x00, 0x06, 0x08, 0x41, 0x4D, 0x59, 0x00, 0x00, 0x10])
  {
    SendAtExampleBare();
    SendAtExampleParameter();
  }

  // --------------------------------------------------------------- splitting

  /** `split_response`: the legacy split over this table. */
  function Split(data: seq<byte>): Result<Packet>
  {
    LegacyBase.Split(Responses, data)
  }

  /** `wait_read_frame` on a frame already read: unframe, then split. */
  function ReadFrame(frame: seq<byte>): Result<Packet>
  {
    var data :- XBeeFrame.EmptyFrame(frame);
    Split(data)
  }

  /** Every response reads distinct fields, none named `id`, with a
      variable-length one only in last place. */
  lemma ResponsesWellFormed()
    ensures forall b :: b in Responses ==> SpecWellFormed(Responses[b])
  {
    RxLongAddrWellFormed();
    RxWellFormed();
    RxIoDataWellFormed();
    StatusesWellFormed();
    AtResponseWellFormed();
    RemoteAtResponseWellFormed();
  }

  /** What `ResponsesWellFormed` states of one response. */
  predicate SpecWellFormed(spec: LegacyBase.Spec)
  {
    var st := LegacyBase.Convert(spec.structure);
    VariableLast(st) && DistinctResponseNames(st) && (forall f :: f in st ==> f.name != "id")
  }

  lemma RxLongAddrWellFormed() ensures SpecWellFormed(Responses[0x80]) { }

  lemma RxWellFormed() ensures SpecWellFormed(Responses[0x81]) { }

  lemma RxIoDataWellFormed() ensures SpecWellFormed(Responses[0x83]) { }

  lemma StatusesWellFormed() ensures SpecWellFormed(Responses[0x89]) && SpecWellFormed(Responses[0x8A]) { }

  lemma AtResponseWellFormed() ensures SpecWellFormed(Responses[0x88]) { }

  lemma RemoteAtResponseWellFormed() ensures SpecWellFormed(Responses[0x97]) { }

  /** Splitting the encoding of a response's fields gives them back, before
      the IO-sample step. */
  lemma SplitRoundTrip(id: byte, values: seq<seq<byte>>)
    requires id in Responses && Marshal.Fits(LegacyBase.Convert(Responses[id].structure), values)
    ensures Split([id] + Marshal.Encode(LegacyBase.Convert(Responses[id].structure), values))
            == LegacyBase.ParseIoField(Responses[id].ioSamples,
                                       Packet(Responses[id].name, Marshal.Fields(LegacyBase.Convert(Responses[id].structure), values, map[])))
  {
    ResponsesWellFormed();
    LegacyBase.SplitRoundTrip(Responses, id, values);
  }

  /** An id that is not a response is a KeyError, including a command's own
      frame type byte: there is no echoed-command check here. */
  lemma SplitUnknownId(data: seq<byte>)
    requires |data| > 0 && data[0] !in Responses
    ensures Split(data) == Err(UnknownResponse(data[0]))
    ensures forall c :: c in Commands ==> Commands[c].id !in Responses
  {
  }

  /** Split examples for `status` (0x8A), an unknown id and a command id. */
  lemma SplitStatusExamples()
    ensures Split([0x8A, 0x01]) == Ok(Packet("status", map["status" := Raw([0x01])]))
    ensures Split([0x8A]) == Err(ShorterThanExpected)
    ensures Split([0x8A, 0x00, 0x00, 0x00]) == Err(LongerThanExpected)
    ensures Split([0x23, 0x00, 0x00, 0x00]) == Err(UnknownResponse(0x23))
    ensures Split([0x01, 0x00, 0x00, 0x00]) == Err(UnknownResponse(0x01))
  {
    var spec := Responses[0x8A];
    assert spec == LegacyBase.Spec("status", [Counted("status", 1)], None);
    var st := LegacyBase.Convert(spec.structure);
    assert st == [Sized("status", 1)];
    assert st[1..] == [];
    var ok: seq<byte> := [0x8A, 0x01];
    assert ok[1..2] == [0x01];
    assert Marshal.Walk(st, ok, 1, map[]) == Marshal.Walk([], ok, 2, map["status" := Raw([0x01])]);
    assert Marshal.Walk(st, [0x8A], 1, map[]) == Err(ShorterThanExpected);
    var long: seq<byte> := [0x8A, 0x00, 0x00, 0x00];
    assert Marshal.Walk(st, long, 1, map[]) == Marshal.Walk([], long, 2, map["status" := Raw(long[1..2])]);
  }

  /** An `at_response` payload splits into frame id, command and status, and
      a parameter only when bytes remain. */
  lemma AtResponseSplit(frameId: byte, command: seq<byte>, status: byte, parameter: seq<byte>)
    requires |command| == 2
    ensures var fields := map["frame_id" := Raw([frameId]), "command" := Raw(command), "status" := Raw([status])];
            Split([0x88, frameId] + command + [status] + parameter)
            == if |parameter| == 0 then Ok(Packet("at_response", fields))
               else Ok(Packet("at_response", fields["parameter" := Raw(parameter)]))
  {
    assert Responses[0x88] == AtResponse;
    assert LegacyBase.Convert(AtResponse.structure)
           == [Sized("frame_id", 1), Sized("command", 2), Sized("status", 1), Rest("parameter")];
    LegacyBase.SplitFour(Responses, 0x88, [[frameId], command, [status], parameter]);
    assert [0x88] + [frameId] + command + [status] + parameter == [0x88, frameId] + command + [status] + parameter;
  }

  /** The library's `at_response` examples: without a parameter the key is
      absent; read from a frame, the same packets come out. */
  lemma SplitAtResponseExamples()
    ensures Split([0x88, 0x44, 0x4D, 0x59, 0x01])
            == Ok(Packet("at_response", map["frame_id" := Raw([0x44]), "command" := Raw([0x4D, 0x59]),
                                            "status" := Raw([0x01])]))
    ensures Split([0x88, 0x44, 0x4D, 0x59, 0x01, 0x41, 0x42, 0x43, 0x44, 0x45, 0x46])
            == Ok(Packet("at_response", map["frame_id" := Raw([0x44]), "command" := Raw([0x4D, 0x59]),
                                            "status" := Raw([0x01]),
                                            "parameter" := Raw([0x41, 0x42, 0x43, 0x44, 0x45, 0x46])]))
  {
    AtResponseSplit(0x44, [0x4D, 0x59], 0x01, []);
    assert [0x88, 0x44] + [0x4D, 0x59] + [0x01] + [] == [0x88, 0x44, 0x4D, 0x59, 0x01];
    AtResponseSplit(0x44, [0x4D, 0x59], 0x01, [0x41, 0x42, 0x43, 0x44, 0x45, 0x46]);
    assert [0x88, 0x44] + [0x4D, 0x59] + [0x01] + [0x41, 0x42, 0x43, 0x44, 0x45, 0x46]
           == [0x88, 0x44, 0x4D, 0x59, 0x01, 0x41, 0x42, 0x43, 0x44, 0x45, 0x46];
  }

  /** The payload of the library's `at_response` frame and a parameter of
      three zero bytes after it. */
  const AtReplyPayload: seq<byte> := [0x88, 0x44, 0x4D, 0x59, 0x01]
  const AtReplyWithParameter: seq<byte> := AtReplyPayload + [0x00, 0x00, 0x00]

  /** Three zero bytes leave the checksum of the reply unchanged. */
  lemma AtReplyChecksums()
    ensures XBeeFrame.Verifies(AtReplyPayload, 0x8C) && XBeeFrame.Verifies(AtReplyWithParameter, 0x8C)
  {
    XBeeFrame.FrameExamples();
    SumAppend(AtReplyPayload, [0x00, 0x00, 0x00]);
    assert Sum([0x00, 0x00, 0x00]) == 0 by {
      assert [0x00, 0x00, 0x00][..2] == [0x00, 0x00];
      assert [0x00, 0x00][..1] == [0x00];
      assert [0x00][..0] == [];
    }
  }

  /** Reading the library's `at_response` frame without a parameter. */
  lemma ReadAtExampleBare()
    ensures ReadFrame([0x7E, 0x00, 0x05, 0x88, 0x44, 0x4D, 0x59, 0x01, 0x8C])
            == Ok(Packet("at_response", map["frame_id" := Raw([0x44]), "command" := Raw([0x4D, 0x59]),
                                            "status" := Raw([0x01])]))
  {
    var f: seq<byte> := [0x7E, 0x00, 0x05, 0x88, 0x44, 0x4D, 0x59, 0x01, 0x8C];
    AtReplyChecksums();
    assert f[3..|f| - 1] == AtReplyPayload;
    XBeeFrame.EmptyFrameWellFormed(f);
    AtResponseSplit(0x44, [0x4D, 0x59], 0x01, []);
    assert [0x88, 0x44] + [0x4D, 0x59] + [0x01] + [] == AtReplyPayload;
  }

  /** Reading the same frame with three parameter bytes. */
  lemma ReadAtExampleParameter()
    ensures ReadFrame([0x7E, 0x00, 0x08, 0x88, 0x44, 0x4D, 0x59, 0x01, 0x00, 0x00, 0x00, 0x8C])
            == Ok(Packet("at_response", map["frame_id" := Raw([0x44]), "command" := Raw([0x4D, 0x59]),
                                            "status" := Raw([0x01]), "parameter" := Raw([0x00, 0x00, 0x00])]))
  {
    var f: seq<byte> := [0x7E, 0x00, 0x08, 0x88, 0x44, 0x4D, 0x59, 0x01, 0x00, 0x00, 0x00, 0x8C];
    AtReplyChecksums();
    assert f[3..|f| - 1] == AtReplyWithParameter;
    XBeeFrame.EmptyFrameWellFormed(f);
    AtResponseSplit(0x44, [0x4D, 0x59], 0x01, [0x00, 0x00, 0x00]);
    assert [0x88, 0x44] + [0x4D, 0x59] + [0x01] + [0x00, 0x00, 0x00] == AtReplyWithParameter;
  }

  /** Reading the library's two `at_response` frames. */
  lemma ReadAtExamples()
    ensures ReadFrame([0x7E, 0x00, 0x05, 0x88, 0x44, 0x4D, 0x59, 0x01, 0x8C])
            == Ok(Packet("at_response", map["frame_id" := Raw([0x44]), "command" := Raw([0x4D, 0x59]),
                                            "status" := Raw([0x01])]))
    ensures ReadFrame([0x7E, 0x00, 0x08, 0x88, 0x44, 0x4D, 0x59, 0x01, 0x00, 0x00, 0x00, 0x8C])
            == Ok(Packet("at_response", map["frame_id" := Raw([0x44]), "command" := Raw([0x4D, 0x59]),
                                            "status" := Raw([0x01]), "parameter" := Raw([0x00, 0x00, 0x00])]))
  {
    ReadAtExampleBare();
    ReadAtExampleParameter();
  }

  /** The split of an `rx_io_data` payload before its IO-sample step. */
  lemma RxIoDataFields(source: seq<byte>, rssi: byte, options: byte, samples: seq<byte>)
    requires |source| == 2
    ensures var fields := map["source" := Raw(source), "rssi" := Raw([rssi]), "options" := Raw([options])];
            Split([0x83] + source + [rssi, options] + samples)
            == LegacyBase.ParseIoField(Some("samples"), Packet("rx_io_data",
                 if |samples| == 0 then fields else fields["samples" := Raw(samples)]))
  {
    assert Responses[0x83] == RxIoData;
    assert LegacyBase.Convert(RxIoData.structure)
           == [Sized("source", 2), Sized("rssi", 1), Sized("options", 1), Rest("samples")];
    LegacyBase.SplitFour(Responses, 0x83, [source, [rssi], [options], samples]);
    assert [0x83] + source + [rssi] + [options] + samples == [0x83] + source + [rssi, options] + samples;
  }

  /** An `rx_io_data` payload has its samples decoded; without sample bytes
      the field is not stored and the lookup fails with a KeyError. */
  lemma RxIoDataSplit(source: seq<byte>, rssi: byte, options: byte, samples: seq<byte>)
    requires |source| == 2
    ensures var fields := map["source" := Raw(source), "rssi" := Raw([rssi]), "options" := Raw([options])];
            Split([0x83] + source + [rssi, options] + samples)
            == if |samples| == 0 then Err(MissingKey("samples"))
               else match LegacyBase.Samples(samples)
                    case Ok(s) => Ok(Packet("rx_io_data", fields["samples" := Value.Samples(s)]))
                    case Err(e) => Err(e)
  {
    RxIoDataFields(source, rssi, options, samples);
    var fields := map["source" := Raw(source), "rssi" := Raw([rssi]), "options" := Raw([options])];
    if |samples| > 0 {
      var p := Packet("rx_io_data", fields["samples" := Raw(samples)]);
      assert AtHooks.LookupBytes(p, "samples") == Ok(samples);
      match LegacyBase.Samples(samples) {
        case Ok(s) =>
          assert p.fields["samples" := Value.Samples(s)] == fields["samples" := Value.Samples(s)];
        case Err(_) =>
      }
    }
  }

  /** An `rx_io_data` payload whose sample bytes decode. */
  lemma RxIoDataDecoded(frame: seq<byte>, source: seq<byte>, rssi: byte, options: byte, samples: seq<byte>, decoded: seq<Sample>)
    requires frame == [0x83] + source + [rssi, options] + samples
    requires |source| == 2 && |samples| > 0 && LegacyBase.Samples(samples) == Ok(decoded)
    ensures Split(frame)
            == Ok(Packet("rx_io_data", map["source" := Raw(source), "rssi" := Raw([rssi]),
                                           "options" := Raw([options]), "samples" := Value.Samples(decoded)]))
  {
    RxIoDataSplit(source, rssi, options, samples);
  }

  /** The frame payload of the library's IO-data test: from address 00 01 at
      RSSI 0x28, one sample with nine enabled digital lines, all high. */
  const RxIoDataPayload: seq<byte> := [0x83, 0x00, 0x01, 0x28, 0x00] + IoSamples.AllHighPayload

  lemma RxIoDataPayloadParts()
    ensures RxIoDataPayload == [0x83] + [0x00, 0x01] + [0x28, 0x00] + IoSamples.AllHighPayload
  { }

  lemma RxIoDataExample()
    ensures Split(RxIoDataPayload)
            == Ok(Packet("rx_io_data", map["source" := Raw([0x00, 0x01]), "rssi" := Raw([0x28]),
                                           "options" := Raw([0x00]),
                                           "samples" := Value.Samples([IoSamples.AllHighSample])]))
  {
    RxIoDataPayloadParts();
    LegacyBase.SampleExampleAllHigh();
    RxIoDataDecoded(RxIoDataPayload, [0x00, 0x01], 0x28, 0x00, IoSamples.AllHighPayload, [IoSamples.AllHighSample]);
  }
}
