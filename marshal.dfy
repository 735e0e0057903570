/** The table-driven engine of xbee/backend/base.py: `_build_command` turns
    named field values into a command payload, `_split_response` turns a
    response payload into a dictionary of named fields and runs the
    response's parsing rules, and `send` frames a built command. */
module Marshal {
  import opened Bytes
  import opened Results
  import opened Packets
  import IoSamples
  import AtHooks
  import XBeeFrame

  // ---------------------------------------------------------------- building

  /** `api_commands[name]`. */
  function FindCommand(commands: seq<Command>, name: string): (r: Option<Command>)
    ensures r.Some? ==> r.value in commands && r.value.name == name
    ensures r.None? ==> forall c :: c in commands ==> c.name != name
  {
    if |commands| == 0 then None
    else if commands[0].name == name then Some(commands[0])
    else FindCommand(commands[1..], name)
  }

  /** The bytes one command field contributes: the caller's value, else a
      non-empty default; a fixed-length field with neither is missing, and a
      value of the wrong length is refused (a length of 0 is never checked).
      An absent variable-length field contributes nothing. */
  function FieldData(f: CommandField, args: map<string, seq<byte>>): Result<seq<byte>>
  {
    if f.name !in args && f.len.Some? && !(f.default.Some? && |f.default.value| > 0) then
      Err(MissingField(f.name, f.len.value))
    else
      var data := if f.name in args then args[f.name] else if f.len.Some? then f.default.value else [];
      if f.len.Some? && f.len.value != 0 && |data| != f.len.value then
        Err(FieldLengthMismatch(f.name, f.len.value, |data|))
      else Ok(data)
  }

  /** The fields' bytes in table order, stopping at the first failing field. */
  function BuildFields(fields: seq<CommandField>, args: map<string, seq<byte>>): Result<seq<byte>>
  {
    if |fields| == 0 then Ok([])
    else
      var data :- FieldData(fields[0], args);
      Prefix(data, BuildFields(fields[1..], args))
  }

  /** `_build_command`, specified. */
  function Build(commands: seq<Command>, name: string, args: map<string, seq<byte>>): Result<seq<byte>>
  {
    match FindCommand(commands, name)
    case None => Err(UnknownCommand(name))
    case Some(c) => BuildFields(c.fields, args)
  }

  /** `_build_command`: appends each field's bytes in table order. */
  method BuildCommand(commands: seq<Command>, name: string, args: map<string, seq<byte>>) returns (r: Result<seq<byte>>)
    ensures r == Build(commands, name, args)
  {
    var found := FindCommand(commands, name);
    if found.None? {
      return Err(UnknownCommand(name));
    }
    var fields := found.value.fields;
    assert Build(commands, name, args) == BuildFields(fields, args);
    var packet: seq<byte> := [];
    assert fields[0..] == fields;
    PrefixEmpty(BuildFields(fields, args));
    for i := 0 to |fields|
      invariant Build(commands, name, args) == Prefix(packet, BuildFields(fields[i..], args))
    {
      assert fields[i..][1..] == fields[i + 1..];
      var f := fields[i];
      var data: seq<byte>;
      if f.name in args {
        data := args[f.name];
      } else if f.len.Some? {
        if f.default.Some? && |f.default.value| > 0 {
          data := f.default.value;
        } else {
          return Err(MissingField(f.name, f.len.value));
        }
      } else {
        data := [];
      }
      if f.len.Some? && f.len.value != 0 && |data| != f.len.value {
        return Err(FieldLengthMismatch(f.name, f.len.value, |data|));
      }
      assert FieldData(f, args) == Ok(data);
      PrefixAppend(packet, data, BuildFields(fields[i + 1..], args));
      packet := packet + data;
    }
    assert fields[|fields|..] == [];
    assert packet + [] == packet;
    r := Ok(packet);
  }

  lemma PrefixEmpty(r: Result<seq<byte>>)
    ensures Prefix([], r) == r
  {
    if r.Ok? {
      assert [] + r.value == r.value;
    }
  }

  lemma PrefixAppend(a: seq<byte>, b: seq<byte>, r: Result<seq<byte>>)
    ensures Prefix(a, Prefix(b, r)) == Prefix(a + b, r)
  {
    if r.Ok? {
      assert a + (b + r.value) == (a + b) + r.value;
    }
  }

  /** Concatenation of a sequence of byte strings. */
  function Flatten(parts: seq<seq<byte>>): seq<byte>
  {
    if |parts| == 0 then [] else parts[0] + Flatten(parts[1..])
  }

  /** A field's bytes: what the caller gave, else the default, else nothing;
      a fixed non-zero length is always respected. */
  lemma FieldDataMeaning(f: CommandField, args: map<string, seq<byte>>)
    ensures FieldData(f, args).Ok? <==>
              (f.name in args || f.len.None? || (f.default.Some? && |f.default.value| > 0))
              && (f.len.Some? && f.len.value != 0 ==>
                    |if f.name in args then args[f.name] else f.default.value| == f.len.value)
    ensures FieldData(f, args).Ok? ==>
              FieldData(f, args).value ==
                (if f.name in args then args[f.name] else if f.len.Some? then f.default.value else [])
  {
  }

  /** Building succeeds exactly when every field is acceptable; the payload
      is then the fields' bytes in table order. */
  lemma {:induction false} BuildFieldsOk(fields: seq<CommandField>, args: map<string, seq<byte>>)
    ensures BuildFields(fields, args).Ok? <==> forall i :: 0 <= i < |fields| ==> FieldData(fields[i], args).Ok?
    ensures BuildFields(fields, args).Ok? ==>
              BuildFields(fields, args).value ==
                Flatten(seq(|fields|, i requires 0 <= i < |fields| && FieldData(fields[i], args).Ok? =>
                                        FieldData(fields[i], args).value))
  {
    if |fields| > 0 {
      BuildFieldsOk(fields[1..], args);
      if FieldData(fields[0], args).Ok? && BuildFields(fields[1..], args).Ok? {
        var parts := seq(|fields|, i requires 0 <= i < |fields| && FieldData(fields[i], args).Ok? =>
                                     FieldData(fields[i], args).value);
        var tail := seq(|fields[1..]|, i requires 0 <= i < |fields[1..]| && FieldData(fields[1..][i], args).Ok? =>
                                         FieldData(fields[1..][i], args).value);
        assert parts[1..] == tail;
      }
      if !FieldData(fields[0], args).Ok? {
        assert !(forall i :: 0 <= i < |fields| ==> FieldData(fields[i], args).Ok?);
      } else if forall i :: 0 <= i < |fields| ==> FieldData(fields[i], args).Ok? {
        assert forall i :: 0 <= i < |fields[1..]| ==> FieldData(fields[1..][i], args).Ok? by {
          forall i | 0 <= i < |fields[1..]| ensures FieldData(fields[1..][i], args).Ok? {
            assert fields[1..][i] == fields[i + 1];
          }
        }
      } else {
        var k :| 0 <= k < |fields| && !FieldData(fields[k], args).Ok?;
        assert fields[1..][k - 1] == fields[k];
      }
    }
  }

  /** When each field gives known bytes, the payload is their concatenation. */
  lemma {:induction false} BuildFieldsParts(fields: seq<CommandField>, args: map<string, seq<byte>>, parts: seq<seq<byte>>)
    requires |parts| == |fields|
    requires forall i :: 0 <= i < |fields| ==> FieldData(fields[i], args) == Ok(parts[i])
    ensures BuildFields(fields, args) == Ok(Flatten(parts))
  {
    if |fields| > 0 {
      assert forall i :: 0 <= i < |fields[1..]| ==> fields[1..][i] == fields[i + 1] && parts[1..][i] == parts[i + 1];
      BuildFieldsParts(fields[1..], args, parts[1..]);
    }
  }

  /** The concatenation of seven byte strings. */
  lemma FlattenSeven(a: seq<byte>, b: seq<byte>, c: seq<byte>, d: seq<byte>, e: seq<byte>, f: seq<byte>, g: seq<byte>)
    ensures Flatten([a, b, c, d, e, f, g]) == a + (b + (c + (d + (e + (f + (g + []))))))
  {
    assert [g][1..] == [];
    assert Flatten([g]) == g + [];
    assert [f, g][1..] == [g];
    assert Flatten([f, g]) == f + (g + []);
    assert [e, f, g][1..] == [f, g];
    assert Flatten([e, f, g]) == e + (f + (g + []));
    assert [d, e, f, g][1..] == [e, f, g];
    assert Flatten([d, e, f, g]) == d + (e + (f + (g + [])));
    assert [c, d, e, f, g][1..] == [d, e, f, g];
    assert Flatten([c, d, e, f, g]) == c + (d + (e + (f + (g + []))));
    assert [b, c, d, e, f, g][1..] == [c, d, e, f, g];
    assert Flatten([b, c, d, e, f, g]) == b + (c + (d + (e + (f + (g + [])))));
    assert [a, b, c, d, e, f, g][1..] == [b, c, d, e, f, g];
  }

  /** A failed build reports the error of the first failing field. */
  lemma {:induction false} BuildFieldsError(fields: seq<CommandField>, args: map<string, seq<byte>>)
    requires BuildFields(fields, args).Err?
    ensures exists k :: 0 <= k < |fields| && FieldData(fields[k], args).Err?
                        && (forall j :: 0 <= j < k ==> FieldData(fields[j], args).Ok?)
                        && BuildFields(fields, args).error == FieldData(fields[k], args).error
  {
    if FieldData(fields[0], args).Ok? {
      BuildFieldsError(fields[1..], args);
      var k :| 0 <= k < |fields[1..]| && FieldData(fields[1..][k], args).Err?
               && (forall j :: 0 <= j < k ==> FieldData(fields[1..][j], args).Ok?)
               && BuildFields(fields[1..], args).error == FieldData(fields[1..][k], args).error;
      assert fields[1..][k] == fields[k + 1];
      forall j | 0 <= j < k + 1 ensures FieldData(fields[j], args).Ok? {
        if j > 0 {
          assert fields[1..][j - 1] == fields[j];
        }
      }
    } else {
      assert FieldData(fields[0], args).Err?;
    }
  }

  /** A built payload starts with the command's frame type byte (the caller
      may not override the `id` field by passing a value of another length). */
  lemma BuildStartsWithId(c: Command, args: map<string, seq<byte>>)
    requires IdFirst(c) && "id" !in args
    requires BuildFields(c.fields, args).Ok?
    ensures |BuildFields(c.fields, args).value| >= 1
    ensures BuildFields(c.fields, args).value[0] == c.fields[0].default.value[0]
  {
    var data := FieldData(c.fields[0], args).value;
    assert data == c.fields[0].default.value;
    assert BuildFields(c.fields, args).value == data + BuildFields(c.fields[1..], args).value;
  }

  /** `send`: the built command in an API frame. Escaping is not modelled. */
  function Send(commands: seq<Command>, name: string, args: map<string, seq<byte>>): Result<seq<byte>>
  {
    var payload :- Build(commands, name, args);
    XBeeFrame.FillFrame(payload)
  }

  /** What `send` writes unframes to the built command. */
  lemma SendUnframes(commands: seq<Command>, name: string, args: map<string, seq<byte>>)
    requires Build(commands, name, args).Ok? && |Build(commands, name, args).value| < 0x8000
    ensures Send(commands, name, args).Ok?
    ensures XBeeFrame.EmptyFrame(Send(commands, name, args).value) == Build(commands, name, args)
  {
    XBeeFrame.FrameRoundTrip(Build(commands, name, args).value);
  }

  // --------------------------------------------------------------- splitting

  /** The reading position and the fields read so far. */
  datatype Cursor = Cursor(index: nat, fields: map<string, Value>)

  /** The field loop of `_split_response`, from position index on. */
  function Walk(structure: seq<ResponseField>, data: seq<byte>, index: nat, info: map<string, Value>): Result<Cursor>
    requires index <= |data|
    decreases |structure|
  {
    if |structure| == 0 then Ok(Cursor(index, info))
    else
      var f := structure[0];
      match f.len
      case NullTerminated =>
        (match FirstZero(data, index)
         case None => Err(MissingTerminator)
         case Some(t) => Walk(structure[1..], data, t + 1, info[f.name := Raw(data[index..t])]))
      case Fixed(n) =>
        if index + n > |data| then Err(ShorterThanExpected)
        else Walk(structure[1..], data, index + n, info[f.name := Raw(data[index..index + n])])
      case Variable =>
        if index < |data| then Ok(Cursor(|data|, info[f.name := Raw(data[index..])]))
        else Ok(Cursor(index, info))
  }

  /** A read never moves backwards nor past the end of the payload. */
  lemma {:induction false} WalkIndex(structure: seq<ResponseField>, data: seq<byte>, index: nat, info: map<string, Value>)
    requires index <= |data| && Walk(structure, data, index, info).Ok?
    ensures index <= Walk(structure, data, index, info).value.index <= |data|
    decreases |structure|
  {
    if |structure| > 0 {
      var f := structure[0];
      if f.len.NullTerminated? {
        var t := FirstZero(data, index).value;
        WalkIndex(structure[1..], data, t + 1, info[f.name := Raw(data[index..t])]);
      } else if f.len.Fixed? {
        WalkIndex(structure[1..], data, index + f.len.n, info[f.name := Raw(data[index..index + f.len.n])]);
      }
    }
  }

  /** The first command whose frame type byte is id, by table order. */
  function EchoedCommand(commands: seq<Command>, id: byte): Option<string>
  {
    if |commands| == 0 then None
    else if |commands[0].fields| > 0 && commands[0].fields[0].default == Some([id]) then Some(commands[0].name)
    else EchoedCommand(commands[1..], id)
  }

  /** A command is found exactly when some command has frame type id, and
      the one found is the first such in table order. */
  lemma {:induction false} EchoedCommandMeaning(commands: seq<Command>, id: byte)
    ensures EchoedCommand(commands, id).Some? <==>
              exists c :: c in commands && |c.fields| > 0 && c.fields[0].default == Some([id])
    ensures EchoedCommand(commands, id).Some? ==>
              exists i :: 0 <= i < |commands| && commands[i].name == EchoedCommand(commands, id).value
                          && |commands[i].fields| > 0 && commands[i].fields[0].default == Some([id])
                          && forall j :: 0 <= j < i ==> !(|commands[j].fields| > 0 && commands[j].fields[0].default == Some([id]))
  {
    if |commands| > 0 {
      EchoedCommandMeaning(commands[1..], id);
      assert forall c :: c in commands <==> c == commands[0] || c in commands[1..] by {
        assert commands == [commands[0]] + commands[1..];
      }
      var r := EchoedCommand(commands, id);
      if r.Some? && !(|commands[0].fields| > 0 && commands[0].fields[0].default == Some([id])) {
        var i :| 0 <= i < |commands[1..]| && commands[1..][i].name == r.value
                 && |commands[1..][i].fields| > 0 && commands[1..][i].fields[0].default == Some([id])
                 && forall j :: 0 <= j < i ==> !(|commands[1..][j].fields| > 0 && commands[1..][j].fields[0].default == Some([id]));
        assert commands[i + 1] == commands[1..][i];
        forall j | 0 <= j < i + 1
          ensures !(|commands[j].fields| > 0 && commands[j].fields[0].default == Some([id]))
        {
          if j > 0 {
            assert commands[j] == commands[1..][j - 1];
          }
        }
      }
    }
  }

  /** The value a parsing rule's function returns for the packet so far. */
  function RunHook(layout: Layout, hook: Hook, p: Packet): Result<Value>
  {
    match hook
    case IoSamples =>
      var raw :- AtHooks.LookupBytes(p, "samples");
      var samples :- IoSamples.Samples(layout, raw);
      Ok(Samples(samples))
    case IsAtResponse => AtHooks.IsAtResponse(layout, p)
    case NdAtResponse => AtHooks.NdAtResponse(p)
    case Replace(value) => Ok(Raw(value))
  }

  /** The parsing rules in order; a rule whose field is absent is skipped,
      and each rule sees the results of the rules before it. */
  function ApplyParsing(layout: Layout, rules: seq<ParseRule>, p: Packet): Result<Packet>
    decreases |rules|
  {
    if |rules| == 0 then Ok(p)
    else if rules[0].field !in p.fields then ApplyParsing(layout, rules[1..], p)
    else
      var v :- RunHook(layout, rules[0].hook, p);
      ApplyParsing(layout, rules[1..], Packet(p.id, p.fields[rules[0].field := v]))
  }

  /** `_split_response`, specified. An empty payload has no id byte. */
  function Split(v: Variant, data: seq<byte>): Result<Packet>
  {
    if |data| == 0 then Err(EmptyPayload)
    else if data[0] !in v.responses then
      match EchoedCommand(v.commands, data[0])
      case Some(name) => Err(CommandFrameEchoed(data[0], name))
      case None => Err(UnknownResponse(data[0]))
    else
      var spec := v.responses[data[0]];
      var c :- Walk(spec.structure, data, 1, map[]);
      if c.index < |data| then Err(LongerThanExpected)
      else ApplyParsing(v.layout, spec.parsing, Packet(spec.name, c.fields))
  }

  /** The value computation of one parsing rule, with the loops of the hooks. */
  method RunParseRule(layout: Layout, hook: Hook, p: Packet) returns (r: Result<Value>)
    ensures r == RunHook(layout, hook, p)
  {
    match hook {
      case IoSamples =>
        var raw := AtHooks.LookupBytes(p, "samples");
        if raw.Err? {
          return Err(raw.error);
        }
        var samples := IoSamples.ParseSamples(layout, raw.value);
        if samples.Err? {
          return Err(samples.error);
        }
        r := Ok(Samples(samples.value));
      case IsAtResponse =>
        r := AtHooks.IsAtResponse(layout, p);
      case NdAtResponse =>
        r := AtHooks.ParseNdAtResponse(p);
      case Replace(value) =>
        r := Ok(Raw(value));
    }
  }

  /** The parsing-rule loop at the end of `_split_response`. */
  method ApplyParsingRules(layout: Layout, rules: seq<ParseRule>, p: Packet) returns (r: Result<Packet>)
    ensures r == ApplyParsing(layout, rules, p)
  {
    var current := p;
    for i := 0 to |rules|
      invariant ApplyParsing(layout, rules, p) == ApplyParsing(layout, rules[i..], current)
    {
      assert rules[i..][1..] == rules[i + 1..];
      var rule := rules[i];
      if rule.field in current.fields {
        var value := RunParseRule(layout, rule.hook, current);
        if value.Err? {
          return Err(value.error);
        }
        current := Packet(current.id, current.fields[rule.field := value.value]);
      }
    }
    assert rules[|rules|..] == [];
    r := Ok(current);
  }

  /** The command-frame check of `_split_response` for an unknown id byte. */
  method UnknownId(commands: seq<Command>, id: byte) returns (e: Error)
    ensures e == match EchoedCommand(commands, id)
                 case Some(name) => CommandFrameEchoed(id, name)
                 case None => UnknownResponse(id)
  {
    for i := 0 to |commands|
      invariant EchoedCommand(commands, id) == EchoedCommand(commands[i..], id)
    {
      assert commands[i..][1..] == commands[i + 1..];
      var c := commands[i];
      if |c.fields| > 0 && c.fields[0].default == Some([id]) {
        return CommandFrameEchoed(id, c.name);
      }
    }
    e := UnknownResponse(id);
  }

  /** The scan of a null-terminated field: bytes are collected up to the
      next 0x00, whose position is returned. */
  method ReadTerminated(data: seq<byte>, index: nat) returns (t: Option<nat>, fieldData: seq<byte>)
    requires index <= |data|
    ensures t == FirstZero(data, index)
    ensures t.Some? ==> fieldData == data[index..t.value]
  {
    fieldData := [];
    var j := index;
    while j < |data| && data[j] != 0x00
      invariant index <= j <= |data|
      invariant fieldData == data[index..j]
      invariant forall k :: index <= k < j ==> data[k] != 0x00
    {
      fieldData := fieldData + [data[j]];
      j := j + 1;
    }
    if j == |data| {
      return None, fieldData;
    }
    assert FirstZero(data, index) == Some(j);
    t := Some(j);
  }

  /** `_split_response`: looks up the response, walks its fields, then
      applies its parsing rules. */
  method SplitResponse(v: Variant, data: seq<byte>) returns (r: Result<Packet>)
    ensures r == Split(v, data)
  {
    if |data| == 0 {
      return Err(EmptyPayload);
    }
    var id := data[0];
    if id !in v.responses {
      var e := UnknownId(v.commands, id);
      return Err(e);
    }
    var spec := v.responses[id];
    var c := WalkFields(spec.structure, data);
    if c.Err? {
      return Err(c.error);
    }
    if c.value.index < |data| {
      return Err(LongerThanExpected);
    }
    r := ApplyParsingRules(v.layout, spec.parsing, Packet(spec.name, c.value.fields));
  }

  /** The field loop of `_split_response`, with a moving index from byte 1. */
  method WalkFields(structure: seq<ResponseField>, data: seq<byte>) returns (c: Result<Cursor>)
    requires |data| >= 1
    ensures c == Walk(structure, data, 1, map[])
  {
    var index: nat := 1;
    var info: map<string, Value> := map[];
    var i := 0;
    while i < |structure|
      invariant 0 <= i <= |structure| && 1 <= index <= |data|
      invariant Walk(structure, data, 1, map[]) == Walk(structure[i..], data, index, info)
    {
      var f := structure[i];
      assert structure[i..][0] == f && structure[i..][1..] == structure[i + 1..];
      if f.len.NullTerminated? {
        var t, fieldData := ReadTerminated(data, index);
        if t.None? {
          return Err(MissingTerminator);
        }
        info := info[f.name := Raw(fieldData)];
        index := t.value + 1;
      } else if f.len.Fixed? {
        if index + f.len.n > |data| {
          return Err(ShorterThanExpected);
        }
        info := info[f.name := Raw(data[index..index + f.len.n])];
        index := index + f.len.n;
      } else {
        var fieldData := data[index..];
        if |fieldData| > 0 {
          info := info[f.name := Raw(fieldData)];
          index := index + |fieldData|;
        }
        break;
      }
      i := i + 1;
    }
    assert Walk(structure, data, 1, map[]) == Ok(Cursor(index, info)) by {
      if i == |structure| {
        assert structure[i..] == [];
      }
    }
    c := Ok(Cursor(index, info));
  }

  // ------------------------------------------------- properties of splitting

  /** A value that can be put in a response field of the given kind. */
  predicate FitsField(len: FieldLen, value: seq<byte>)
  {
    match len
    case Fixed(n) => |value| == n
    case NullTerminated => forall k :: 0 <= k < |value| ==> value[k] != 0x00
    case Variable => true
  }

  /** One value per field, each fitting its field. */
  predicate Fits(structure: seq<ResponseField>, values: seq<seq<byte>>)
  {
    |values| == |structure| && forall i :: 0 <= i < |structure| ==> FitsField(structure[i].len, values[i])
  }

  /** The wire form of field values: each in order, a null-terminated one
      followed by its 0x00. */
  function Encode(structure: seq<ResponseField>, values: seq<seq<byte>>): seq<byte>
    requires |values| == |structure|
    decreases |structure|
  {
    if |structure| == 0 then []
    else values[0] + (if structure[0].len.NullTerminated? then [0x00] else []) + Encode(structure[1..], values[1..])
  }

  /** Whether the split keeps a field: an empty trailing variable field is
      not stored. */
  predicate Stored(f: ResponseField, value: seq<byte>)
  {
    !(f.len.Variable? && |value| == 0)
  }

  /** The dictionary the split should produce for the given field values. */
  function Fields(structure: seq<ResponseField>, values: seq<seq<byte>>, info: map<string, Value>): map<string, Value>
    requires |values| == |structure|
    decreases |structure|
  {
    if |structure| == 0 then info
    else Fields(structure[1..], values[1..],
                if Stored(structure[0], values[0]) then info[structure[0].name := Raw(values[0])] else info)
  }

  lemma FitsTail(structure: seq<ResponseField>, values: seq<seq<byte>>)
    requires Fits(structure, values) && |structure| > 0
    ensures Fits(structure[1..], values[1..]) && FitsField(structure[0].len, values[0])
  {
    assert FitsField(structure[0].len, values[0]);
    forall i | 0 <= i < |structure[1..]|
      ensures FitsField(structure[1..][i].len, values[1..][i])
    {
      assert FitsField(structure[i + 1].len, values[i + 1]);
    }
  }

  /** The separator written after a field's value. */
  function Separator(f: ResponseField): seq<byte>
  {
    if f.len.NullTerminated? then [0x00] else []
  }

  /** One step of reading an encoding: the first field is read back and the
      rest of the encoding follows. */
  lemma WalkEncodeStep(structure: seq<ResponseField>, values: seq<seq<byte>>, prefix: seq<byte>, info: map<string, Value>)
    requires Fits(structure, values) && |structure| > 0 && !structure[0].len.Variable?
    ensures prefix + Encode(structure, values)
            == (prefix + values[0] + Separator(structure[0])) + Encode(structure[1..], values[1..])
    ensures Walk(structure, prefix + Encode(structure, values), |prefix|, info)
            == Walk(structure[1..], (prefix + values[0] + Separator(structure[0])) + Encode(structure[1..], values[1..]),
                    |prefix + values[0] + Separator(structure[0])|, info[structure[0].name := Raw(values[0])])
  {
    var f := structure[0];
    var v := values[0];
    var data := prefix + Encode(structure, values);
    var p := |prefix|;
    assert FitsField(f.len, v);
    assert data == (prefix + v + Separator(f)) + Encode(structure[1..], values[1..]);
    assert data[p..p + |v|] == v;
    if f.len.NullTerminated? {
      assert data[p + |v|] == 0x00;
      forall k | p <= k < p + |v|
        ensures data[k] != 0x00
      {
        assert data[k] == v[k - p];
      }
      assert FirstZero(data, p) == Some(p + |v|);
    }
  }

  /** Reading the encoding of fitting values gives back exactly those values,
      and consumes all of it. */
  lemma {:induction false} WalkEncode(structure: seq<ResponseField>, values: seq<seq<byte>>,
                                      prefix: seq<byte>, info: map<string, Value>)
    requires Fits(structure, values) && VariableLast(structure)
    ensures Walk(structure, prefix + Encode(structure, values), |prefix|, info)
            == Ok(Cursor(|prefix| + |Encode(structure, values)|, Fields(structure, values, info)))
    decreases |structure|
  {
    if |structure| > 0 {
      FitsTail(structure, values);
      assert VariableLast(structure[1..]);
      if structure[0].len.Variable? {
        assert |structure| == 1;
        assert Encode(structure, values) == values[0];
      } else {
        WalkEncodeStep(structure, values, prefix, info);
        WalkEncode(structure[1..], values[1..], prefix + values[0] + Separator(structure[0]),
                   info[structure[0].name := Raw(values[0])]);
      }
    }
  }

  /** Putting a first value in front of fitting values for the rest. */
  lemma FitsCons(structure: seq<ResponseField>, value: seq<byte>, rest: seq<seq<byte>>)
    requires |structure| > 0 && FitsField(structure[0].len, value) && Fits(structure[1..], rest)
    ensures Fits(structure, [value] + rest) && ([value] + rest)[1..] == rest
  {
    var values := [value] + rest;
    assert values[1..] == rest;
    forall i | 0 <= i < |structure|
      ensures FitsField(structure[i].len, values[i])
    {
      if i > 0 {
        assert FitsField(structure[1..][i - 1].len, rest[i - 1]);
      }
    }
  }

  /** The encoding and the dictionary of values with a first value in front. */
  lemma EncodeCons(structure: seq<ResponseField>, value: seq<byte>, rest: seq<seq<byte>>, info: map<string, Value>)
    requires |structure| > 0 && |rest| == |structure| - 1
    ensures ([value] + rest)[0] == value && ([value] + rest)[1..] == rest
    ensures Encode(structure, [value] + rest) == value + Separator(structure[0]) + Encode(structure[1..], rest)
    ensures Fields(structure, [value] + rest, info)
            == Fields(structure[1..], rest, if Stored(structure[0], value) then info[structure[0].name := Raw(value)] else info)
  {
    assert ([value] + rest)[1..] == rest;
  }

  /** A slice split at a terminator byte. */
  lemma SliceAtTerminator(data: seq<byte>, index: nat, t: nat)
    requires index <= t < |data| && data[t] == 0x00
    ensures data[index..] == data[index..t] + [0x00] + data[t + 1..]
  {
    assert data[index..] == data[index..t] + data[t..];
    assert data[t..] == [data[t]] + data[t + 1..];
  }

  /** Decoding a structure that starts with a null-terminated field. */
  lemma {:induction false} WalkDecodesNull(structure: seq<ResponseField>, data: seq<byte>, index: nat, info: map<string, Value>)
    requires index <= |data| && VariableLast(structure) && |structure| > 0 && structure[0].len.NullTerminated?
    requires Walk(structure, data, index, info).Ok? && Walk(structure, data, index, info).value.index == |data|
    ensures exists values :: Fits(structure, values) && data[index..] == Encode(structure, values)
                             && Walk(structure, data, index, info).value.fields == Fields(structure, values, info)
    decreases |structure|, 0
  {
    var f := structure[0];
    assert VariableLast(structure[1..]);
    var t := FirstZero(data, index).value;
    var value := data[index..t];
    var info' := info[f.name := Raw(value)];
    assert Walk(structure, data, index, info) == Walk(structure[1..], data, t + 1, info');
    WalkDecodes(structure[1..], data, t + 1, info');
    var rest :| Fits(structure[1..], rest) && data[t + 1..] == Encode(structure[1..], rest)
                && Walk(structure[1..], data, t + 1, info').value.fields == Fields(structure[1..], rest, info');
    FitsCons(structure, value, rest);
    EncodeCons(structure, value, rest, info);
    SliceAtTerminator(data, index, t);
  }

  /** Decoding a structure that starts with a fixed-length field. */
  lemma {:induction false} WalkDecodesFixed(structure: seq<ResponseField>, data: seq<byte>, index: nat, info: map<string, Value>)
    requires index <= |data| && VariableLast(structure) && |structure| > 0 && structure[0].len.Fixed?
    requires Walk(structure, data, index, info).Ok? && Walk(structure, data, index, info).value.index == |data|
    ensures exists values :: Fits(structure, values) && data[index..] == Encode(structure, values)
                             && Walk(structure, data, index, info).value.fields == Fields(structure, values, info)
    decreases |structure|, 0
  {
    var f := structure[0];
    var n := f.len.n;
    assert VariableLast(structure[1..]);
    var value := data[index..index + n];
    var info' := info[f.name := Raw(value)];
    assert Walk(structure, data, index, info) == Walk(structure[1..], data, index + n, info');
    WalkDecodes(structure[1..], data, index + n, info');
    var rest :| Fits(structure[1..], rest) && data[index + n..] == Encode(structure[1..], rest)
                && Walk(structure[1..], data, index + n, info').value.fields == Fields(structure[1..], rest, info');
    FitsCons(structure, value, rest);
    EncodeCons(structure, value, rest, info);
    assert data[index..] == value + data[index + n..];
  }

  /** Reading loses nothing: whatever a complete read returns is the reading
      of the encoding of some fitting values, namely the bytes it consumed. */
  lemma {:induction false} WalkDecodes(structure: seq<ResponseField>, data: seq<byte>, index: nat, info: map<string, Value>)
    requires index <= |data| && VariableLast(structure)
    requires Walk(structure, data, index, info).Ok? && Walk(structure, data, index, info).value.index == |data|
    ensures exists values :: Fits(structure, values) && data[index..] == Encode(structure, values)
                             && Walk(structure, data, index, info).value.fields == Fields(structure, values, info)
    decreases |structure|, 1
  {
    if |structure| == 0 {
      var values: seq<seq<byte>> := [];
      assert Fits(structure, values) && data[index..] == Encode(structure, values);
    } else if structure[0].len.NullTerminated? {
      WalkDecodesNull(structure, data, index, info);
    } else if structure[0].len.Fixed? {
      WalkDecodesFixed(structure, data, index, info);
    } else {
      assert |structure| == 1;
      var values := [data[index..]];
      assert values[1..] == [];
      assert Encode(structure, values) == data[index..] + Encode(structure[1..], values[1..]);
      assert Fits(structure, values);
      var info' := if Stored(structure[0], values[0]) then info[structure[0].name := Raw(values[0])] else info;
      assert Fields(structure, values, info) == Fields(structure[1..], values[1..], info') == info';
      assert Walk(structure, data, index, info).value.fields == info';
    }
  }

  /** The keys of the dictionary: those given, and the stored fields. */
  lemma {:induction false} FieldsKeys(structure: seq<ResponseField>, values: seq<seq<byte>>, info: map<string, Value>)
    requires |values| == |structure|
    ensures forall k :: k in Fields(structure, values, info) <==>
              k in info || exists i :: 0 <= i < |structure| && structure[i].name == k && Stored(structure[i], values[i])
    decreases |structure|
  {
    if |structure| > 0 {
      var f := structure[0];
      var info' := if Stored(f, values[0]) then info[f.name := Raw(values[0])] else info;
      FieldsKeys(structure[1..], values[1..], info');
      forall k
        ensures k in Fields(structure, values, info) <==>
                k in info || exists i :: 0 <= i < |structure| && structure[i].name == k && Stored(structure[i], values[i])
      {
        if exists i :: 0 <= i < |structure| && structure[i].name == k && Stored(structure[i], values[i]) {
          var i :| 0 <= i < |structure| && structure[i].name == k && Stored(structure[i], values[i]);
          if i > 0 {
            assert structure[1..][i - 1] == structure[i] && values[1..][i - 1] == values[i];
          }
        }
        if k in Fields(structure, values, info) && k !in info' {
          var i :| 0 <= i < |structure[1..]| && structure[1..][i].name == k && Stored(structure[1..][i], values[1..][i]);
          assert structure[i + 1] == structure[1..][i] && values[i + 1] == values[1..][i];
        }
      }
    }
  }

  /** With distinct names, every stored field holds its own value. */
  lemma {:induction false} FieldsStored(structure: seq<ResponseField>, values: seq<seq<byte>>, info: map<string, Value>)
    requires |values| == |structure| && DistinctResponseNames(structure)
    ensures forall i :: 0 <= i < |structure| && Stored(structure[i], values[i]) ==>
              structure[i].name in Fields(structure, values, info)
              && Fields(structure, values, info)[structure[i].name] == Raw(values[i])
    decreases |structure|
  {
    if |structure| > 0 {
      var f := structure[0];
      var info' := if Stored(f, values[0]) then info[f.name := Raw(values[0])] else info;
      assert DistinctResponseNames(structure[1..]);
      FieldsStored(structure[1..], values[1..], info');
      FieldsKept(structure[1..], values[1..], info');
      forall i | 0 <= i < |structure| && Stored(structure[i], values[i])
        ensures structure[i].name in Fields(structure, values, info)
                && Fields(structure, values, info)[structure[i].name] == Raw(values[i])
      {
        if i > 0 {
          assert structure[1..][i - 1] == structure[i] && values[1..][i - 1] == values[i];
        } else {
          forall j | 0 <= j < |structure[1..]|
            ensures structure[1..][j].name != f.name
          {
            assert structure[1..][j] == structure[j + 1];
          }
        }
      }
    }
  }

  /** A given entry whose name no field has is kept. */
  lemma {:induction false} FieldsKept(structure: seq<ResponseField>, values: seq<seq<byte>>, info: map<string, Value>)
    requires |values| == |structure|
    ensures forall k :: k in info && (forall i :: 0 <= i < |structure| ==> structure[i].name != k) ==>
              k in Fields(structure, values, info) && Fields(structure, values, info)[k] == info[k]
    decreases |structure|
  {
    if |structure| > 0 {
      var f := structure[0];
      var info' := if Stored(f, values[0]) then info[f.name := Raw(values[0])] else info;
      FieldsKept(structure[1..], values[1..], info');
      forall k | k in info && (forall i :: 0 <= i < |structure| ==> structure[i].name != k)
        ensures k in Fields(structure, values, info) && Fields(structure, values, info)[k] == info[k]
      {
        assert structure[0].name != k;
        forall j | 0 <= j < |structure[1..]|
          ensures structure[1..][j].name != k
        {
          assert structure[1..][j] == structure[j + 1];
        }
      }
    }
  }

  /** The dictionary for distinct field names: every stored field maps to its
      value, and nothing else is added. */
  lemma FieldsMeaning(structure: seq<ResponseField>, values: seq<seq<byte>>, info: map<string, Value>)
    requires |values| == |structure| && DistinctResponseNames(structure)
    ensures forall k :: k in Fields(structure, values, info) <==>
              k in info || exists i :: 0 <= i < |structure| && structure[i].name == k && Stored(structure[i], values[i])
    ensures forall i :: 0 <= i < |structure| && Stored(structure[i], values[i]) ==>
              Fields(structure, values, info)[structure[i].name] == Raw(values[i])
    ensures forall k :: k in info && (forall i :: 0 <= i < |structure| ==> structure[i].name != k) ==>
              Fields(structure, values, info)[k] == info[k]
  {
    FieldsKeys(structure, values, info);
    FieldsStored(structure, values, info);
    FieldsKept(structure, values, info);
  }

  /** The parsing rules keep the packet's id and its key set, and leave every
      field that no rule names as it was. */
  lemma {:induction false} ApplyParsingKeeps(layout: Layout, rules: seq<ParseRule>, p: Packet)
    requires ApplyParsing(layout, rules, p).Ok?
    ensures ApplyParsing(layout, rules, p).value.id == p.id
    ensures ApplyParsing(layout, rules, p).value.fields.Keys == p.fields.Keys
    ensures forall k :: k in p.fields && (forall i :: 0 <= i < |rules| ==> rules[i].field != k) ==>
              ApplyParsing(layout, rules, p).value.fields[k] == p.fields[k]
    decreases |rules|
  {
    if |rules| > 0 {
      var next := if rules[0].field !in p.fields then p
                  else Packet(p.id, p.fields[rules[0].field := RunHook(layout, rules[0].hook, p).value]);
      ApplyParsingKeeps(layout, rules[1..], next);
      forall k | k in p.fields && (forall i :: 0 <= i < |rules| ==> rules[i].field != k)
        ensures ApplyParsing(layout, rules, p).value.fields[k] == p.fields[k]
      {
        assert rules[0].field != k;
        forall j | 0 <= j < |rules[1..]|
          ensures rules[1..][j].field != k
        {
          assert rules[1..][j] == rules[j + 1];
        }
      }
    }
  }

  /** A single parsing rule: skipped when its field is absent, otherwise
      its value replaces the field. */
  lemma ApplyOneRule(layout: Layout, rule: ParseRule, p: Packet)
    ensures ApplyParsing(layout, [rule], p)
            == if rule.field !in p.fields then Ok(p)
               else match RunHook(layout, rule.hook, p)
                    case Ok(value) => Ok(Packet(p.id, p.fields[rule.field := value]))
                    case Err(e) => Err(e)
  {
    assert [rule][1..] == [];
  }

  /** Two rules on the same present field: the second sees what the first
      stored. */
  lemma ApplyTwoRules(layout: Layout, r0: ParseRule, r1: ParseRule, p: Packet)
    requires r0.field in p.fields && r1.field == r0.field
    ensures ApplyParsing(layout, [r0, r1], p)
            == match RunHook(layout, r0.hook, p)
               case Err(e) => Err(e)
               case Ok(v) => ApplyParsing(layout, [r1], Packet(p.id, p.fields[r0.field := v]))
  {
    assert [r0, r1][1..] == [r1];
  }

  /** A parsing rule whose field is absent from every packet changes nothing. */
  lemma {:induction false} ApplyParsingAbsent(layout: Layout, rules: seq<ParseRule>, p: Packet)
    requires forall i :: 0 <= i < |rules| ==> rules[i].field !in p.fields
    ensures ApplyParsing(layout, rules, p) == Ok(p)
    decreases |rules|
  {
    if |rules| > 0 {
      assert rules[0].field !in p.fields;
      forall j | 0 <= j < |rules[1..]|
        ensures rules[1..][j].field !in p.fields
      {
        assert rules[1..][j] == rules[j + 1];
      }
      ApplyParsingAbsent(layout, rules[1..], p);
    }
  }

  /** An id byte with no response entry is refused with a KeyError: one
      naming the command that has this frame type if there is one, a plain
      unknown-response error otherwise. */
  lemma SplitUnknownId(v: Variant, data: seq<byte>)
    requires |data| > 0 && data[0] !in v.responses
    ensures Split(v, data).Err? && IsKeyError(Split(v, data).error)
    ensures Split(v, data).error.CommandFrameEchoed? <==>
              exists c :: c in v.commands && |c.fields| > 0 && c.fields[0].default == Some([data[0]])
    ensures Split(v, data).error.CommandFrameEchoed? ==>
              exists c :: c in v.commands && c.name == Split(v, data).error.command
                          && |c.fields| > 0 && c.fields[0].default == Some([data[0]])
  {
    EchoedCommandMeaning(v.commands, data[0]);
    match EchoedCommand(v.commands, data[0])
    case Some(name) =>
      var i :| 0 <= i < |v.commands| && v.commands[i].name == name
               && |v.commands[i].fields| > 0 && v.commands[i].fields[0].default == Some([data[0]]);
      assert v.commands[i] in v.commands;
    case None =>
  }

  /** The split of a response's encoding: the id byte names the response, the
      fields come back with the values that were put in, and the parsing
      rules then run on them. */
  lemma SplitRoundTrip(v: Variant, id: byte, values: seq<seq<byte>>)
    requires id in v.responses
    requires Fits(v.responses[id].structure, values) && VariableLast(v.responses[id].structure)
    ensures Split(v, [id] + Encode(v.responses[id].structure, values))
            == ApplyParsing(v.layout, v.responses[id].parsing,
                            Packet(v.responses[id].name, Fields(v.responses[id].structure, values, map[])))
  {
    WalkEncode(v.responses[id].structure, values, [id], map[]);
  }

  /** Every successful split is the round trip of some fitting field values:
      the payload is the id byte followed by their encoding, and the packet
      is named after the response. */
  lemma SplitComplete(v: Variant, data: seq<byte>)
    requires WellFormed(v) && Split(v, data).Ok?
    ensures |data| > 0 && data[0] in v.responses
    ensures Split(v, data).value.id == v.responses[data[0]].name
    ensures exists values :: Fits(v.responses[data[0]].structure, values)
                             && data == [data[0]] + Encode(v.responses[data[0]].structure, values)
                             && Split(v, data) == ApplyParsing(v.layout, v.responses[data[0]].parsing,
                                                               Packet(v.responses[data[0]].name,
                                                                      Fields(v.responses[data[0]].structure, values, map[])))
  {
    var spec := v.responses[data[0]];
    var c := Walk(spec.structure, data, 1, map[]).value;
    ApplyParsingKeeps(v.layout, spec.parsing, Packet(spec.name, c.fields));
    WalkIndex(spec.structure, data, 1, map[]);
    WalkDecodes(spec.structure, data, 1, map[]);
    assert data == [data[0]] + data[1..];
  }

  /** Whether every field of a structure has a fixed length. */
  predicate AllFixed(structure: seq<ResponseField>)
  {
    forall i :: 0 <= i < |structure| ==> structure[i].len.Fixed?
  }

  /** The total length of a structure's fixed-length fields. */
  function FixedTotal(structure: seq<ResponseField>): nat
  {
    if |structure| == 0 then 0
    else (if structure[0].len.Fixed? then structure[0].len.n else 0) + FixedTotal(structure[1..])
  }

  /** Reading fixed-length fields fails, as "shorter than expected", exactly
      when fewer bytes remain than the fields' total length. */
  lemma {:induction false} WalkFixed(structure: seq<ResponseField>, data: seq<byte>, index: nat, info: map<string, Value>)
    requires AllFixed(structure) && index <= |data|
    ensures Walk(structure, data, index, info).Ok? <==> index + FixedTotal(structure) <= |data|
    ensures Walk(structure, data, index, info).Ok? ==>
              Walk(structure, data, index, info).value.index == index + FixedTotal(structure)
    ensures Walk(structure, data, index, info).Err? ==> Walk(structure, data, index, info).error == ShorterThanExpected
    decreases |structure|
  {
    if |structure| > 0 {
      var n := structure[0].len.n;
      assert AllFixed(structure[1..]) by {
        forall i | 0 <= i < |structure[1..]|
          ensures structure[1..][i].len.Fixed?
        {
          assert structure[1..][i] == structure[i + 1];
        }
      }
      if index + n <= |data| {
        WalkFixed(structure[1..], data, index + n, info[structure[0].name := Raw(data[index..index + n])]);
      }
    }
  }

  /** A response made of fixed-length fields splits only when the payload is
      exactly one id byte plus their total length; a shorter one is
      "shorter than expected", a longer one "longer than expected". */
  lemma SplitFixed(v: Variant, data: seq<byte>)
    requires |data| > 0 && data[0] in v.responses && AllFixed(v.responses[data[0]].structure)
    ensures var total := 1 + FixedTotal(v.responses[data[0]].structure);
            && (|data| < total ==> Split(v, data) == Err(ShorterThanExpected))
            && (|data| > total ==> Split(v, data) == Err(LongerThanExpected))
            && (|data| == total ==> Walk(v.responses[data[0]].structure, data, 1, map[]).Ok? && Split(v, data) == ApplyParsing(v.layout, v.responses[data[0]].parsing,
                                       Packet(v.responses[data[0]].name, Walk(v.responses[data[0]].structure, data, 1, map[]).value.fields)))
  {
    WalkFixed(v.responses[data[0]].structure, data, 1, map[]);
  }

  /** The default a response table gives a field plays no part in reading it. */
  lemma {:induction false} WalkIgnoresDefaults(structure: seq<ResponseField>, other: seq<ResponseField>,
                                               data: seq<byte>, index: nat, info: map<string, Value>)
    requires index <= |data| && |other| == |structure|
    requires forall i :: 0 <= i < |structure| ==> other[i].name == structure[i].name && other[i].len == structure[i].len
    ensures Walk(structure, data, index, info) == Walk(other, data, index, info)
    decreases |structure|
  {
    if |structure| > 0 {
      assert other[0].name == structure[0].name && other[0].len == structure[0].len;
      forall i | 0 <= i < |structure[1..]|
        ensures other[1..][i].name == structure[1..][i].name && other[1..][i].len == structure[1..][i].len
      {
        assert other[1..][i] == other[i + 1] && structure[1..][i] == structure[i + 1];
      }
      match structure[0].len {
        case NullTerminated =>
          match FirstZero(data, index) {
            case None =>
            case Some(t) =>
              WalkIgnoresDefaults(structure[1..], other[1..], data, t + 1, info[structure[0].name := Raw(data[index..t])]);
          }
        case Fixed(n) =>
          if index + n <= |data| {
            WalkIgnoresDefaults(structure[1..], other[1..], data, index + n, info[structure[0].name := Raw(data[index..index + n])]);
          }
        case Variable =>
      }
    }
  }

  /** Reading fields only ever stores raw bytes. */
  lemma {:induction false} WalkKeepsRaw(structure: seq<ResponseField>, data: seq<byte>, index: nat, info: map<string, Value>)
    requires index <= |data| && Walk(structure, data, index, info).Ok?
    requires forall k :: k in info ==> info[k].Raw?
    ensures forall k :: k in Walk(structure, data, index, info).value.fields ==>
              Walk(structure, data, index, info).value.fields[k].Raw?
    decreases |structure|
  {
    if |structure| > 0 {
      var f := structure[0];
      match f.len {
        case NullTerminated =>
          var t := FirstZero(data, index).value;
          WalkKeepsRaw(structure[1..], data, t + 1, info[f.name := Raw(data[index..t])]);
        case Fixed(n) =>
          WalkKeepsRaw(structure[1..], data, index + n, info[f.name := Raw(data[index..index + n])]);
        case Variable =>
      }
    }
  }

  /** Where no response has a parsing rule, every value of a split packet is
      the raw bytes read for it. */
  lemma SplitWithoutParsing(v: Variant, data: seq<byte>)
    requires forall b :: b in v.responses ==> v.responses[b].parsing == []
    requires Split(v, data).Ok?
    ensures forall k :: k in Split(v, data).value.fields ==> Split(v, data).value.fields[k].Raw?
  {
    WalkKeepsRaw(v.responses[data[0]].structure, data, 1, map[]);
  }

  /** Three fixed-length fields followed by a variable-length one, the shape
      of most received frames. */
  predicate FourShape(st: seq<ResponseField>)
  {
    |st| == 4 && st[0].len.Fixed? && st[1].len.Fixed? && st[2].len.Fixed? && st[3].len.Variable?
  }

  /** The dictionary read from four values of such a structure: the trailing
      value only when it is not empty. */
  function FourMap(st: seq<ResponseField>, values: seq<seq<byte>>): map<string, Value>
    requires |st| == 4 && |values| == 4
  {
    var fields := map[st[0].name := Raw(values[0]), st[1].name := Raw(values[1]), st[2].name := Raw(values[2])];
    if |values[3]| == 0 then fields else fields[st[3].name := Raw(values[3])]
  }

  lemma FourEncode(st: seq<ResponseField>, values: seq<seq<byte>>)
    requires FourShape(st) && |values| == 4
    ensures Encode(st, values) == values[0] + values[1] + values[2] + values[3]
  {
    assert |st[3..][1..]| == 0 && |values[3..][1..]| == 0;
    assert Encode(st[3..], values[3..]) == values[3] + [];
    assert st[2..][1..] == st[3..] && values[2..][1..] == values[3..];
    assert Encode(st[2..], values[2..]) == values[2] + [] + values[3];
    assert st[1..][1..] == st[2..] && values[1..][1..] == values[2..];
    assert Encode(st[1..], values[1..]) == values[1] + [] + (values[2] + values[3]);
    assert Encode(st, values) == values[0] + [] + (values[1] + (values[2] + values[3]));
  }

  lemma FourFieldsMap(st: seq<ResponseField>, values: seq<seq<byte>>)
    requires FourShape(st) && |values| == 4
    ensures Fields(st, values, map[]) == FourMap(st, values)
  {
    var m1 := map[st[0].name := Raw(values[0])];
    var m2 := m1[st[1].name := Raw(values[1])];
    var m3 := m2[st[2].name := Raw(values[2])];
    assert st[1..][1..] == st[2..] && values[1..][1..] == values[2..];
    assert st[2..][1..] == st[3..] && values[2..][1..] == values[3..];
    assert Fields(st, values, map[]) == Fields(st[1..], values[1..], m1);
    assert Fields(st[1..], values[1..], m1) == Fields(st[2..], values[2..], m2);
    assert Fields(st[2..], values[2..], m2) == Fields(st[3..], values[3..], m3);
    var m4 := if Stored(st[3], values[3]) then m3[st[3].name := Raw(values[3])] else m3;
    assert Fields(st[3..], values[3..], m3) == Fields(st[3..][1..], values[3..][1..], m4);
    assert |st[3..][1..]| == 0;
  }

  /** Encoding and fields of a structure of three fixed-length fields
      followed by a variable-length one. */
  lemma FourFields(st: seq<ResponseField>, values: seq<seq<byte>>)
    requires |st| == 4 && |values| == 4
    requires st[0].len.Fixed? && st[1].len.Fixed? && st[2].len.Fixed? && st[3].len.Variable?
    ensures Encode(st, values) == values[0] + values[1] + values[2] + values[3]
    ensures var fields := map[st[0].name := Raw(values[0]), st[1].name := Raw(values[1]), st[2].name := Raw(values[2])];
            Fields(st, values, map[])
            == if |values[3]| == 0 then fields else fields[st[3].name := Raw(values[3])]
  {
    FourEncode(st, values);
    FourFieldsMap(st, values);
  }

  /** Splitting a payload of such a response: the three fixed fields and the
      trailing one when it is not empty, then the response's parsing rules. */
  lemma SplitFour(v: Variant, id: byte, values: seq<seq<byte>>)
    requires id in v.responses && FourShape(v.responses[id].structure) && |values| == 4
    requires var st := v.responses[id].structure;
             |values[0]| == st[0].len.n && |values[1]| == st[1].len.n && |values[2]| == st[2].len.n
    ensures Split(v, [id] + values[0] + values[1] + values[2] + values[3])
            == ApplyParsing(v.layout, v.responses[id].parsing,
                            Packet(v.responses[id].name, FourMap(v.responses[id].structure, values)))
  {
    var st := v.responses[id].structure;
    assert Fits(st, values) by {
      forall i | 0 <= i < 4
        ensures FitsField(st[i].len, values[i])
      {
      }
    }
    SplitRoundTrip(v, id, values);
    FourEncode(st, values);
    FourFieldsMap(st, values);
    assert [id] + (values[0] + values[1] + values[2] + values[3]) == [id] + values[0] + values[1] + values[2] + values[3];
  }
}
