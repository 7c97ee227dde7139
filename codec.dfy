/** Codec emission for one message type: the field declarations, the `reset`, `serialize`
    and `deserialize` bodies, and the imports the message file needs. The functions below
    specify what is emitted; `BuildMessage` emits it the way the generator does, by
    appending line after line, and is proved to produce exactly what they specify. */
module Codec {
  import opened Schema
  import opened Text
  import opened Layout
  import opened Emit

  /** How a template literal prints an optional string. */
  function OptionText(o: Option<string>): string
  {
    match o
    case None => "undefined"
    case Some(s) => s
  }

  /** The read method of a primitive scalar field: its write method with the first "write"
      replaced by "read", or the field's own `method` when the write method is absent or
      empty. */
  function ScalarReadMethod(o: Field): string
  {
    if o.writeMethod.Some? && o.writeMethod.value != "" then ReplaceFirst(o.writeMethod.value, "write", "read")
    else OptionText(o.readMethod)
  }

  /** The read method of a primitive vector's elements: there is no fallback here, an
      absent write method prints as "undefined". */
  function ElementReadMethod(o: Field): string
  {
    match o.writeMethod
    case None => "undefined"
    case Some(w) => ReplaceFirst(w, "write", "read")
  }

  /** The `serialize` lines of an ordinary field. */
  function SerializeLines(h: Helpers, o: Field): seq<Line>
  {
    match StrategyOf(h, o)
    case PrimitiveScalar => [WritePrimitive(OptionText(o.writeMethod), o.name)]
    case CustomScalar => [SerializeField(o.name)]
    case PolymorphicScalar => [SerializeField(o.name)]
    case PrimitiveVector =>
      [WriteLength(o.name), ForEachElement(o.name), WriteElement(OptionText(o.writeMethod)), EndLoop]
    case ObjectVector =>
      [WriteLength(o.name), ForEachElement(o.name), WriteElementTypeId, SerializeElement, EndLoop]
  }

  /** The `deserialize` lines of an ordinary field. */
  function DeserializeLines(h: Helpers, o: Field): seq<Line>
  {
    match StrategyOf(h, o)
    case PrimitiveScalar => [ReadPrimitive(o.name, ScalarReadMethod(o))]
    case CustomScalar => [NewField(o.name, o.typeName), DeserializeField(o.name)]
    case PolymorphicScalar => [ResolveField(o.name), DeserializeField(o.name)]
    case PrimitiveVector =>
      [ReadLength(o.name), ForEachIndex(o.name), AppendRead(o.name, ElementReadMethod(o)), EndLoop]
    case ObjectVector =>
      [ReadLength(o.name), ForEachIndex(o.name)]
      + (if o.useTypeManager then [ResolveElement] else [NewElement(o.typeName)])
      + [DeserializeElement, AppendElement(o.name), EndLoop]
  }

  /** The lines an ordinary field contributes to the body of `op`. */
  function FieldLines(h: Helpers, o: Field, op: Op): seq<Line>
  {
    match op
    case Reset => [ResetTo(o.name, InitText(h, o))]
    case Serialize => SerializeLines(h, o)
    case Deserialize => DeserializeLines(h, o)
  }

  /** The line a flag field contributes to the body of `op`. */
  function FlagLine(b: Field, op: Op): Line
  {
    match op
    case Reset => ResetTo(b.name, "false")
    case Serialize => WriteFlag(b.name, b.bbwPosition)
    case Deserialize => ReadFlag(b.name, b.bbwPosition)
  }

  /** `acc` followed by the lines the flag fields `bs` contribute to the body of `op`. */
  function FlagLines(acc: seq<Line>, bs: seq<Field>, op: Op): (r: seq<Line>)
    ensures |r| == |acc| + |bs|
  {
    if bs == [] then acc else FlagLines(acc, bs[..|bs| - 1], op) + [FlagLine(bs[|bs| - 1], op)]
  }

  /** `acc` followed by the declarations of the flag fields `bs`. */
  function FlagDecls(acc: seq<Line>, bs: seq<Field>): (r: seq<Line>)
    ensures |r| == |acc| + |bs|
  {
    if bs == [] then acc else FlagDecls(acc, bs[..|bs| - 1]) + [Declare(bs[|bs| - 1].name, "boolean", "false")]
  }

  /** `acc` followed by the declarations of the ordinary fields `os`. */
  function FieldDecls(h: Helpers, acc: seq<Line>, os: seq<Field>): (r: seq<Line>)
    ensures |r| == |acc| + |os|
  {
    if os == [] then acc
    else
      var o := os[|os| - 1];
      FieldDecls(h, acc, os[..|os| - 1]) + [Declare(o.name, TypeText(h, o), InitText(h, o))]
  }

  /** `acc` followed by the lines the ordinary fields `os` contribute to the body of `op`,
      field after field. */
  function FieldBodies(h: Helpers, acc: seq<Line>, os: seq<Field>, op: Op): seq<Line>
  {
    if os == [] then acc else FieldBodies(h, acc, os[..|os| - 1], op) + FieldLines(h, os[|os| - 1], op)
  }

  /** 1 when the message has a parent, whose operation is called first, else 0. */
  function ParentCount(m: Message): nat
  {
    if m.parent != "" then 1 else 0
  }

  function ParentCall(m: Message, op: Op): (r: seq<Line>)
    ensures |r| == ParentCount(m)
  {
    if m.parent != "" then [SuperCall(op)] else []
  }

  /** A body before the placeholder rule: parent call, flag fields, ordinary fields. */
  function BodyLines(h: Helpers, m: Message, op: Op): seq<Line>
  {
    FieldBodies(h, FlagLines(ParentCall(m, op), SortedFlags(m.fields), op), Ordinary(m.fields), op)
  }

  /** An empty body is replaced by the placeholder line. */
  function Filled(body: seq<Line>): seq<Line>
  {
    if |body| == 0 then [Placeholder] else body
  }

  /** The generated body of `op`. */
  function Body(h: Helpers, m: Message, op: Op): seq<Line>
  {
    Filled(BodyLines(h, m, op))
  }

  /** The first lines of the class body: the static id, then a blank line if there are
      fields to declare. */
  function Head(m: Message): seq<Line>
  {
    [StaticId(m.protocolId)] + (if |m.fields| > 0 then [Blank] else [])
  }

  /** The field declarations: flag fields first, in sorted order, then ordinary fields. */
  function Declarations(h: Helpers, m: Message): seq<Line>
  {
    FieldDecls(h, FlagDecls([], SortedFlags(m.fields)), Ordinary(m.fields))
  }

  /** The class body after the field declarations `decls`, given the three bodies before
      the placeholder rule: `getMessageId`, `reset`, `pack`, `unpack`, `serialize` and
      `deserialize`, each preceded by a blank line. */
  function ClassLines(m: Message, decls: seq<Line>, resetBody: seq<Line>, serializeBody: seq<Line>,
                      deserializeBody: seq<Line>): seq<Line>
  {
    decls
    + [Blank, Open(GetMessageIdMethod), ReturnId(m.name), Close]
    + [Blank, Open(ResetMethod)] + Filled(resetBody) + [Close]
    + [Blank, Open(PackMethod), NewBuffer, SerializeIntoBuffer, WritePacket, Close]
    + [Blank, Open(UnpackMethod), DelegateUnpack, Close]
    + [Blank, Open(SerializeMethod)] + Filled(serializeBody) + [Close]
    + [Blank, Open(DeserializeMethod)] + Filled(deserializeBody) + [Close]
  }

  /** The complete list of lines of the generated class body (between the class header and
      its closing brace). */
  function MessageData(h: Helpers, m: Message): seq<Line>
  {
    ClassLines(m, FieldDecls(h, FlagDecls(Head(m), SortedFlags(m.fields)), Ordinary(m.fields)),
               BodyLines(h, m, Reset), BodyLines(h, m, Serialize), BodyLines(h, m, Deserialize))
  }

  /** The names of the custom types among `os`. */
  function CustomTypes(h: Helpers, os: seq<Field>): set<string>
  {
    if os == [] then {}
    else
      var o := os[|os| - 1];
      CustomTypes(h, os[..|os| - 1]) + (if IsCustom(h, o) then {o.typeName} else {})
  }

  /** Whether some field among `os` is resolved through the type manager. */
  function AnyTypeManager(os: seq<Field>): bool
  {
    if os == [] then false else AnyTypeManager(os[..|os| - 1]) || os[|os| - 1].useTypeManager
  }

  /** Every custom type used by an ordinary field is declared in the protocol: the generator
      looks each of them up with a non-null assertion. */
  predicate CustomTypesDeclared(h: Helpers, p: Protocol, os: seq<Field>)
  {
    forall o :: o in os && IsCustom(h, o) ==> FindType(p.types, o.typeName).Some?
  }

  /** The imports added for one ordinary field, given the custom types already imported and
      whether the type manager is already imported. */
  function FieldImport(h: Helpers, p: Protocol, o: Field, seen: set<string>, managerImported: bool): seq<Import>
    requires IsCustom(h, o) ==> FindType(p.types, o.typeName).Some?
  {
    (if IsCustom(h, o) && o.typeName !in seen
     then [ImportNamed(o.typeName, h.cleanNamespace(FindType(p.types, o.typeName).value.package))]
     else [])
    + (if o.useTypeManager && !managerImported then [TypeManagerImport] else [])
  }

  /** `acc` followed by the imports added for the ordinary fields `os`. */
  function FieldImports(h: Helpers, p: Protocol, acc: seq<Import>, os: seq<Field>): seq<Import>
    requires CustomTypesDeclared(h, p, os)
  {
    if os == [] then acc
    else
      var init, o := os[..|os| - 1], os[|os| - 1];
      assert o in os;
      FieldImports(h, p, acc, init) + FieldImport(h, p, o, CustomTypes(h, init), AnyTypeManager(init))
  }

  function FlagImport(m: Message): seq<Import>
  {
    if |Flags(m.fields)| > 0 then [FlagWrapperImport] else []
  }

  /** The imports that generating message `m` appends to its file's import list. */
  function AddedImports(h: Helpers, p: Protocol, m: Message): seq<Import>
    requires CustomTypesDeclared(h, p, Ordinary(m.fields))
  {
    FieldImports(h, p, FlagImport(m), Ordinary(m.fields))
  }

  lemma {:induction false} FieldImportsShift(h: Helpers, p: Protocol, a: seq<Import>, b: seq<Import>, os: seq<Field>)
    requires CustomTypesDeclared(h, p, os)
    ensures FieldImports(h, p, a + b, os) == a + FieldImports(h, p, b, os)
  {
    if os != [] {
      var init, o := os[..|os| - 1], os[|os| - 1];
      assert o in os;
      assert CustomTypesDeclared(h, p, init) by {
        forall x | x in init && IsCustom(h, x)
          ensures FindType(p.types, x.typeName).Some?
        {
          assert x in os;
        }
      }
      var last := FieldImport(h, p, o, CustomTypes(h, init), AnyTypeManager(init));
      assert FieldImports(h, p, a + b, os) == FieldImports(h, p, a + b, init) + last;
      assert FieldImports(h, p, b, os) == FieldImports(h, p, b, init) + last;
      FieldImportsShift(h, p, a, b, init);
    }
  }

  /** Resolves the type of ordinary field `o`, imports it if it is a custom type not yet
      imported, declares the field, resets it, and imports the type manager if the field
      needs it and it is not imported yet. */
  method DeclareField(h: Helpers, p: Protocol, o: Field, data: seq<Line>, resetBody: seq<Line>,
                      imports: seq<Import>, usedImports: set<string>, managerImported: bool)
    returns (dataOut: seq<Line>, resetOut: seq<Line>, importsOut: seq<Import>,
             usedOut: set<string>, managerOut: bool)
    requires IsCustom(h, o) ==> FindType(p.types, o.typeName).Some?
    ensures dataOut == data + [Declare(o.name, TypeText(h, o), InitText(h, o))]
    ensures resetOut == resetBody + FieldLines(h, o, Reset)
    ensures importsOut == imports + FieldImport(h, p, o, usedImports, managerImported)
    ensures usedOut == usedImports + (if IsCustom(h, o) then {o.typeName} else {})
    ensures managerOut == (managerImported || o.useTypeManager)
    // the declared type and initial value, case by case; `reset` assigns the same value
    ensures o.isVector ==>
      var t := if IsCustom(h, o) then o.typeName else h.realType(o.typeName);
      dataOut == data + [Declare(o.name, t + "[]", "[]")] && resetOut == resetBody + [ResetTo(o.name, "[]")]
    ensures !o.isVector && IsCustom(h, o) ==>
      var init := "new " + o.typeName + "()";
      dataOut == data + [Declare(o.name, o.typeName, init)] && resetOut == resetBody + [ResetTo(o.name, init)]
    ensures !o.isVector && !IsCustom(h, o) ==>
      var t := h.realType(o.typeName);
      dataOut == data + [Declare(o.name, t, h.defaultInit(t))] && resetOut == resetBody + [ResetTo(o.name, h.defaultInit(t))]
  {
    importsOut, usedOut, managerOut := imports, usedImports, managerImported;
    var realType := h.realType(o.typeName);
    var initValue := h.defaultInit(realType);
    var isCustomType := realType == "";
    if isCustomType {
      var alreadyImported := o.typeName in usedOut;
      if !alreadyImported {
        var t := FindType(p.types, o.typeName);
        importsOut := importsOut + [ImportNamed(o.typeName, h.cleanNamespace(t.value.package))];
        usedOut := usedOut + {o.typeName};
      }
      realType := o.typeName;
      initValue := "new " + o.typeName + "()";
    }
    assert realType == BaseType(h, o);
    if o.isVector {
      realType := realType + "[]";
      initValue := "[]";
    } else {
      assert realType + "" == realType;
    }
    assert realType == TypeText(h, o) && initValue == InitText(h, o);
    dataOut := data + [Declare(o.name, realType, initValue)];
    resetOut := resetBody + [ResetTo(o.name, initValue)];

    ghost var customImports := importsOut;
    if o.useTypeManager && !managerOut {
      importsOut := importsOut + [TypeManagerImport];
      managerOut := true;
    }
    assert dataOut == data + [Declare(o.name, TypeText(h, o), InitText(h, o))];
    assert resetOut == resetBody + FieldLines(h, o, Reset);
    assert usedOut == usedImports + (if IsCustom(h, o) then {o.typeName} else {});
    assert customImports == imports + (if IsCustom(h, o) && o.typeName !in usedImports
      then [ImportNamed(o.typeName, h.cleanNamespace(FindType(p.types, o.typeName).value.package))] else []);
  }

  /** Appends the `serialize` lines of ordinary field `o`. */
  method EmitSerialize(h: Helpers, o: Field, serializeBody: seq<Line>) returns (out: seq<Line>)
    ensures out == serializeBody + SerializeLines(h, o)
  {
    out := serializeBody;
    var isCustomType := h.realType(o.typeName) == "";
    if o.isVector {
      out := out + [WriteLength(o.name)];
      if o.useTypeManager || isCustomType {
        out := out + [ForEachElement(o.name), WriteElementTypeId, SerializeElement, EndLoop];
      } else {
        out := out + [ForEachElement(o.name), WriteElement(OptionText(o.writeMethod)), EndLoop];
      }
    } else {
      if o.useTypeManager {
        out := out + [SerializeField(o.name)];
      } else {
        if isCustomType {
          out := out + [SerializeField(o.name)];
        } else {
          out := out + [WritePrimitive(OptionText(o.writeMethod), o.name)];
        }
      }
    }
  }

  /** Appends the `deserialize` lines of ordinary field `o`. */
  method EmitDeserialize(h: Helpers, o: Field, deserializeBody: seq<Line>) returns (out: seq<Line>)
    ensures out == deserializeBody + DeserializeLines(h, o)
  {
    out := deserializeBody;
    var isCustomType := h.realType(o.typeName) == "";
    if o.isVector {
      out := out + [ReadLength(o.name)];
      if o.useTypeManager || isCustomType {
        if o.useTypeManager {
          out := out + [ForEachIndex(o.name), ResolveElement, DeserializeElement, AppendElement(o.name), EndLoop];
        } else {
          out := out + [ForEachIndex(o.name), NewElement(o.typeName), DeserializeElement, AppendElement(o.name), EndLoop];
        }
      } else {
        out := out + [ForEachIndex(o.name), AppendRead(o.name, ElementReadMethod(o)), EndLoop];
      }
    } else {
      if o.useTypeManager {
        out := out + [ResolveField(o.name)];
        out := out + [DeserializeField(o.name)];
      } else {
        if isCustomType {
          out := out + [NewField(o.name, o.typeName)];
          out := out + [DeserializeField(o.name)];
        } else {
          out := out + [ReadPrimitive(o.name, ScalarReadMethod(o))];
        }
      }
    }
  }

  /** Declares the sorted flag fields `bbw` and appends their `reset`, `serialize` and
      `deserialize` lines. */
  method EmitFlags(bbw: seq<Field>, data: seq<Line>, resetBody: seq<Line>, serializeBody: seq<Line>,
                   deserializeBody: seq<Line>)
    returns (dataOut: seq<Line>, resetOut: seq<Line>, serializeOut: seq<Line>, deserializeOut: seq<Line>)
    ensures dataOut == FlagDecls(data, bbw)
    ensures resetOut == FlagLines(resetBody, bbw, Reset)
    ensures serializeOut == FlagLines(serializeBody, bbw, Serialize)
    ensures deserializeOut == FlagLines(deserializeBody, bbw, Deserialize)
  {
    dataOut, resetOut, serializeOut, deserializeOut := data, resetBody, serializeBody, deserializeBody;
    var i := 0;
    while i < |bbw|
      invariant 0 <= i <= |bbw|
      invariant dataOut == FlagDecls(data, bbw[..i])
      invariant resetOut == FlagLines(resetBody, bbw[..i], Reset)
      invariant serializeOut == FlagLines(serializeBody, bbw[..i], Serialize)
      invariant deserializeOut == FlagLines(deserializeBody, bbw[..i], Deserialize)
    {
      var b := bbw[i];
      assert bbw[..i + 1][..i] == bbw[..i];
      dataOut := dataOut + [Declare(b.name, "boolean", "false")];
      resetOut := resetOut + [ResetTo(b.name, "false")];
      serializeOut := serializeOut + [WriteFlag(b.name, b.bbwPosition)];
      deserializeOut := deserializeOut + [ReadFlag(b.name, b.bbwPosition)];
      i := i + 1;
    }
    assert bbw[..i] == bbw;
  }

  /** Declares the ordinary fields `others`, appends their `reset`, `serialize` and
      `deserialize` lines, and imports what they need, each custom type and the type manager
      at most once. */
  method EmitFields(h: Helpers, p: Protocol, others: seq<Field>, data: seq<Line>, resetBody: seq<Line>,
                    serializeBody: seq<Line>, deserializeBody: seq<Line>, imports: seq<Import>)
    returns (dataOut: seq<Line>, resetOut: seq<Line>, serializeOut: seq<Line>, deserializeOut: seq<Line>,
             importsOut: seq<Import>)
    requires CustomTypesDeclared(h, p, others)
    ensures dataOut == FieldDecls(h, data, others)
    ensures resetOut == FieldBodies(h, resetBody, others, Reset)
    ensures serializeOut == FieldBodies(h, serializeBody, others, Serialize)
    ensures deserializeOut == FieldBodies(h, deserializeBody, others, Deserialize)
    ensures importsOut == FieldImports(h, p, imports, others)
  {
    dataOut, resetOut, serializeOut, deserializeOut, importsOut :=
      data, resetBody, serializeBody, deserializeBody, imports;
    // The generator keeps a map whose only use is membership: a set of type names.
    var usedImports: set<string> := {};
    var protocolTypeManagerAlreadyImported := false;

    var j := 0;
    while j < |others|
      invariant 0 <= j <= |others|
      invariant dataOut == FieldDecls(h, data, others[..j])
      invariant resetOut == FieldBodies(h, resetBody, others[..j], Reset)
      invariant serializeOut == FieldBodies(h, serializeBody, others[..j], Serialize)
      invariant deserializeOut == FieldBodies(h, deserializeBody, others[..j], Deserialize)
      invariant importsOut == FieldImports(h, p, imports, others[..j])
      invariant usedImports == CustomTypes(h, others[..j])
      invariant protocolTypeManagerAlreadyImported == AnyTypeManager(others[..j])
    {
      var o := others[j];
      assert others[..j + 1][..j] == others[..j];
      assert others[..j + 1][j] == o;
      assert o in others;
      dataOut, resetOut, importsOut, usedImports, protocolTypeManagerAlreadyImported :=
        DeclareField(h, p, o, dataOut, resetOut, importsOut, usedImports, protocolTypeManagerAlreadyImported);
      serializeOut := EmitSerialize(h, o, serializeOut);
      deserializeOut := EmitDeserialize(h, o, deserializeOut);
      j := j + 1;
    }
    assert others[..j] == others;
  }

  /** Appends the six methods of the generated class to the declarations `data`; an empty
      body gets the placeholder line. */
  method EmitMethods(m: Message, data: seq<Line>, resetBody: seq<Line>, serializeBody: seq<Line>,
                     deserializeBody: seq<Line>)
    returns (dataOut: seq<Line>)
    ensures dataOut == ClassLines(m, data, resetBody, serializeBody, deserializeBody)
  {
    dataOut := data;
    var resetOut, serializeOut, deserializeOut := resetBody, serializeBody, deserializeBody;
    dataOut := dataOut + [Blank, Open(GetMessageIdMethod), ReturnId(m.name), Close];

    dataOut := dataOut + [Blank, Open(ResetMethod)];
    if |resetOut| == 0 {
      resetOut := resetOut + [Placeholder];
    }
    assert resetOut == Filled(resetBody);
    dataOut := dataOut + resetOut;
    dataOut := dataOut + [Close];

    dataOut := dataOut + [Blank, Open(PackMethod), NewBuffer, SerializeIntoBuffer, WritePacket, Close];

    dataOut := dataOut + [Blank, Open(UnpackMethod), DelegateUnpack, Close];

    dataOut := dataOut + [Blank, Open(SerializeMethod)];
    if |serializeOut| == 0 {
      serializeOut := serializeOut + [Placeholder];
    }
    assert serializeOut == Filled(serializeBody);
    dataOut := dataOut + serializeOut;
    dataOut := dataOut + [Close];

    dataOut := dataOut + [Blank, Open(DeserializeMethod)];
    if |deserializeOut| == 0 {
      deserializeOut := deserializeOut + [Placeholder];
    }
    assert deserializeOut == Filled(deserializeBody);
    dataOut := dataOut + deserializeOut;
    dataOut := dataOut + [Close];
  }

  /** Generates the class body of message `m`. The generator appends to the caller's import
      list in place; here the list comes in as `imports` and goes out as `importsOut`. */
  method BuildMessage(h: Helpers, p: Protocol, m: Message, imports: seq<Import>)
    returns (data: seq<Line>, importsOut: seq<Import>)
    requires CustomTypesDeclared(h, p, Ordinary(m.fields))
    ensures data == MessageData(h, m)
    ensures importsOut == imports + AddedImports(h, p, m)
  {
    data := [StaticId(m.protocolId)];
    if |m.fields| > 0 {
      data := data + [Blank];
    }
    assert data == Head(m);

    var bbw := Flags(m.fields);
    var others := Ordinary(m.fields);

    var resetBody: seq<Line> := [];
    var serializeBody: seq<Line> := [];
    var deserializeBody: seq<Line> := [];
    importsOut := imports;

    if m.parent != "" {
      resetBody := resetBody + [SuperCall(Reset)];
      serializeBody := serializeBody + [SuperCall(Serialize)];
      deserializeBody := deserializeBody + [SuperCall(Deserialize)];
    }
    assert resetBody == ParentCall(m, Reset);
    assert serializeBody == ParentCall(m, Serialize);
    assert deserializeBody == ParentCall(m, Deserialize);

    if |bbw| > 0 {
      importsOut := importsOut + [FlagWrapperImport];
      bbw := SortByPosition(bbw);
      data, resetBody, serializeBody, deserializeBody := EmitFlags(bbw, data, resetBody, serializeBody, deserializeBody);
    } else {
      assert importsOut == imports + FlagImport(m);
    }

    data, resetBody, serializeBody, deserializeBody, importsOut :=
      EmitFields(h, p, others, data, resetBody, serializeBody, deserializeBody, importsOut);
    FieldImportsShift(h, p, imports, FlagImport(m), others);

    data := EmitMethods(m, data, resetBody, serializeBody, deserializeBody);
  }
}
