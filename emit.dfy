/** The vocabulary of the generated message class: every line the generator can emit, as
    an abstract instruction, and every import it can add, with the exact text of each. */
module Emit {
  import opened Text

  /** The three codec operations whose bodies are generated. */
  datatype Op = Reset | Serialize | Deserialize

  /** The fixed methods of a generated message class. */
  datatype MethodKind =
    | GetMessageIdMethod
    | ResetMethod
    | PackMethod
    | UnpackMethod
    | SerializeMethod
    | DeserializeMethod

  datatype Line =
    // the class body outside the three generated method bodies
    | StaticId(id: int)
    | Blank
    | Declare(field: string, ty: string, init: string)
    | Open(kind: MethodKind)
    | Close
    | ReturnId(className: string)
    | NewBuffer
    | SerializeIntoBuffer
    | WritePacket
    | DelegateUnpack
    // first line of a body when the message has a parent
    | SuperCall(op: Op)
    // reset
    | ResetTo(field: string, value: string)
    // flag fields
    | WriteFlag(field: string, position: int)
    | ReadFlag(field: string, position: int)
    // vector framing and per-element loops
    | WriteLength(field: string)
    | ReadLength(field: string)
    | ForEachElement(field: string)
    | ForEachIndex(field: string)
    | EndLoop
    | WriteElementTypeId
    | SerializeElement
    | WriteElement(writeMethod: string)
    | ResolveElement
    | NewElement(ty: string)
    | DeserializeElement
    | AppendElement(field: string)
    | AppendRead(field: string, readMethod: string)
    // scalar fields
    | SerializeField(field: string)
    | ResolveField(field: string)
    | NewField(field: string, ty: string)
    | DeserializeField(field: string)
    | WritePrimitive(writeMethod: string, field: string)
    | ReadPrimitive(field: string, readMethod: string)
    // the body of an operation that would otherwise be empty
    | Placeholder

  /** An entry of a generated file's import list. `RuntimeImports` stands for the fixed
      imports every message file starts with. */
  datatype Import =
    | RuntimeImports
    | ImportNamed(name: string, namespace: string)
    | TypeManagerImport
    | FlagWrapperImport

  function MethodHead(k: MethodKind): string
  {
    match k
    case GetMessageIdMethod => "  public getMessageId(): number {"
    case ResetMethod => "  public reset(): void {"
    case PackMethod => "  public pack(param1: ICustomDataOutput): void {"
    case UnpackMethod => "  public unpack(param1: ICustomDataInput): void {"
    case SerializeMethod => "  public serialize(writer: ICustomDataOutput): void {"
    case DeserializeMethod => "  public deserialize(reader: ICustomDataInput): void {"
  }

  /** The exact text of a line. */
  function Render(l: Line): string
  {
    match l
    case StaticId(id) => "  public static readonly ID: number = " + NumberText(id) + ";"
    case Blank => ""
    case Declare(f, ty, init) => "  public " + f + ": " + ty + " = " + init + ";"
    case Open(k) => MethodHead(k)
    case Close => "  }"
    case ReturnId(c) => "    return " + c + ".ID;"
    case NewBuffer => "    const loc2 = new ByteArray();"
    case SerializeIntoBuffer => "    this.serialize(new CustomDataWrapper(loc2));"
    case WritePacket => "    NetworkMessage.writePacket(param1, this.getMessageId(), loc2);"
    case DelegateUnpack => "    this.deserialize(param1);"
    case SuperCall(op) =>
      (match op
       case Reset => "    super.reset();"
       case Serialize => "    super.serialize(writer);"
       case Deserialize => "    super.deserialize(reader);")
    case ResetTo(f, v) => "    this." + f + " = " + v + ";"
    case WriteFlag(f, p) =>
      "    writer.writeByte(BooleanByteWrapper.setFlag(this." + f + ", " + NumberText(p) + "));"
    case ReadFlag(f, p) =>
      "    this." + f + " = BooleanByteWrapper.getFlag(reader.readByte(), " + NumberText(p) + ");"
    case WriteLength(f) => "    writer.writeShort(this." + f + ".length);"
    case ReadLength(f) => "    const " + f + "Length = reader.readUnsignedShort();"
    case ForEachElement(f) => "    for (const e of this." + f + ") {"
    case ForEachIndex(f) => "    for (let i = 0; i < " + f + "Length; i++) {"
    case EndLoop => "    }"
    case WriteElementTypeId => "      writer.writeShort(e.getTypeId());"
    case SerializeElement => "      e.serialize(writer);"
    case WriteElement(w) => "      writer." + w + "(e);"
    case ResolveElement => "      const e = ProtocolTypeManager.getInstance(reader.readUnsignedShort());"
    case NewElement(t) => "      const e = new " + t + "();"
    case DeserializeElement => "      e.deserialize(reader);"
    case AppendElement(f) => "      this." + f + ".push(e);"
    case AppendRead(f, r) => "      this." + f + ".push(reader." + r + "());"
    case SerializeField(f) => "    this." + f + ".serialize(writer);"
    case ResolveField(f) => "    this." + f + " = ProtocolTypeManager.getInstance(reader.readUnsignedShort());"
    case NewField(f, t) => "    this." + f + " = new " + t + "();"
    case DeserializeField(f) => "    this." + f + ".deserialize(reader);"
    case WritePrimitive(w, f) => "    writer." + w + "(this." + f + ");"
    case ReadPrimitive(f, r) => "    this." + f + " = reader." + r + "();"
    case Placeholder => "    //"
  }

  /** The exact text of an import entry. */
  function RenderImport(i: Import): seq<string>
  {
    match i
    case RuntimeImports => [
      "import ByteArray from \"@utils/ByteArray\";",
      "import { CustomDataWrapper } from \"@dofus/network/CustomDataWrapper\";",
      "import { ICustomDataInput } from \"@dofus/network/ICustomDataInput\";",
      "import { ICustomDataOutput } from \"@dofus/network/ICustomDataOutput\";",
      "import { INetworkMessage } from \"@dofus/network/INetworkMessage\";",
      "import { NetworkMessage } from \"@dofus/network/NetworkMessage\";"]
    case ImportNamed(n, ns) => ["import { " + n + " } from \"@" + ns + "/" + n + "\";"]
    case TypeManagerImport => ["import { ProtocolTypeManager } from \"@dofus/network/ProtocolTypeManager\";"]
    case FlagWrapperImport => ["import { BooleanByteWrapper } from \"@dofus/network/utils/BooleanByteWrapper\";"]
  }
}
