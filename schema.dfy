/** The protocol description that the message generator reads: message types with their
    fields, and the custom (non-primitive) types those fields may refer to. The helpers of
    the generator's utility module, whose code is not part of this model, are passed in as
    function values. */
module Schema {

  datatype Option<T> = None | Some(value: T)

  /** One field of a message type. `bbwPosition` is meaningful only for flag fields
      (`useBBW`); `writeMethod` and `readMethod` (the schema's `method`) are absent
      for custom and polymorphic types. */
  datatype Field = Field(
    name: string,
    typeName: string,
    isVector: bool,
    useTypeManager: bool,
    useBBW: bool,
    bbwPosition: int,
    writeMethod: Option<string>,
    readMethod: Option<string>)

  /** A message type; `parent` is the empty string when the message derives from the
      network message base directly. */
  datatype Message = Message(
    name: string,
    package: string,
    protocolId: int,
    parent: string,
    fields: seq<Field>)

  /** A custom type that fields may use; only its name and package are consulted. */
  datatype TypeDecl = TypeDecl(name: string, package: string)

  datatype Protocol = Protocol(messages: seq<Message>, types: seq<TypeDecl>)

  /** The utility helpers: `realType` maps a schema type to its target-language type and
      returns "" for every non-primitive type, `defaultInit` gives the default initialiser
      of a target-language type, `cleanNamespace` turns a package into an import path. */
  datatype Helpers = Helpers(
    realType: string -> string,
    defaultInit: string -> string,
    cleanNamespace: string -> string)

  /** `s.find(x => key(x) === name)`: the first element whose key is `name`, if any. */
  function FindFirst<T>(s: seq<T>, key: T -> string, name: string): (r: Option<T>)
    ensures r.None? <==> forall k :: 0 <= k < |s| ==> key(s[k]) != name
    ensures r.Some? ==> exists k :: 0 <= k < |s| && s[k] == r.value && key(r.value) == name &&
                          forall j :: 0 <= j < k ==> key(s[j]) != name
  {
    if s == [] then None
    else if key(s[0]) == name then Some(s[0])
    else
      var r := FindFirst(s[1..], key, name);
      assert r.Some? ==> exists k :: 0 <= k < |s| - 1 && s[1..][k] == r.value && key(r.value) == name &&
                           forall j :: 0 <= j < k ==> key(s[1..][j]) != name;
      r
  }

  /** `types.find(ty => ty.name === name)`: the first custom type with that name. */
  function FindType(types: seq<TypeDecl>, name: string): Option<TypeDecl>
  {
    FindFirst(types, (t: TypeDecl) => t.name, name)
  }

  /** `messages.find(ty => ty.name === name)`: the first message type with that name. */
  function FindMessage(messages: seq<Message>, name: string): Option<Message>
  {
    FindFirst(messages, (m: Message) => m.name, name)
  }
}
