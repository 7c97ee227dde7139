/** Generation of the whole protocol: one message file per message type, the index that
    imports and re-exports every message class, and the receiver's table that maps each
    protocol id to a constructor of its class. */
module Registry {
  import opened Schema
  import opened Text
  import opened Layout
  import opened Emit
  import opened Codec
  import opened ImportFacts

  /** A generated message file: the folder it is written to, the class name (the file is
      `<name>.ts`), its import list, the class it extends and its class body. */
  datatype MessageFile = MessageFile(
    folder: string,
    name: string,
    imports: seq<Import>,
    superclass: string,
    body: seq<Line>)

  /** The generator can build message `m`: its parent, if any, is a message of the
      protocol, and every custom type of its ordinary fields is declared. Both are looked up
      with non-null assertions, so a message that breaks either makes the generator fail. */
  predicate Generatable(h: Helpers, p: Protocol, m: Message)
  {
    (m.parent != "" ==> FindMessage(p.messages, m.parent).Some?)
    && CustomTypesDeclared(h, p, Ordinary(m.fields))
  }

  /** The imports a message file starts with: the fixed runtime imports, then its parent
      class when it has one. */
  function BaseImports(h: Helpers, p: Protocol, m: Message): seq<Import>
    requires Generatable(h, p, m)
  {
    [RuntimeImports]
    + (if m.parent != ""
       then [ImportNamed(m.parent, h.cleanNamespace(FindMessage(p.messages, m.parent).value.package))]
       else [])
  }

  /** The import list of the file generated for message `m`. */
  function FileImportList(h: Helpers, p: Protocol, m: Message): seq<Import>
    requires Generatable(h, p, m)
  {
    BaseImports(h, p, m) + AddedImports(h, p, m)
  }

  /** The file generated for message `m`. */
  function MessageFileOf(h: Helpers, p: Protocol, m: Message): MessageFile
    requires Generatable(h, p, m)
  {
    MessageFile(
      h.cleanNamespace(m.package),
      m.name,
      FileImportList(h, p, m),
      if m.parent != "" then m.parent else "NetworkMessage",
      MessageData(h, m))
  }

  /** The receiver's table entry for `m`, without its trailing comma. */
  function Entry(m: Message): string
  {
    "    " + NumberText(m.protocolId) + ": () => new Messages." + m.name + "()"
  }

  /** The index's re-export of `m`, without its trailing comma. */
  function Export(m: Message): string
  {
    "  " + m.name
  }

  /** The index's import of `m`'s class. */
  function IndexImport(h: Helpers, m: Message): Import
  {
    ImportNamed(m.name, h.cleanNamespace(m.package))
  }

  function MessageFiles(h: Helpers, p: Protocol, ms: seq<Message>): (r: seq<MessageFile>)
    requires forall m :: m in ms ==> Generatable(h, p, m)
    ensures |r| == |ms|
  {
    if ms == [] then []
    else
      assert ms[|ms| - 1] in ms;
      MessageFiles(h, p, ms[..|ms| - 1]) + [MessageFileOf(h, p, ms[|ms| - 1])]
  }

  function IndexImports(h: Helpers, ms: seq<Message>): (r: seq<Import>)
    ensures |r| == |ms|
  {
    if ms == [] then [] else IndexImports(h, ms[..|ms| - 1]) + [IndexImport(h, ms[|ms| - 1])]
  }

  /** Every entry followed by a comma. */
  function EntryLines(ms: seq<Message>): (r: seq<string>)
    ensures |r| == |ms|
  {
    if ms == [] then [] else EntryLines(ms[..|ms| - 1]) + [Entry(ms[|ms| - 1]) + ","]
  }

  /** The index opening line, then every export followed by a comma. */
  function ExportLines(ms: seq<Message>): (r: seq<string>)
    ensures |r| == |ms| + 1
  {
    if ms == [] then ["export default {"] else ExportLines(ms[..|ms| - 1]) + [Export(ms[|ms| - 1]) + ","]
  }

  /** `lines` with the last character of its last line removed. */
  function StripLast(lines: seq<string>): (r: seq<string>)
    requires |lines| > 0
    ensures |r| == |lines|
  {
    lines[..|lines| - 1] + [DropLast(lines[|lines| - 1])]
  }

  /** Builds the file of one message. */
  method BuildMessageFile(h: Helpers, p: Protocol, m: Message) returns (file: MessageFile)
    requires Generatable(h, p, m)
    ensures file == MessageFileOf(h, p, m)
  {
    var clean := h.cleanNamespace(m.package);
    var importsFile := [RuntimeImports];
    if m.parent != "" {
      var parent := FindMessage(p.messages, m.parent);
      importsFile := importsFile + [ImportNamed(m.parent, h.cleanNamespace(parent.value.package))];
    }
    assert importsFile == BaseImports(h, p, m);
    var superclass := if m.parent != "" then m.parent else "NetworkMessage";
    var body;
    body, importsFile := BuildMessage(h, p, m, importsFile);
    file := MessageFile(clean, m.name, importsFile, superclass, body);
  }

  /** Generates every message file, the index and the receiver's table. The protocol must
      have at least one message: the generator strips the comma of the last table entry,
      which does not exist otherwise. */
  method BuildMessages(h: Helpers, p: Protocol)
    returns (files: seq<MessageFile>, importsIndex: seq<Import>, exportsIndex: seq<string>, entries: seq<string>)
    requires |p.messages| > 0
    requires forall m :: m in p.messages ==> Generatable(h, p, m)
    ensures files == MessageFiles(h, p, p.messages)
    ensures importsIndex == IndexImports(h, p.messages)
    ensures exportsIndex == StripLast(ExportLines(p.messages)) + ["};\n"]
    ensures entries == StripLast(EntryLines(p.messages))
  {
    var ms := p.messages;
    importsIndex, entries, files := [], [], [];
    exportsIndex := ["export default {"];
    var i := 0;
    while i < |ms|
      invariant 0 <= i <= |ms|
      invariant files == MessageFiles(h, p, ms[..i])
      invariant importsIndex == IndexImports(h, ms[..i])
      invariant entries == EntryLines(ms[..i])
      invariant exportsIndex == ExportLines(ms[..i])
    {
      var m := ms[i];
      assert ms[..i + 1][..i] == ms[..i];
      assert ms[..i + 1][i] == m;
      assert m in ms;
      importsIndex := importsIndex + [IndexImport(h, m)];
      entries := entries + [Entry(m) + ","];
      exportsIndex := exportsIndex + [Export(m) + ","];
      var file := BuildMessageFile(h, p, m);
      files := files + [file];
      i := i + 1;
    }
    assert ms[..i] == ms;

    var lastExport := exportsIndex[|exportsIndex| - 1];
    exportsIndex := exportsIndex[..|exportsIndex| - 1];
    exportsIndex := exportsIndex + [DropLast(lastExport)];
    var lastEntry := entries[|entries| - 1];
    entries := entries[..|entries| - 1];
    entries := entries + [DropLast(lastEntry)];
    exportsIndex := exportsIndex + ["};\n"];
  }

  /** The table the generated receiver looks protocol ids up in. Its entries are written in
      message order as one object literal, in which a later entry for the same id replaces
      an earlier one. */
  function Dispatch(ms: seq<Message>): map<int, string>
  {
    if ms == [] then map[] else Dispatch(ms[..|ms| - 1])[ms[|ms| - 1].protocolId := ms[|ms| - 1].name]
  }

  /** The receiver's parse step: the class to instantiate for `id`, or `None` where the
      generated code throws its "unknown" error. */
  function Lookup(ms: seq<Message>, id: int): (r: Option<string>)
    ensures r.None? <==> forall i :: 0 <= i < |ms| ==> ms[i].protocolId != id
    ensures r.Some? ==> exists i :: 0 <= i < |ms| && ms[i].protocolId == id && ms[i].name == r.value
  {
    DispatchKeys(ms);
    if id in Dispatch(ms) then
      DispatchFromMessage(ms, id);
      Some(Dispatch(ms)[id])
    else
      None
  }

  lemma {:induction false} EntryLinesAt(ms: seq<Message>, i: nat)
    requires i < |ms|
    ensures EntryLines(ms)[i] == Entry(ms[i]) + ","
  {
    if i < |ms| - 1 {
      EntryLinesAt(ms[..|ms| - 1], i);
    }
  }

  lemma {:induction false} ExportLinesAt(ms: seq<Message>, i: nat)
    requires i < |ms|
    ensures ExportLines(ms)[0] == "export default {"
    ensures ExportLines(ms)[i + 1] == Export(ms[i]) + ","
  {
    if |ms| > 1 {
      ExportLinesAt(ms[..|ms| - 1], if i < |ms| - 1 then i else 0);
    }
  }

  lemma {:induction false} IndexImportsAt(h: Helpers, ms: seq<Message>, i: nat)
    requires i < |ms|
    ensures IndexImports(h, ms)[i] == IndexImport(h, ms[i])
  {
    if i < |ms| - 1 {
      IndexImportsAt(h, ms[..|ms| - 1], i);
    }
  }

  lemma {:induction false} MessageFilesAt(h: Helpers, p: Protocol, ms: seq<Message>, i: nat)
    requires forall m :: m in ms ==> Generatable(h, p, m)
    requires i < |ms|
    ensures ms[i] in ms && MessageFiles(h, p, ms)[i] == MessageFileOf(h, p, ms[i])
  {
    if i < |ms| - 1 {
      assert forall m :: m in ms[..|ms| - 1] ==> m in ms;
      MessageFilesAt(h, p, ms[..|ms| - 1], i);
    }
  }

  /** Removing the last character of a line that ends in a comma removes that comma. */
  lemma DropComma(s: string)
    ensures DropLast(s + ",") == s
  {
    assert (s + ",")[..|s|] == s;
  }

  /** One generated file per message, in message order. */
  lemma FilesLayout(h: Helpers, p: Protocol)
    requires forall m :: m in p.messages ==> Generatable(h, p, m)
    ensures |MessageFiles(h, p, p.messages)| == |p.messages|
    ensures forall i :: 0 <= i < |p.messages| ==> MessageFiles(h, p, p.messages)[i] == MessageFileOf(h, p, p.messages[i])
  {
    forall i | 0 <= i < |p.messages|
      ensures MessageFiles(h, p, p.messages)[i] == MessageFileOf(h, p, p.messages[i])
    {
      MessageFilesAt(h, p, p.messages, i);
    }
  }

  /** The index imports each message's class once, in message order, from the class's
      own file in the folder of its package. */
  lemma IndexImportsLayout(h: Helpers, ms: seq<Message>)
    ensures |IndexImports(h, ms)| == |ms|
    ensures forall i :: 0 <= i < |ms| ==> IndexImports(h, ms)[i] == ImportNamed(ms[i].name, h.cleanNamespace(ms[i].package))
  {
    forall i | 0 <= i < |ms|
      ensures IndexImports(h, ms)[i] == ImportNamed(ms[i].name, h.cleanNamespace(ms[i].package))
    {
      IndexImportsAt(h, ms, i);
    }
  }

  /** One receiver entry per message, in message order; each keeps its comma except the last. */
  lemma EntriesLayout(ms: seq<Message>)
    requires |ms| > 0
    ensures |StripLast(EntryLines(ms))| == |ms|
    ensures forall i :: 0 <= i < |ms| ==> StripLast(EntryLines(ms))[i] == Entry(ms[i]) + (if i < |ms| - 1 then "," else "")
  {
    forall i | 0 <= i < |ms|
      ensures StripLast(EntryLines(ms))[i] == Entry(ms[i]) + (if i < |ms| - 1 then "," else "")
    {
      EntryLinesAt(ms, i);
      DropComma(Entry(ms[i]));
    }
  }

  /** The index's export list opens with `export default {`, re-exports each message in
      message order with a comma after every one but the last, and closes with `};`. */
  lemma ExportsLayout(ms: seq<Message>)
    requires |ms| > 0
    ensures var exports := StripLast(ExportLines(ms)) + ["};\n"];
      |exports| == |ms| + 2
      && exports[0] == "export default {"
      && (forall i :: 0 <= i < |ms| ==> exports[i + 1] == Export(ms[i]) + (if i < |ms| - 1 then "," else ""))
      && exports[|ms| + 1] == "};\n"
  {
    var exports := StripLast(ExportLines(ms)) + ["};\n"];
    forall i | 0 <= i < |ms|
      ensures exports[i + 1] == Export(ms[i]) + (if i < |ms| - 1 then "," else "")
    {
      ExportLinesAt(ms, i);
      DropComma(Export(ms[i]));
    }
    ExportLinesAt(ms, 0);
  }

  /** Every id of the table is the id of some message, and every message's id is in it. */
  lemma {:induction false} DispatchKeys(ms: seq<Message>)
    ensures Dispatch(ms).Keys == set i | 0 <= i < |ms| :: ms[i].protocolId
  {
    if ms != [] {
      var init := ms[..|ms| - 1];
      DispatchKeys(init);
      var ids := set i | 0 <= i < |ms| :: ms[i].protocolId;
      var initIds := set i | 0 <= i < |init| :: init[i].protocolId;
      assert ms[|ms| - 1].protocolId in ids;
      forall id | id in initIds
        ensures id in ids
      {
        var i :| 0 <= i < |init| && init[i].protocolId == id;
        assert ms[i] == init[i];
      }
      forall id | id in ids
        ensures id in initIds + {ms[|ms| - 1].protocolId}
      {
        var i :| 0 <= i < |ms| && ms[i].protocolId == id;
        if i < |init| {
          assert ms[i] == init[i];
        }
      }
    }
  }

  /** A message that no later message shares its id with is what the table gives for that
      id: of several messages with one id, the last wins. */
  lemma {:induction false} DispatchLastWins(ms: seq<Message>, i: nat)
    requires i < |ms|
    requires forall j :: i < j < |ms| ==> ms[j].protocolId != ms[i].protocolId
    ensures ms[i].protocolId in Dispatch(ms)
    ensures Dispatch(ms)[ms[i].protocolId] == ms[i].name
  {
    if i < |ms| - 1 {
      var init := ms[..|ms| - 1];
      assert init[i] == ms[i];
      forall j | i < j < |init|
        ensures init[j].protocolId != init[i].protocolId
      {
        assert init[j] == ms[j];
      }
      DispatchLastWins(init, i);
    }
  }

  /** The class the table gives for an id is that of a message with the id. */
  lemma {:induction false} DispatchFromMessage(ms: seq<Message>, id: int)
    requires id in Dispatch(ms)
    ensures exists i :: 0 <= i < |ms| && ms[i].protocolId == id && ms[i].name == Dispatch(ms)[id]
  {
    var init, last := ms[..|ms| - 1], ms[|ms| - 1];
    if id != last.protocolId {
      DispatchFromMessage(init, id);
      var i :| 0 <= i < |init| && init[i].protocolId == id && init[i].name == Dispatch(init)[id];
      assert ms[i] == init[i];
    } else {
      assert ms[|ms| - 1] == last;
    }
  }

  /** When protocol ids are distinct, every message's id leads to that message's class. */
  lemma DispatchDistinct(ms: seq<Message>)
    requires forall i, j :: 0 <= i < j < |ms| ==> ms[i].protocolId != ms[j].protocolId
    ensures forall i :: 0 <= i < |ms| ==> ms[i].protocolId in Dispatch(ms) && Dispatch(ms)[ms[i].protocolId] == ms[i].name
  {
    forall i | 0 <= i < |ms|
      ensures ms[i].protocolId in Dispatch(ms) && Dispatch(ms)[ms[i].protocolId] == ms[i].name
    {
      DispatchLastWins(ms, i);
    }
  }

  /** A message file starts with the runtime imports, then imports its parent class and
      extends it when it has one; otherwise it extends `NetworkMessage` and every other import
      is one its own fields add. */
  lemma FileHeader(h: Helpers, p: Protocol, m: Message)
    requires Generatable(h, p, m)
    ensures var f := MessageFileOf(h, p, m);
      |f.imports| > 0 && f.imports[0] == RuntimeImports
      && (m.parent != "" ==>
            (f.superclass == m.parent
             && f.imports[1] == ImportNamed(m.parent, h.cleanNamespace(FindMessage(p.messages, m.parent).value.package))))
      && (m.parent == "" ==> (f.superclass == "NetworkMessage" && f.imports[1..] == AddedImports(h, p, m)))
  {
    var base, added := BaseImports(h, p, m), AddedImports(h, p, m);
    assert (base + added)[0] == base[0];
    if m.parent != "" {
      assert (base + added)[1] == base[1];
    } else {
      assert (base + added)[1..] == added;
    }
  }

  /** A message file imports the runtime once, and the flag wrapper once exactly when the
      message has a flag field. */
  lemma FileImportCounts(h: Helpers, p: Protocol, m: Message)
    requires Generatable(h, p, m)
    ensures Count(FileImportList(h, p, m), RuntimeImports) == 1
    ensures Count(FileImportList(h, p, m), FlagWrapperImport)
         == (if exists x :: x in m.fields && x.useBBW then 1 else 0)
  {
    var base, added := BaseImports(h, p, m), AddedImports(h, p, m);
    AddedImportsCounts(h, p, m);
    assert multiset(base + added) == multiset(base) + multiset(added);
  }

  /** The classes and types a message file imports by name are its parent, if any, and the
      custom types of its ordinary fields (`CustomTypesMembers` says which those are). */
  lemma FileNamedImports(h: Helpers, p: Protocol, m: Message)
    requires Generatable(h, p, m)
    ensures NamedImports(FileImportList(h, p, m))
         == (if m.parent != "" then {m.parent} else {}) + CustomTypes(h, Ordinary(m.fields))
  {
    var base, added := BaseImports(h, p, m), AddedImports(h, p, m);
    AddedImportsNameSet(h, p, m);
    NamedImportsAppend(base, added);
    if m.parent != "" {
      assert NamedImports(base) == {m.parent} by {
        assert base[1].ImportNamed? && base[1].name == m.parent;
      }
    } else {
      assert NamedImports(base) == {};
    }
  }

  /** The names a message file imports are distinct exactly when its parent, if any, is not
      also the custom type of one of its ordinary fields: the fields' imports start from an
      empty record of used names, so they repeat the parent's import. */
  lemma FileNamesDistinct(h: Helpers, p: Protocol, m: Message)
    requires Generatable(h, p, m)
    ensures NamesDistinct(FileImportList(h, p, m))
        <==> (m.parent == "" || m.parent !in CustomTypes(h, Ordinary(m.fields)))
  {
    var base, added := BaseImports(h, p, m), AddedImports(h, p, m);
    BaseImportsNames(h, p, m);
    AddedImportsNames(h, p, m);
    AddedImportsNameSet(h, p, m);
    if m.parent != "" && m.parent in CustomTypes(h, Ordinary(m.fields)) {
      NamesRepeated(base, added, m.parent);
    } else {
      NamesDistinctJoin(base, added);
    }
  }

  lemma BaseImportsNames(h: Helpers, p: Protocol, m: Message)
    requires Generatable(h, p, m)
    ensures NamedImports(BaseImports(h, p, m)) == if m.parent != "" then {m.parent} else {}
    ensures NamesDistinct(BaseImports(h, p, m))
  {
    var base := BaseImports(h, p, m);
    if m.parent != "" {
      assert base[1].ImportNamed? && base[1].name == m.parent;
    }
  }

  /** Appending lists with distinct names and no name in common keeps the names distinct. */
  lemma NamesDistinctJoin(a: seq<Import>, b: seq<Import>)
    requires NamesDistinct(a) && NamesDistinct(b)
    requires NamedImports(a) !! NamedImports(b)
    ensures NamesDistinct(a + b)
  {
    var s := a + b;
    forall i, j | 0 <= i < j < |s| && s[i].ImportNamed? && s[j].ImportNamed?
      ensures s[i].name != s[j].name
    {
      if j < |a| {
        assert s[i] == a[i] && s[j] == a[j];
      } else if i >= |a| {
        assert s[i] == b[i - |a|] && s[j] == b[j - |a|];
      } else {
        assert s[i] == a[i] && s[j] == b[j - |a|];
        assert s[i].name in NamedImports(a) && s[j].name in NamedImports(b);
      }
    }
  }

  /** A name imported by both parts is imported twice by their concatenation. */
  lemma NamesRepeated(a: seq<Import>, b: seq<Import>, t: string)
    requires t in NamedImports(a) && t in NamedImports(b)
    ensures !NamesDistinct(a + b)
  {
    var i :| 0 <= i < |a| && a[i].ImportNamed? && a[i].name == t;
    var j :| 0 <= j < |b| && b[j].ImportNamed? && b[j].name == t;
    assert (a + b)[i] == a[i] && (a + b)[|a| + j] == b[j];
  }
}
