# cookiebuilder message generation, modelled in Dafny

cookiebuilder reads an extracted Dofus protocol description and generates TypeScript
classes from it. This project models the part that generates the network messages,
`src/builder/messages.ts`. That part has three pieces:

- `buildMessage` emits the class body of one message type. This covers the static id,
  the field declarations and the `getMessageId`, `reset`, `pack`, `unpack`, `serialize` and
  `deserialize` methods. It also appends to the message file's import list the imports its
  fields need.
- `buildMessages` loops over the protocol's messages. For each one it builds the file:
  the folder, the runtime and parent imports, the class it extends, and the body. Alongside
  it builds the index, which imports and re-exports every message class, and the receiver's
  table, which maps each protocol id to a constructor of its class. After the loop it strips
  the trailing comma of the last export and of the last table entry.
- The generated receiver looks an id up in that table.

Module layout:

- `Schema` is the protocol description: fields, messages, types and the first-match
  lookups `find` performs.
- `Text` holds the few string operations the generator uses: number printing, the
  first-occurrence `replace` and `slice(0, -1)`, with a prefix test (`StartsWith`) that the
  model itself uses to find occurrences and to read method names.
- `Layout` holds the split of the fields into flag fields and ordinary fields, the stable
  sort of the flags by bit position, the type and initial-value rules, and the five
  encoding strategies of an ordinary field.
- `Emit` holds the emitted lines, as a datatype with the exact text of each line, and the
  imports.
- `Codec` has specification functions giving everything one message emits. It also has
  `BuildMessage` and its helper methods, which append line by line as the generator does
  and are proved to produce exactly that.
- `BodyFacts` and `ImportFacts` hold the properties of a generated class and of its
  imports:
  - the parent's call comes first;
  - the flags come in bit order before the ordinary fields;
  - each ordinary field is declared once and reset to the same initial value;
  - a placeholder line appears exactly when a body would be empty;
  - each import that generating the class adds occurs once; the whole file's named imports
    are distinct exactly when the parent is not also a custom type of an ordinary field, since
    the field imports start from an empty record of used names (`Registry.FileNamesDistinct`).
- `WireLayout` reads each generated `serialize` and `deserialize` line as the units of
  the byte stream it writes or reads. It proves that:
  - the two bodies walk the same units exactly when every ordinary field uses a symmetric
    strategy;
  - a scalar resolved through the type manager is read with a leading type id that
    `serialize` never writes;
  - a vector of custom objects resolved without it writes a type id per element that
    `deserialize` never reads.
- `Registry` models `buildMessages`, the generated files, the index, the receiver's table
  and its lookup.

`getRealType`, `getDefaultInitValue` and `cleanNamespace` live in `src/builder/utils.ts`,
which is not part of this model. They are parameters: the three functions of a `Helpers`
value. A field is custom exactly when `getRealType` maps its type to the empty string, as
the generator tests.

A protocol whose messages share a protocol id is not rejected by the code, so the model does
not reject it either. The generated object literal keeps the last entry for a repeated
id, which `Registry.DispatchLastWins` states. The generator's `find(...)!` lookups are
preconditions: a message whose parent or custom field type is missing is outside what the
generator handles, which is why `Registry.Generatable` exists. The same goes for the
`pop()!` of an empty table, hence `|p.messages| > 0`.

## Model

| member | source | states |
|---|---|---|
| Schema.FindFirst | src/builder/messages.ts:154 | `find` fails exactly when no element has the name, and otherwise gives the first element with that name; it serves both the type lookup here and the parent lookup at line 59 |
| Text.ReplaceFirstAt | src/builder/messages.ts:214-215 | `replace` with a string pattern replaces only the first occurrence |
| Text.ReplaceFirstAbsent | src/builder/messages.ts:236-240 | `replace` leaves a string without the pattern unchanged |
| Text.DropLast | src/builder/messages.ts:81-84 | `slice(0, -1)` removes exactly the last character and leaves an empty string empty |
| Layout.PartitionFields | src/builder/messages.ts:110-111 | the flag fields and ordinary fields together are exactly the message's fields, counted with multiplicity |
| Layout.GroupsAreHomogeneous | src/builder/messages.ts:110-111 | every flag field has `useBBW` and no ordinary field does |
| Layout.FiltersKeepOrder | src/builder/messages.ts:110-111 | filtering a concatenation concatenates the filtered parts, so each group keeps the fields in schema order |
| Layout.SortByPositionIsStable | src/builder/messages.ts:127 | the flag sort orders by bit position, is a permutation and is stable |
| Codec.FieldImportsShift | src/builder/messages.ts:147-175 | the imports the field loop appends do not depend on what the list already holds |
| Codec.DeclareField | src/builder/messages.ts:148-175 | one ordinary field is declared and reset with one initial value: `[]` with type `T[]` for a vector, a fresh instance of its own type for a custom scalar, and the helper's default for the mapped type for a primitive; the imports it newly needs are appended, its type is recorded as imported and the type-manager flag is set |
| Codec.EmitSerialize | src/builder/messages.ts:177-244 | the `serialize` lines appended for a field are those of its strategy |
| Codec.EmitDeserialize | src/builder/messages.ts:177-244 | the `deserialize` lines appended for a field are those of its strategy, with each read method derived from the write method as the two branches do |
| Codec.EmitFlags | src/builder/messages.ts:128-141 | each flag in sorted order appends one `false` declaration, one reset, one `setFlag` write and one `getFlag` read at its bit position |
| Codec.EmitFields | src/builder/messages.ts:144-245 | the field loop appends each ordinary field's declaration, body lines and imports in field order |
| Codec.EmitMethods | src/builder/messages.ts:247-291 | the method frame is appended around the three bodies, each filled with a placeholder when empty |
| Codec.BuildMessage | src/builder/messages.ts:99-292 | the emitted class body is exactly the specified one, and the import list gains exactly the specified imports after what it held |
| BodyFacts.FieldLinesShape | src/builder/messages.ts:168-243 | every strategy emits at least one line per body for a field, and none is a parent call or placeholder |
| BodyFacts.FlagLinesAt | src/builder/messages.ts:128-141 | the k-th flag line is the k-th sorted flag's line |
| BodyFacts.FlagDeclsAt | src/builder/messages.ts:129 | the k-th flag declaration declares the k-th sorted flag as a boolean that starts `false` |
| BodyFacts.FieldDeclsAt | src/builder/messages.ts:167 | the k-th ordinary declaration is the k-th ordinary field with its type and initial value |
| BodyFacts.ResetLinesAt | src/builder/messages.ts:168 | the k-th ordinary reset line assigns the k-th ordinary field its initial value, one line per field |
| BodyFacts.FieldBodiesShape | src/builder/messages.ts:147-245 | the field loop emits at least one line per field, all of them field lines |
| BodyFacts.BodyLinesSplit | src/builder/messages.ts:117-245 | a body is the parent call, then the flag lines, then the ordinary field lines |
| BodyFacts.BodyLinesEmpty | src/builder/messages.ts:117-245 | a body has at least one line per field plus the parent call, and is empty exactly for a message with neither parent nor fields |
| BodyFacts.PlaceholderExactlyWhenEmpty | src/builder/messages.ts:255-257 | a method body holds the placeholder exactly when the message has neither parent nor fields, and then holds only it |
| BodyFacts.ParentCallFirst | src/builder/messages.ts:117-121 | a method body holds a parent call exactly at its first line, and exactly when the message has a parent |
| BodyFacts.NoFrameLinesAfterParent | src/builder/messages.ts:117-245 | after the parent call a body holds no parent call and no placeholder |
| BodyFacts.DeclarationsSplit | src/builder/messages.ts:110-167 | the declarations are the sorted flags, then the ordinary fields, one per field |
| BodyFacts.FlagBodyAt | src/builder/messages.ts:128-141 | the k-th sorted flag's line sits right after the parent call |
| BodyFacts.FlagLayout | src/builder/messages.ts:123-141 | the k-th sorted flag is a flag field of the message; it is declared k-th, and reset, written and read right after the parent call |
| BodyFacts.OrdinaryLayout | src/builder/messages.ts:147-168 | the k-th ordinary field is declared after all flags and reset after the parent call and flags, with the same initial value; `reset` has one line per field |
| BodyFacts.MessageDataSplit | src/builder/messages.ts:103-291 | the class body is the static id, the declarations, then the methods around the three bodies |
| ImportFacts.CustomTypesMembers | src/builder/messages.ts:150-159 | a type is recorded as imported exactly when some field uses it as a custom type |
| ImportFacts.AnyTypeManagerMembers | src/builder/messages.ts:170-175 | the type-manager flag ends up set exactly when some field uses the type manager |
| ImportFacts.FieldImportsNames | src/builder/messages.ts:150-159 | the field loop imports exactly the custom types the fields use |
| ImportFacts.FieldImportsDistinct | src/builder/messages.ts:152-159 | the field loop never imports a custom type twice |
| ImportFacts.FieldImportsPackages | src/builder/messages.ts:154-157 | each custom-type import names the package its type is declared in |
| ImportFacts.FieldImportsCounts | src/builder/messages.ts:170-175 | the field loop imports the type manager once if a field needs it and never otherwise |
| ImportFacts.AddedImportsSplit | src/builder/messages.ts:123-175 | the flag wrapper import comes before the field imports |
| ImportFacts.AddedImportsCounts | src/builder/messages.ts:123-175 | the flag wrapper is imported once exactly when there is a flag field, the type manager once exactly when an ordinary field uses it, and no runtime import is added |
| ImportFacts.AddedImportsNames | src/builder/messages.ts:144-175 | the named imports are exactly the custom types of the ordinary fields, each once, from its declared package |
| ImportFacts.AddedImportsNameSet | src/builder/messages.ts:144-175 | the set of names imported is the set of custom types of the ordinary fields |
| ImportFacts.FlagsNonEmpty | src/builder/messages.ts:110-123 | there are flag fields exactly when some field has `useBBW` |
| WireLayout.PrimitiveCallsMatch | src/builder/messages.ts:234-240 | a writer call and a reader call move the same unit exactly when they are `write<kind>` and `read<kind>` for one kind |
| WireLayout.SerializeScalarWalk | src/builder/messages.ts:220-243 | a scalar's `serialize` lines walk its strategy's written units |
| WireLayout.SerializePrimitiveVectorWalk | src/builder/messages.ts:177-211 | a primitive vector writes a count, then each element with its write method |
| WireLayout.SerializeObjectVectorWalk | src/builder/messages.ts:177-188 | an object vector writes a count, then a type id and the nested object per element |
| WireLayout.DeserializeScalarWalk | src/builder/messages.ts:220-243 | a scalar's `deserialize` lines walk its strategy's read units |
| WireLayout.DeserializePrimitiveVectorWalk | src/builder/messages.ts:179-217 | a primitive vector reads a count, then each element with the derived read method |
| WireLayout.DeserializeObjectVectorWalk | src/builder/messages.ts:179-205 | an object vector reads a count, then per element a type id only when resolved through the type manager, then the nested object |
| WireLayout.FieldWalks | src/builder/messages.ts:177-244 | every field's two bodies walk its strategy's written and read units |
| WireLayout.ReadOfWrite | src/builder/messages.ts:214-215 | replacing the leading `write` of a write method gives the read method of the same kind |
| WireLayout.UnitsAgreeIffSymmetric | src/builder/messages.ts:177-244 | a field's written and read units agree exactly when its strategy is symmetric |
| WireLayout.FieldSymmetry | src/builder/messages.ts:177-244 | a field's `serialize` and `deserialize` lines walk the same units exactly when it is symmetric |
| WireLayout.PolymorphicScalarReadsExtraTypeId | src/builder/messages.ts:220-227 | a scalar resolved through the type manager is written as the nested object alone but read as a type id followed by it |
| WireLayout.CustomVectorWritesExtraTypeId | src/builder/messages.ts:182-205 | a vector of custom objects resolved without the type manager writes a type id per element that is not read |
| WireLayout.FlagUnitsAgree | src/builder/messages.ts:131-140 | the flag lines of both bodies walk the same flag bytes in the same order |
| WireLayout.FieldUnitsAgree | src/builder/messages.ts:147-245 | when every ordinary field is symmetric, the field lines of both bodies walk the same units |
| WireLayout.BodyLinesUnits | src/builder/messages.ts:117-245 | a body walks the parent's part, then the flag units, then the field units |
| WireLayout.MessageSymmetry | src/builder/messages.ts:117-289 | a message's `serialize` and `deserialize` walk the same units exactly when every ordinary field is symmetric |
| WireLayout.SymmetricMessageAgrees | src/builder/messages.ts:117-289 | when every ordinary field is symmetric, both bodies walk the same units |
| WireLayout.AsymmetricMessageDiffers | src/builder/messages.ts:117-289 | when some ordinary field is asymmetric, the two bodies walk different units |
| WireLayout.AsymmetricDiverges | src/builder/messages.ts:177-244 | an asymmetric field's written and read units differ at a position both have |
| WireLayout.FieldUnitsPrefix | src/builder/messages.ts:147-245 | the units of the first fields' lines begin the units of all the fields' lines |
| WireLayout.FieldUnitsDiverge | src/builder/messages.ts:147-245 | with an asymmetric ordinary field, the field lines of the two bodies walk different units |
| Registry.BuildMessageFile | src/builder/messages.ts:41-77 | a message file goes in its package's folder, under the message's name, with the runtime imports, the parent's import, the field imports, the class it extends and the generated body |
| Registry.BuildMessages | src/builder/messages.ts:12-85 | the loop produces one file, index import, entry and export per message, and the tail strips the last comma and closes the index |
| Registry.EntryLinesAt | src/builder/messages.ts:42-44 | the i-th receiver entry maps the i-th message's id to its class, followed by a comma |
| Registry.ExportLinesAt | src/builder/messages.ts:38-45 | the index's export list opens with `export default {` and then re-exports the i-th message, followed by a comma |
| Registry.IndexImportsAt | src/builder/messages.ts:41 | the i-th index import imports the i-th message's class from its package's folder |
| Registry.MessageFilesAt | src/builder/messages.ts:40-77 | the i-th file is the i-th message's file |
| Registry.FilesLayout | src/builder/messages.ts:40-77 | one file per message, in message order |
| Registry.IndexImportsLayout | src/builder/messages.ts:41 | one index import per message, in message order |
| Registry.EntriesLayout | src/builder/messages.ts:42-84 | one receiver entry per message, in message order, with a comma after every entry but the last |
| Registry.ExportsLayout | src/builder/messages.ts:38-85 | the index opens with `export default {`, re-exports every message in order with a comma after all but the last, and closes with `};` |
| Registry.DispatchKeys | src/builder/messages.ts:35-45 | the receiver's table has an entry for exactly the protocol ids of the messages |
| Registry.DispatchLastWins | src/builder/messages.ts:35-45 | for a repeated id the table holds the last message with that id |
| Registry.DispatchFromMessage | src/builder/messages.ts:35-45 | the class the table gives for an id is that of a message with that id |
| Registry.DispatchDistinct | src/builder/messages.ts:35-45 | with distinct ids each message's id leads to its own class |
| Registry.Lookup | src/builder/messages.ts:25-28 | the receiver finds no class exactly for an id no message has, which is where it throws, and otherwise finds the class of a message with that id |
| Registry.FileHeader | src/builder/messages.ts:48-70 | a file starts with the runtime imports, then the parent's import, and extends the parent; without a parent it extends `NetworkMessage` and all its other imports come from its fields |
| Registry.FileImportCounts | src/builder/messages.ts:48-62 | a file imports the runtime once and the flag wrapper once exactly when the message has a flag field |
| Registry.FileNamedImports | src/builder/messages.ts:57-62 | a file imports by name exactly its parent, if any, and the custom types of its ordinary fields |
| Registry.FileNamesDistinct | src/builder/messages.ts:58-63 | a file's named imports are all distinct if and only if it has no parent or its parent is not the custom type of an ordinary field, because the field imports (lines 144-157) do not see the parent's import |

## Left out

- File system access is left out: creating folders and writing the message files, the index
  and the receiver. The model returns the files, the index lists and the table entries as
  values.
- The joining of lines into one text per file is left out. `Emit.Render` and
  `Emit.RenderImport` give the text of each line and import, but nothing concatenates them
  with newlines.
- The receiver's fixed code around its table and the class head and bottom lines of a
  message file are not modelled as text. The head is represented by the file's `superclass`
  field. The six runtime imports are one `RuntimeImports` value, whose text
  `Emit.RenderImport` gives line by line.
- Protocol ids and bit positions are JavaScript numbers, taken here as unbounded integers.
  The model is meant for integers in 0..2^53, the range a JavaScript number holds exactly.
  In that range a template literal prints them in plain decimal, as `Text.NumberText` does.
  Exponent notation, from 10^21 up, is not modelled. Negative ids are out of scope: their
  generated entry `-5: () => …` is not a valid object-literal key, so the receiver would not
  parse. `Registry.Dispatch` and `Registry.Lookup` treat them as ordinary keys.
- `getRealType`, `getDefaultInitValue` and `cleanNamespace` are opaque parameters, since
  `src/builder/utils.ts` is not part of this model.
- The generated TypeScript code is never executed or compiled. The byte-level behaviour of
  `CustomDataWrapper`, `BooleanByteWrapper` and `ProtocolTypeManager` is therefore out of
  scope. `WireLayout` reads each emitted line only as the units it writes or reads.
- Codec.BuildMessage: the caller's `imports` array, which the generator mutates in place, is
  an input sequence plus an output sequence. This equates the two, but it does not model
  aliasing.
- Codec.BuildMessage: the loops over flags and fields are modelled as helper methods, one per
  loop and one per group of lines in the loop body. This does not change the order in which
  lines are appended.
- Layout.SortByPosition: the engine's sort algorithm is replaced by a stable insertion sort.
  The language guarantees that `Array.prototype.sort` is stable, so both produce the same
  order.
- A flag field without a defined `bbwPosition` is outside the model. The comparator then
  returns `NaN`, and the order is implementation-defined. The model requires every position
  to be an integer.
- Registry.BuildMessages: no duplicate-protocol-id check, because the generator performs
  none. `Registry.DispatchLastWins` states what the generated table then does.
