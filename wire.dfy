/** The byte stream the generated `serialize` and `deserialize` bodies walk: each emitted
    line is read as the units it writes or reads (a parent's part, a flag byte, a 16-bit
    count, a 16-bit type id, a nested object, a primitive). The two bodies of a message walk
    the same units when every ordinary field is encoded symmetrically; a polymorphic scalar
    reads a type id that is never written, and a vector of custom objects resolved without
    the type manager writes a type id per element that is never read. */
module WireLayout {
  import opened Schema
  import opened Text
  import opened Layout
  import opened Emit
  import opened Codec
  import opened BodyFacts

  datatype Unit =
    | Inherited                 // the parent class's own serialize / deserialize
    | FlagByte(position: int)   // one byte carrying a flag
    | Count                     // a 16-bit element count
    | TypeId                    // a 16-bit type id
    | Nested                    // a nested object's own serialize / deserialize
    | Primitive(kind: string)   // a primitive written by `write<kind>`, read by `read<kind>`
    | UnknownWrite(call: string) // a writer call not of the form `write<kind>`
    | UnknownRead(call: string)  // a reader call not of the form `read<kind>`
    | EachElement               // the start of the per-element part of a vector
    | EndEach                   // its end

  function WriteUnits(w: string): (r: seq<Unit>)
    ensures |r| == 1 && !r[0].UnknownRead?
  {
    if StartsWith(w, "write") then [Primitive(w[5..])] else [UnknownWrite(w)]
  }

  function ReadUnits(rm: string): (r: seq<Unit>)
    ensures |r| == 1 && !r[0].UnknownWrite?
  {
    if StartsWith(rm, "read") then [Primitive(rm[4..])] else [UnknownRead(rm)]
  }

  /** A writer call and a reader call move the same unit exactly when they are
      `write<kind>` and `read<kind>` for one `kind`. */
  lemma PrimitiveCallsMatch(w: string, rm: string)
    ensures WriteUnits(w) == ReadUnits(rm) <==>
      StartsWith(w, "write") && StartsWith(rm, "read") && w[5..] == rm[4..]
  {
  }

  /** The units one generated line writes or reads. */
  function LineUnits(l: Line): seq<Unit>
  {
    match l
    case SuperCall(_) => [Inherited]
    case WriteFlag(_, position) => [FlagByte(position)]
    case ReadFlag(_, position) => [FlagByte(position)]
    case WriteLength(_) => [Count]
    case ReadLength(_) => [Count]
    case ForEachElement(_) => [EachElement]
    case ForEachIndex(_) => [EachElement]
    case EndLoop => [EndEach]
    case WriteElementTypeId => [TypeId]
    case ResolveElement => [TypeId]
    case ResolveField(_) => [TypeId]
    case SerializeElement => [Nested]
    case DeserializeElement => [Nested]
    case SerializeField(_) => [Nested]
    case DeserializeField(_) => [Nested]
    case WriteElement(w) => WriteUnits(w)
    case WritePrimitive(w, _) => WriteUnits(w)
    case AppendRead(_, rm) => ReadUnits(rm)
    case ReadPrimitive(_, rm) => ReadUnits(rm)
    case _ => []
  }

  /** The concatenation of `f` over `ls`, in order. */
  function MapConcat(f: Line -> seq<Unit>, ls: seq<Line>): seq<Unit>
  {
    if ls == [] then [] else MapConcat(f, ls[..|ls| - 1]) + f(ls[|ls| - 1])
  }

  /** The units a list of lines walks, in order. */
  function Units(ls: seq<Line>): seq<Unit>
  {
    MapConcat(LineUnits, ls)
  }

  lemma {:induction false} MapConcatAppend(f: Line -> seq<Unit>, a: seq<Line>, b: seq<Line>)
    ensures MapConcat(f, a + b) == MapConcat(f, a) + MapConcat(f, b)
    decreases |b|
  {
    if b == [] {
      assert a + b == a;
    } else {
      var init, last := b[..|b| - 1], b[|b| - 1];
      assert (a + b)[..|a + b| - 1] == a + init;
      assert (a + b)[|a + b| - 1] == last;
      MapConcatAppend(f, a, init);
      assert MapConcat(f, a + b) == MapConcat(f, a + init) + f(last);
      assert MapConcat(f, b) == MapConcat(f, init) + f(last);
    }
  }

  lemma UnitsAppend(a: seq<Line>, b: seq<Line>)
    ensures Units(a + b) == Units(a) + Units(b)
  {
    MapConcatAppend(LineUnits, a, b);
  }

  // The units of short lists of lines, spelled out.

  lemma Units1(a: Line)
    ensures Units([a]) == LineUnits(a)
  {
    assert [a][..0] == [];
    assert MapConcat(LineUnits, [a]) == MapConcat(LineUnits, []) + LineUnits(a);
  }

  lemma Units2(a: Line, b: Line)
    ensures Units([a, b]) == LineUnits(a) + LineUnits(b)
  {
    assert [a, b][..1] == [a];
    Units1(a);
  }

  lemma Units3(a: Line, b: Line, c: Line)
    ensures Units([a, b, c]) == LineUnits(a) + LineUnits(b) + LineUnits(c)
  {
    assert [a, b, c][..2] == [a, b];
    Units2(a, b);
  }

  lemma Units4(a: Line, b: Line, c: Line, d: Line)
    ensures Units([a, b, c, d]) == LineUnits(a) + LineUnits(b) + LineUnits(c) + LineUnits(d)
  {
    assert [a, b, c, d][..3] == [a, b, c];
    Units3(a, b, c);
  }

  lemma Units5(a: Line, b: Line, c: Line, d: Line, e: Line)
    ensures Units([a, b, c, d, e]) == LineUnits(a) + LineUnits(b) + LineUnits(c) + LineUnits(d) + LineUnits(e)
  {
    assert [a, b, c, d, e][..4] == [a, b, c, d];
    Units4(a, b, c, d);
  }

  lemma Units6(a: Line, b: Line, c: Line, d: Line, e: Line, f: Line)
    ensures Units([a, b, c, d, e, f])
         == LineUnits(a) + LineUnits(b) + LineUnits(c) + LineUnits(d) + LineUnits(e) + LineUnits(f)
  {
    assert [a, b, c, d, e, f][..5] == [a, b, c, d, e];
    Units5(a, b, c, d, e);
  }

  /** The units a field's `serialize` lines write, by strategy. */
  function WrittenUnits(h: Helpers, o: Field): seq<Unit>
  {
    match StrategyOf(h, o)
    case PrimitiveScalar => WriteUnits(OptionText(o.writeMethod))
    case CustomScalar => [Nested]
    case PolymorphicScalar => [Nested]
    case PrimitiveVector => [Count, EachElement] + WriteUnits(OptionText(o.writeMethod)) + [EndEach]
    case ObjectVector => [Count, EachElement, TypeId, Nested, EndEach]
  }

  /** The units a field's `deserialize` lines read, by strategy. */
  function ReadUnitsOf(h: Helpers, o: Field): seq<Unit>
  {
    match StrategyOf(h, o)
    case PrimitiveScalar => ReadUnits(ScalarReadMethod(o))
    case CustomScalar => [Nested]
    case PolymorphicScalar => [TypeId, Nested]
    case PrimitiveVector => [Count, EachElement] + ReadUnits(ElementReadMethod(o)) + [EndEach]
    case ObjectVector => [Count, EachElement] + (if o.useTypeManager then [TypeId] else []) + [Nested, EndEach]
  }

  lemma SerializeScalarWalk(h: Helpers, o: Field)
    requires !o.isVector
    ensures Units(SerializeLines(h, o)) == WrittenUnits(h, o)
  {
    if StrategyOf(h, o) == PrimitiveScalar {
      Units1(WritePrimitive(OptionText(o.writeMethod), o.name));
    } else {
      Units1(SerializeField(o.name));
    }
  }

  lemma SerializePrimitiveVectorWalk(h: Helpers, o: Field)
    requires StrategyOf(h, o) == PrimitiveVector
    ensures Units(SerializeLines(h, o)) == WrittenUnits(h, o)
  {
    Units4(WriteLength(o.name), ForEachElement(o.name), WriteElement(OptionText(o.writeMethod)), EndLoop);
  }

  lemma SerializeObjectVectorWalk(h: Helpers, o: Field)
    requires StrategyOf(h, o) == ObjectVector
    ensures Units(SerializeLines(h, o)) == WrittenUnits(h, o)
  {
    Units5(WriteLength(o.name), ForEachElement(o.name), WriteElementTypeId, SerializeElement, EndLoop);
  }

  lemma DeserializeScalarWalk(h: Helpers, o: Field)
    requires !o.isVector
    ensures Units(DeserializeLines(h, o)) == ReadUnitsOf(h, o)
  {
    match StrategyOf(h, o)
    case PrimitiveScalar =>
      Units1(ReadPrimitive(o.name, ScalarReadMethod(o)));
    case CustomScalar =>
      Units2(NewField(o.name, o.typeName), DeserializeField(o.name));
    case PolymorphicScalar =>
      Units2(ResolveField(o.name), DeserializeField(o.name));
  }

  lemma DeserializePrimitiveVectorWalk(h: Helpers, o: Field)
    requires StrategyOf(h, o) == PrimitiveVector
    ensures Units(DeserializeLines(h, o)) == ReadUnitsOf(h, o)
  {
    Units4(ReadLength(o.name), ForEachIndex(o.name), AppendRead(o.name, ElementReadMethod(o)), EndLoop);
  }

  lemma DeserializeObjectVectorWalk(h: Helpers, o: Field)
    requires StrategyOf(h, o) == ObjectVector
    ensures Units(DeserializeLines(h, o)) == ReadUnitsOf(h, o)
  {
    var x := if o.useTypeManager then ResolveElement else NewElement(o.typeName);
    assert DeserializeLines(h, o)
        == [ReadLength(o.name), ForEachIndex(o.name), x, DeserializeElement, AppendElement(o.name), EndLoop];
    Units6(ReadLength(o.name), ForEachIndex(o.name), x, DeserializeElement, AppendElement(o.name), EndLoop);
    assert LineUnits(x) == if o.useTypeManager then [TypeId] else [];
  }

  /** The generated `serialize` lines of an ordinary field write exactly its written units,
      and its `deserialize` lines read exactly its read units. */
  lemma FieldWalks(h: Helpers, o: Field)
    ensures Units(SerializeLines(h, o)) == WrittenUnits(h, o)
    ensures Units(DeserializeLines(h, o)) == ReadUnitsOf(h, o)
  {
    if o.isVector {
      if o.useTypeManager || IsCustom(h, o) {
        SerializeObjectVectorWalk(h, o);
        DeserializeObjectVectorWalk(h, o);
      } else {
        SerializePrimitiveVectorWalk(h, o);
        DeserializePrimitiveVectorWalk(h, o);
      }
    } else {
      SerializeScalarWalk(h, o);
      DeserializeScalarWalk(h, o);
    }
  }

  /** The fields whose two bodies walk the same units: a primitive whose write method has
      the form `write<kind>`, a custom scalar, and a vector resolved through the type
      manager. */
  predicate Symmetric(h: Helpers, o: Field)
  {
    match StrategyOf(h, o)
    case PrimitiveScalar => o.writeMethod.Some? && StartsWith(o.writeMethod.value, "write")
    case PrimitiveVector => o.writeMethod.Some? && StartsWith(o.writeMethod.value, "write")
    case CustomScalar => true
    case PolymorphicScalar => false
    case ObjectVector => o.useTypeManager
  }

  /** Replacing the leading "write" of a write method gives the matching read method. */
  lemma ReadOfWrite(w: string)
    requires StartsWith(w, "write")
    ensures ReplaceFirst(w, "write", "read") == "read" + w[5..]
    ensures StartsWith("read" + w[5..], "read") && ("read" + w[5..])[4..] == w[5..]
  {
  }

  /** The units a field writes and reads agree exactly when the field is symmetric. */
  lemma UnitsAgreeIffSymmetric(h: Helpers, o: Field)
    ensures WrittenUnits(h, o) == ReadUnitsOf(h, o) <==> Symmetric(h, o)
  {
    var w := OptionText(o.writeMethod);
    if o.writeMethod.Some? && StartsWith(o.writeMethod.value, "write") {
      ReadOfWrite(o.writeMethod.value);
    }
    assert "undefined"[0] != "write"[0];
    assert !StartsWith("undefined", "write");
    match StrategyOf(h, o)
    case PrimitiveScalar =>
      PrimitiveCallsMatch(w, ScalarReadMethod(o));
    case PrimitiveVector =>
      PrimitiveCallsMatch(w, ElementReadMethod(o));
      var a, b := WrittenUnits(h, o), ReadUnitsOf(h, o);
      if a == b {
        assert a[2] == b[2];
        assert WriteUnits(w) == [a[2]] && ReadUnits(ElementReadMethod(o)) == [b[2]];
      }
    case CustomScalar =>
    case PolymorphicScalar =>
    case ObjectVector =>
  }

  /** The `serialize` and `deserialize` lines of an ordinary field walk the same units
      exactly when the field is symmetric. */
  lemma FieldSymmetry(h: Helpers, o: Field)
    ensures Units(SerializeLines(h, o)) == Units(DeserializeLines(h, o)) <==> Symmetric(h, o)
  {
    FieldWalks(h, o);
    UnitsAgreeIffSymmetric(h, o);
  }

  /** A polymorphic scalar is read as a type id followed by the nested object, but written
      as the nested object alone. */
  lemma PolymorphicScalarReadsExtraTypeId(h: Helpers, o: Field)
    requires !o.isVector && o.useTypeManager
    ensures Units(SerializeLines(h, o)) == [Nested]
    ensures Units(DeserializeLines(h, o)) == [TypeId, Nested]
  {
    FieldWalks(h, o);
  }

  /** A vector of custom objects not resolved through the type manager writes a type id
      before each element, which its `deserialize` never reads. */
  lemma CustomVectorWritesExtraTypeId(h: Helpers, o: Field)
    requires o.isVector && !o.useTypeManager && IsCustom(h, o)
    ensures Units(SerializeLines(h, o)) == [Count, EachElement, TypeId, Nested, EndEach]
    ensures Units(DeserializeLines(h, o)) == [Count, EachElement, Nested, EndEach]
  {
    FieldWalks(h, o);
  }

  lemma {:induction false} FlagUnitsAgree(bs: seq<Field>)
    ensures Units(FlagLines([], bs, Serialize)) == Units(FlagLines([], bs, Deserialize))
  {
    if bs != [] {
      var init := bs[..|bs| - 1];
      FlagUnitsAgree(init);
      var s, d := FlagLines([], init, Serialize), FlagLines([], init, Deserialize);
      var b := bs[|bs| - 1];
      UnitsAppend(s, [FlagLine(b, Serialize)]);
      UnitsAppend(d, [FlagLine(b, Deserialize)]);
      Units1(FlagLine(b, Serialize));
      Units1(FlagLine(b, Deserialize));
    }
  }

  lemma {:induction false} FieldUnitsAgree(h: Helpers, os: seq<Field>)
    requires forall o :: o in os ==> Symmetric(h, o)
    ensures Units(FieldBodies(h, [], os, Serialize)) == Units(FieldBodies(h, [], os, Deserialize))
  {
    if os != [] {
      var init, o := os[..|os| - 1], os[|os| - 1];
      assert o in os;
      assert forall x :: x in init ==> x in os;
      FieldUnitsAgree(h, init);
      var s, d := FieldBodies(h, [], init, Serialize), FieldBodies(h, [], init, Deserialize);
      var sl, dl := SerializeLines(h, o), DeserializeLines(h, o);
      assert FieldBodies(h, [], os, Serialize) == s + sl;
      assert FieldBodies(h, [], os, Deserialize) == d + dl;
      FieldSymmetry(h, o);
      UnitsAppend(s, sl);
      UnitsAppend(d, dl);
    }
  }

  lemma BodyLinesUnits(h: Helpers, m: Message, op: Op)
    ensures Units(BodyLines(h, m, op))
         == Units(ParentCall(m, op)) + Units(FlagLines([], SortedFlags(m.fields), op))
            + Units(FieldBodies(h, [], Ordinary(m.fields), op))
  {
    BodyLinesSplit(h, m, op);
    var pc, fl, fb := ParentCall(m, op), FlagLines([], SortedFlags(m.fields), op), FieldBodies(h, [], Ordinary(m.fields), op);
    UnitsAppend(pc + fl, fb);
    UnitsAppend(pc, fl);
  }

  /** An asymmetric field's written and read units differ at a position both have: at the
      primitive call of a primitive, at the type id of a polymorphic scalar, at the third
      unit of a vector of custom objects. */
  lemma AsymmetricDiverges(h: Helpers, o: Field) returns (t: nat)
    requires !Symmetric(h, o)
    ensures t < |WrittenUnits(h, o)| && t < |ReadUnitsOf(h, o)|
    ensures WrittenUnits(h, o)[t] != ReadUnitsOf(h, o)[t]
  {
    var w := OptionText(o.writeMethod);
    assert "undefined"[0] != "write"[0];
    match StrategyOf(h, o)
    case PrimitiveScalar =>
      assert !StartsWith(w, "write");
      t := 0;
      assert WrittenUnits(h, o) == WriteUnits(w) && ReadUnitsOf(h, o) == ReadUnits(ScalarReadMethod(o));
    case PrimitiveVector =>
      assert !StartsWith(w, "write");
      t := 2;
      assert WrittenUnits(h, o)[2] == WriteUnits(w)[0];
      assert ReadUnitsOf(h, o)[2] == ReadUnits(ElementReadMethod(o))[0];
    case PolymorphicScalar =>
      t := 0;
    case ObjectVector =>
      t := 2;
  }

  /** The units of the first `k` ordinary fields' lines begin the units of all of them. */
  lemma {:induction false} FieldUnitsPrefix(h: Helpers, os: seq<Field>, k: nat, op: Op)
    requires k <= |os|
    ensures Units(FieldBodies(h, [], os[..k], op)) <= Units(FieldBodies(h, [], os, op))
  {
    if k == |os| {
      assert os[..k] == os;
    } else {
      var init := os[..|os| - 1];
      assert init[..k] == os[..k];
      FieldUnitsPrefix(h, init, k, op);
      UnitsAppend(FieldBodies(h, [], init, op), FieldLines(h, os[|os| - 1], op));
    }
  }

  /** The units of the first `j + 1` ordinary fields' lines. */
  lemma FieldUnitsStep(h: Helpers, os: seq<Field>, j: nat, op: Op)
    requires j < |os|
    ensures Units(FieldBodies(h, [], os[..j + 1], op))
         == Units(FieldBodies(h, [], os[..j], op)) + Units(FieldLines(h, os[j], op))
  {
    assert os[..j + 1][..j] == os[..j];
    UnitsAppend(FieldBodies(h, [], os[..j], op), FieldLines(h, os[j], op));
  }

  /** The first asymmetric field of `os`. */
  lemma {:induction false} FirstAsymmetric(h: Helpers, os: seq<Field>) returns (j: nat)
    requires exists o :: o in os && !Symmetric(h, o)
    ensures j < |os| && !Symmetric(h, os[j])
    ensures forall i :: 0 <= i < j ==> Symmetric(h, os[i])
  {
    if Symmetric(h, os[0]) {
      var o :| o in os && !Symmetric(h, o);
      assert o in os[1..];
      var j' := FirstAsymmetric(h, os[1..]);
      j := j' + 1;
      forall i | 0 <= i < j
        ensures Symmetric(h, os[i])
      {
        if i > 0 {
          assert os[i] == os[1..][i - 1];
        }
      }
    } else {
      j := 0;
    }
  }

  /** When some ordinary field is asymmetric, the field lines of the two bodies walk different
      units: they agree up to the first asymmetric field and then part. */
  lemma FieldUnitsDiverge(h: Helpers, os: seq<Field>)
    requires exists o :: o in os && !Symmetric(h, o)
    ensures Units(FieldBodies(h, [], os, Serialize)) != Units(FieldBodies(h, [], os, Deserialize))
  {
    var j := FirstAsymmetric(h, os);
    var o := os[j];
    var pre := Units(FieldBodies(h, [], os[..j], Serialize));
    assert pre == Units(FieldBodies(h, [], os[..j], Deserialize)) by {
      forall x | x in os[..j]
        ensures Symmetric(h, x)
      {
        var i :| 0 <= i < j && os[..j][i] == x;
      }
      FieldUnitsAgree(h, os[..j]);
    }
    var w, r := WrittenUnits(h, o), ReadUnitsOf(h, o);
    assert pre + w <= Units(FieldBodies(h, [], os, Serialize)) by {
      FieldUnitsStep(h, os, j, Serialize);
      FieldWalks(h, o);
      FieldUnitsPrefix(h, os, j + 1, Serialize);
    }
    assert pre + r <= Units(FieldBodies(h, [], os, Deserialize)) by {
      FieldUnitsStep(h, os, j, Deserialize);
      FieldWalks(h, o);
      FieldUnitsPrefix(h, os, j + 1, Deserialize);
    }
    var t := AsymmetricDiverges(h, o);
    PartingPrefixes(pre, w, r, Units(FieldBodies(h, [], os, Serialize)), Units(FieldBodies(h, [], os, Deserialize)), t);
  }

  /** Two sequences that begin with a common part followed by parts that differ at some
      position differ. */
  lemma PartingPrefixes(pre: seq<Unit>, w: seq<Unit>, r: seq<Unit>, a: seq<Unit>, b: seq<Unit>, t: nat)
    requires pre + w <= a && pre + r <= b
    requires t < |w| && t < |r| && w[t] != r[t]
    ensures a != b
  {
    assert (pre + w)[|pre| + t] == w[t];
    assert (pre + r)[|pre| + t] == r[t];
    assert a[|pre| + t] != b[|pre| + t];
  }

  /** A message's generated `serialize` and `deserialize` walk the same units exactly when
      every ordinary field of it is symmetric. The units are the parent's part first, then
      one byte per flag field in sorted order, then the ordinary fields in schema order. */
  lemma MessageSymmetry(h: Helpers, m: Message)
    ensures Units(Body(h, m, Serialize)) == Units(Body(h, m, Deserialize))
        <==> forall o :: o in Ordinary(m.fields) ==> Symmetric(h, o)
  {
    if forall o :: o in Ordinary(m.fields) ==> Symmetric(h, o) {
      SymmetricMessageAgrees(h, m);
    } else {
      AsymmetricMessageDiffers(h, m);
    }
  }

  /** A message with an asymmetric ordinary field walks different units in its two bodies. */
  lemma AsymmetricMessageDiffers(h: Helpers, m: Message)
    requires exists o :: o in Ordinary(m.fields) && !Symmetric(h, o)
    ensures Units(Body(h, m, Serialize)) != Units(Body(h, m, Deserialize))
  {
    var os := Ordinary(m.fields);
    var o :| o in os && !Symmetric(h, o);
    assert m.fields != [];
    var pre := Units(ParentCall(m, Serialize)) + Units(FlagLines([], SortedFlags(m.fields), Serialize));
    var x, y := Units(FieldBodies(h, [], os, Serialize)), Units(FieldBodies(h, [], os, Deserialize));
    BodyUnits(h, m, Serialize);
    BodyUnits(h, m, Deserialize);
    HeadUnitsAgree(m);
    FieldUnitsDiverge(h, os);
    assert (pre + x)[|pre|..] == x && (pre + y)[|pre|..] == y;
  }

  /** The units of a message body with fields: the parent's part, the flag bytes, then the
      ordinary fields. */
  lemma BodyUnits(h: Helpers, m: Message, op: Op)
    requires m.fields != []
    ensures Units(Body(h, m, op))
         == Units(ParentCall(m, op)) + Units(FlagLines([], SortedFlags(m.fields), op))
            + Units(FieldBodies(h, [], Ordinary(m.fields), op))
  {
    BodyLinesEmpty(h, m, op);
    BodyLinesUnits(h, m, op);
  }

  /** The parent's part and the flag bytes walk the same units in both directions. */
  lemma HeadUnitsAgree(m: Message)
    ensures Units(ParentCall(m, Serialize)) + Units(FlagLines([], SortedFlags(m.fields), Serialize))
         == Units(ParentCall(m, Deserialize)) + Units(FlagLines([], SortedFlags(m.fields), Deserialize))
  {
    if m.parent != "" {
      Units1(SuperCall(Serialize));
      Units1(SuperCall(Deserialize));
    }
    FlagUnitsAgree(SortedFlags(m.fields));
  }

  /** When every ordinary field of a message is symmetric, its generated `serialize` and
      `deserialize` walk the same units. */
  lemma SymmetricMessageAgrees(h: Helpers, m: Message)
    requires forall o :: o in Ordinary(m.fields) ==> Symmetric(h, o)
    ensures Units(Body(h, m, Serialize)) == Units(Body(h, m, Deserialize))
  {
    BodyLinesEmpty(h, m, Serialize);
    BodyLinesEmpty(h, m, Deserialize);
    if m.parent != "" || m.fields != [] {
      BodyLinesUnits(h, m, Serialize);
      BodyLinesUnits(h, m, Deserialize);
      if m.parent != "" {
        Units1(SuperCall(Serialize));
        Units1(SuperCall(Deserialize));
      }
      FlagUnitsAgree(SortedFlags(m.fields));
      FieldUnitsAgree(h, Ordinary(m.fields));
    } else {
      Units1(Placeholder);
    }
  }
}
