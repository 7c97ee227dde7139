/** Layout planning for one message type: the split into flag fields and ordinary fields,
    the stable sort of the flag fields by bit position, and the classification of each
    ordinary field into one of five encoding strategies. */
module Layout {
  import opened Schema

  /** `fields.filter(f => f.useBBW)`. */
  function Flags(fields: seq<Field>): seq<Field>
  {
    if fields == [] then []
    else (if fields[0].useBBW then [fields[0]] else []) + Flags(fields[1..])
  }

  /** `fields.filter(f => !f.useBBW)`. */
  function Ordinary(fields: seq<Field>): seq<Field>
  {
    if fields == [] then []
    else (if fields[0].useBBW then [] else [fields[0]]) + Ordinary(fields[1..])
  }

  /** Every field lands in exactly one of the two groups, according to `useBBW`. */
  lemma {:induction false} PartitionFields(fields: seq<Field>)
    ensures multiset(Flags(fields)) + multiset(Ordinary(fields)) == multiset(fields)
    ensures |Flags(fields)| + |Ordinary(fields)| == |fields|
  {
    if fields != [] {
      PartitionFields(fields[1..]);
      assert fields == [fields[0]] + fields[1..];
    }
  }

  /** The flag group holds only flag fields, the ordinary group none. */
  lemma {:induction false} GroupsAreHomogeneous(fields: seq<Field>)
    ensures forall f :: f in Flags(fields) ==> f.useBBW
    ensures forall f :: f in Ordinary(fields) ==> !f.useBBW
  {
    if fields != [] {
      GroupsAreHomogeneous(fields[1..]);
    }
  }

  /** Both filters keep the schema order: filtering a concatenation concatenates the
      filtered parts, so a field sits before another in its group exactly when it does so in
      the message. */
  lemma FiltersKeepOrder(a: seq<Field>, b: seq<Field>)
    ensures Flags(a + b) == Flags(a) + Flags(b)
    ensures Ordinary(a + b) == Ordinary(a) + Ordinary(b)
  {
    FlagsKeepOrder(a, b);
    OrdinaryKeepsOrder(a, b);
  }

  lemma {:induction false} FlagsKeepOrder(a: seq<Field>, b: seq<Field>)
    ensures Flags(a + b) == Flags(a) + Flags(b)
  {
    if a == [] {
      assert a + b == b;
    } else {
      var c, head := a + b, if a[0].useBBW then [a[0]] else [];
      assert c[0] == a[0] && c[1..] == a[1..] + b;
      assert Flags(c) == head + Flags(a[1..] + b);
      FlagsKeepOrder(a[1..], b);
      assert Flags(a) == head + Flags(a[1..]);
    }
  }

  lemma {:induction false} OrdinaryKeepsOrder(a: seq<Field>, b: seq<Field>)
    ensures Ordinary(a + b) == Ordinary(a) + Ordinary(b)
  {
    if a == [] {
      assert a + b == b;
    } else {
      var c, head := a + b, if a[0].useBBW then [] else [a[0]];
      assert c[0] == a[0] && c[1..] == a[1..] + b;
      assert Ordinary(c) == head + Ordinary(a[1..] + b);
      OrdinaryKeepsOrder(a[1..], b);
      assert Ordinary(a) == head + Ordinary(a[1..]);
    }
  }

  ghost predicate SortedByPosition(s: seq<Field>)
  {
    forall i, j :: 0 <= i < j < |s| ==> s[i].bbwPosition <= s[j].bbwPosition
  }

  /** The fields of `s` whose bit position is `pos`, in the order of `s`. */
  function WithPosition(s: seq<Field>, pos: int): seq<Field>
  {
    if s == [] then []
    else WithPosition(s[..|s| - 1], pos) + (if s[|s| - 1].bbwPosition == pos then [s[|s| - 1]] else [])
  }

  /** Inserts `x` after every element whose position is not larger: this keeps ties in
      arrival order. */
  function Insert(s: seq<Field>, x: Field): (r: seq<Field>)
    ensures |r| == |s| + 1
  {
    if s == [] || s[|s| - 1].bbwPosition <= x.bbwPosition then s + [x]
    else Insert(s[..|s| - 1], x) + [s[|s| - 1]]
  }

  /** `bbw.sort((a, b) => a.bbwPosition - b.bbwPosition)`: the language's sort is stable, so
      this is a stable sort by ascending position. */
  function SortByPosition(s: seq<Field>): (r: seq<Field>)
    ensures |r| == |s|
  {
    if s == [] then [] else Insert(SortByPosition(s[..|s| - 1]), s[|s| - 1])
  }

  lemma {:induction false} InsertPermutes(s: seq<Field>, x: Field)
    ensures multiset(Insert(s, x)) == multiset(s) + multiset{x}
  {
    if !(s == [] || s[|s| - 1].bbwPosition <= x.bbwPosition) {
      var init, last := s[..|s| - 1], s[|s| - 1];
      assert s == init + [last];
      InsertPermutes(init, x);
    }
  }

  lemma {:induction false} InsertSorts(s: seq<Field>, x: Field)
    requires SortedByPosition(s)
    ensures SortedByPosition(Insert(s, x))
  {
    if !(s == [] || s[|s| - 1].bbwPosition <= x.bbwPosition) {
      var init, last := s[..|s| - 1], s[|s| - 1];
      InsertSorts(init, x);
      InsertPermutes(init, x);
      var r := Insert(init, x);
      forall k | 0 <= k < |r|
        ensures r[k].bbwPosition <= last.bbwPosition
      {
        assert r[k] in multiset(r);
        if r[k] != x {
          assert r[k] in multiset(init);
          var j :| 0 <= j < |init| && init[j] == r[k];
          assert s[j] == r[k];
        }
      }
      assert Insert(s, x) == r + [last];
    }
  }

  lemma {:induction false} InsertKeepsTies(s: seq<Field>, x: Field, pos: int)
    ensures WithPosition(Insert(s, x), pos) == WithPosition(s, pos) + (if x.bbwPosition == pos then [x] else [])
  {
    if s == [] || s[|s| - 1].bbwPosition <= x.bbwPosition {
      assert (s + [x])[..|s|] == s;
    } else {
      var init, last := s[..|s| - 1], s[|s| - 1];
      InsertKeepsTies(init, x, pos);
      var r := Insert(init, x);
      assert Insert(s, x) == r + [last];
      assert (r + [last])[..|r|] == r;
    }
  }

  /** The flag sort: ascending by position, a permutation of its input, and stable: the
      fields that share a position keep their schema order. */
  lemma {:induction false} SortByPositionIsStable(s: seq<Field>, pos: int)
    ensures SortedByPosition(SortByPosition(s))
    ensures multiset(SortByPosition(s)) == multiset(s)
    ensures WithPosition(SortByPosition(s), pos) == WithPosition(s, pos)
  {
    if s != [] {
      var init, last := s[..|s| - 1], s[|s| - 1];
      assert s == init + [last];
      SortByPositionIsStable(init, pos);
      InsertPermutes(SortByPosition(init), last);
      InsertSorts(SortByPosition(init), last);
      InsertKeepsTies(SortByPosition(init), last, pos);
    }
  }

  /** The flag fields of a message in emission order. */
  function SortedFlags(fields: seq<Field>): seq<Field>
  {
    SortByPosition(Flags(fields))
  }

  /** `getRealType(o.type) === ""`. */
  predicate IsCustom(h: Helpers, o: Field)
  {
    h.realType(o.typeName) == ""
  }

  /** The declared element type: the custom type's own name, or the mapped primitive. */
  function BaseType(h: Helpers, o: Field): string
  {
    if IsCustom(h, o) then o.typeName else h.realType(o.typeName)
  }

  /** The declared type of an ordinary field. */
  function TypeText(h: Helpers, o: Field): string
  {
    BaseType(h, o) + (if o.isVector then "[]" else "")
  }

  /** The initial value shared by the declaration and by `reset`. */
  function InitText(h: Helpers, o: Field): string
  {
    if o.isVector then "[]"
    else if IsCustom(h, o) then "new " + o.typeName + "()"
    else h.defaultInit(h.realType(o.typeName))
  }

  /** The five ways an ordinary field is encoded. */
  datatype Strategy =
    | PrimitiveScalar
    | CustomScalar
    | PolymorphicScalar
    | PrimitiveVector
    | ObjectVector

  /** Selection by `isVector`, `useTypeManager` and the custom-type test. */
  function StrategyOf(h: Helpers, o: Field): Strategy
  {
    if o.isVector then
      (if o.useTypeManager || IsCustom(h, o) then ObjectVector else PrimitiveVector)
    else if o.useTypeManager then PolymorphicScalar
    else if IsCustom(h, o) then CustomScalar
    else PrimitiveScalar
  }
}
