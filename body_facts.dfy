/** What the emitted class body looks like: where the parent call, the flag fields and the
    ordinary fields land in each method body, when the placeholder appears, and that every
    field is declared once and reset once with its own initial value. */
module BodyFacts {
  import opened Schema
  import opened Layout
  import opened Emit
  import opened Codec

  /** A line emitted for a field: neither a parent call nor the placeholder. */
  predicate IsFieldLine(l: Line)
  {
    !l.SuperCall? && !l.Placeholder?
  }

  lemma FieldLinesShape(h: Helpers, o: Field, op: Op)
    ensures |FieldLines(h, o, op)| > 0
    ensures forall i :: 0 <= i < |FieldLines(h, o, op)| ==> IsFieldLine(FieldLines(h, o, op)[i])
  {
  }

  // Moving the accumulator out of the specification functions.

  lemma {:induction false} FlagLinesShift(a: seq<Line>, bs: seq<Field>, op: Op)
    ensures FlagLines(a, bs, op) == a + FlagLines([], bs, op)
  {
    if bs != [] {
      FlagLinesShift(a, bs[..|bs| - 1], op);
    }
  }

  lemma {:induction false} FlagDeclsShift(a: seq<Line>, bs: seq<Field>)
    ensures FlagDecls(a, bs) == a + FlagDecls([], bs)
  {
    if bs != [] {
      FlagDeclsShift(a, bs[..|bs| - 1]);
    }
  }

  lemma {:induction false} FieldDeclsShift(h: Helpers, a: seq<Line>, os: seq<Field>)
    ensures FieldDecls(h, a, os) == a + FieldDecls(h, [], os)
  {
    if os != [] {
      FieldDeclsShift(h, a, os[..|os| - 1]);
    }
  }

  lemma {:induction false} FieldBodiesShift(h: Helpers, a: seq<Line>, os: seq<Field>, op: Op)
    ensures FieldBodies(h, a, os, op) == a + FieldBodies(h, [], os, op)
  {
    if os != [] {
      var init, last := os[..|os| - 1], FieldLines(h, os[|os| - 1], op);
      assert FieldBodies(h, a, os, op) == FieldBodies(h, a, init, op) + last;
      assert FieldBodies(h, [], os, op) == FieldBodies(h, [], init, op) + last;
      FieldBodiesShift(h, a, init, op);
    }
  }

  // Index-wise content of the per-group line lists.

  lemma {:induction false} FlagLinesAt(bs: seq<Field>, op: Op, k: nat)
    requires k < |bs|
    ensures FlagLines([], bs, op)[k] == FlagLine(bs[k], op)
  {
    if k < |bs| - 1 {
      FlagLinesAt(bs[..|bs| - 1], op, k);
    }
  }

  lemma {:induction false} FlagDeclsAt(bs: seq<Field>, k: nat)
    requires k < |bs|
    ensures FlagDecls([], bs)[k] == Declare(bs[k].name, "boolean", "false")
  {
    if k < |bs| - 1 {
      FlagDeclsAt(bs[..|bs| - 1], k);
    }
  }

  lemma {:induction false} FieldDeclsAt(h: Helpers, os: seq<Field>, k: nat)
    requires k < |os|
    ensures FieldDecls(h, [], os)[k] == Declare(os[k].name, TypeText(h, os[k]), InitText(h, os[k]))
  {
    if k < |os| - 1 {
      FieldDeclsAt(h, os[..|os| - 1], k);
    }
  }

  /** `reset` gets exactly one line per ordinary field. */
  lemma {:induction false} ResetLinesAt(h: Helpers, os: seq<Field>, k: nat)
    requires k < |os|
    ensures |FieldBodies(h, [], os, Reset)| == |os|
    ensures FieldBodies(h, [], os, Reset)[k] == ResetTo(os[k].name, InitText(h, os[k]))
  {
    var init := os[..|os| - 1];
    ResetLinesLength(h, init);
    if k < |os| - 1 {
      ResetLinesAt(h, init, k);
    }
  }

  lemma {:induction false} ResetLinesLength(h: Helpers, os: seq<Field>)
    ensures |FieldBodies(h, [], os, Reset)| == |os|
  {
    if os != [] {
      ResetLinesLength(h, os[..|os| - 1]);
    }
  }

  /** Every ordinary field contributes at least one line, and only field lines. */
  lemma {:induction false} FieldBodiesShape(h: Helpers, os: seq<Field>, op: Op)
    ensures |FieldBodies(h, [], os, op)| >= |os|
    ensures forall i :: 0 <= i < |FieldBodies(h, [], os, op)| ==> IsFieldLine(FieldBodies(h, [], os, op)[i])
  {
    if os != [] {
      var init, o := os[..|os| - 1], os[|os| - 1];
      FieldBodiesShape(h, init, op);
      FieldLinesShape(h, o, op);
      var a, b := FieldBodies(h, [], init, op), FieldLines(h, o, op);
      assert FieldBodies(h, [], os, op) == a + b;
      forall i | 0 <= i < |a + b|
        ensures IsFieldLine((a + b)[i])
      {
        if i >= |a| {
          assert (a + b)[i] == b[i - |a|];
        }
      }
    }
  }

  // The body of one method.

  /** Where the ordinary fields' lines start in a method body. */
  function FieldsStart(m: Message): nat
  {
    ParentCount(m) + |Flags(m.fields)|
  }

  /** A body is the parent call, then one line per flag field in sorted order, then the
      lines of the ordinary fields in schema order. */
  lemma BodyLinesSplit(h: Helpers, m: Message, op: Op)
    ensures BodyLines(h, m, op)
         == ParentCall(m, op) + FlagLines([], SortedFlags(m.fields), op) + FieldBodies(h, [], Ordinary(m.fields), op)
    ensures |ParentCall(m, op) + FlagLines([], SortedFlags(m.fields), op)| == FieldsStart(m)
  {
    FlagLinesShift(ParentCall(m, op), SortedFlags(m.fields), op);
    FieldBodiesShift(h, FlagLines(ParentCall(m, op), SortedFlags(m.fields), op), Ordinary(m.fields), op);
  }

  /** A body is empty before the placeholder rule exactly when the message has neither a
      parent nor fields. */
  lemma BodyLinesEmpty(h: Helpers, m: Message, op: Op)
    ensures |BodyLines(h, m, op)| >= ParentCount(m) + |m.fields|
    ensures m.parent == "" && m.fields == [] ==> BodyLines(h, m, op) == []
  {
    BodyLinesSplit(h, m, op);
    PartitionFields(m.fields);
    FieldBodiesShape(h, Ordinary(m.fields), op);
  }

  /** The placeholder comment appears in a body exactly when the message has neither a
      parent nor fields, and it is then the whole body. */
  lemma PlaceholderExactlyWhenEmpty(h: Helpers, m: Message, op: Op)
    ensures (Placeholder in Body(h, m, op)) <==> (m.parent == "" && m.fields == [])
    ensures m.parent == "" && m.fields == [] ==> Body(h, m, op) == [Placeholder]
  {
    BodyLinesEmpty(h, m, op);
    if m.parent != "" || m.fields != [] {
      NoFrameLinesAfterParent(h, m, op);
      assert Body(h, m, op) == BodyLines(h, m, op);
    }
  }

  /** In a body, the only parent call is the very first line, and it is there exactly when
      the message has a parent. */
  lemma ParentCallFirst(h: Helpers, m: Message, op: Op)
    ensures forall i :: 0 <= i < |Body(h, m, op)| ==> (Body(h, m, op)[i].SuperCall? <==> i == 0 && m.parent != "")
    ensures m.parent != "" ==> Body(h, m, op)[0] == SuperCall(op)
  {
    BodyLinesEmpty(h, m, op);
    if m.parent != "" || m.fields != [] {
      NoFrameLinesAfterParent(h, m, op);
    }
  }

  /** Below the parent call, a body holds field lines only. */
  lemma NoFrameLinesAfterParent(h: Helpers, m: Message, op: Op)
    ensures var b := BodyLines(h, m, op);
      forall i :: 0 <= i < |b| ==> (b[i].SuperCall? <==> i == 0 && m.parent != "") && !b[i].Placeholder?
    ensures m.parent != "" ==> |BodyLines(h, m, op)| > 0 && BodyLines(h, m, op)[0] == SuperCall(op)
  {
    BodyLinesSplit(h, m, op);
    var fl, fb := FlagLines([], SortedFlags(m.fields), op), FieldBodies(h, [], Ordinary(m.fields), op);
    FlagLinesShape(SortedFlags(m.fields), op);
    FieldBodiesShape(h, Ordinary(m.fields), op);
    FieldLinesJoin(fl, fb);
    BelowParentCall(BodyLines(h, m, op), ParentCall(m, op), fl + fb, op);
  }

  lemma FlagLinesShape(bs: seq<Field>, op: Op)
    ensures forall i :: 0 <= i < |FlagLines([], bs, op)| ==> IsFieldLine(FlagLines([], bs, op)[i])
  {
    forall i | 0 <= i < |FlagLines([], bs, op)|
      ensures IsFieldLine(FlagLines([], bs, op)[i])
    {
      FlagLinesAt(bs, op, i);
    }
  }

  lemma FieldLinesJoin(a: seq<Line>, b: seq<Line>)
    requires forall i :: 0 <= i < |a| ==> IsFieldLine(a[i])
    requires forall i :: 0 <= i < |b| ==> IsFieldLine(b[i])
    ensures forall i :: 0 <= i < |a + b| ==> IsFieldLine((a + b)[i])
  {
    forall i | 0 <= i < |a + b|
      ensures IsFieldLine((a + b)[i])
    {
      if i >= |a| {
        assert (a + b)[i] == b[i - |a|];
      }
    }
  }

  /** Field lines after an optional parent call: the parent call is the first line or none. */
  lemma BelowParentCall(b: seq<Line>, pc: seq<Line>, rest: seq<Line>, op: Op)
    requires b == pc + rest
    requires pc == [] || pc == [SuperCall(op)]
    requires forall i :: 0 <= i < |rest| ==> IsFieldLine(rest[i])
    ensures forall i :: 0 <= i < |b| ==> (b[i].SuperCall? <==> i == 0 && pc != []) && !b[i].Placeholder?
    ensures pc != [] ==> |b| > 0 && b[0] == SuperCall(op)
  {
    forall i | 0 <= i < |b|
      ensures (b[i].SuperCall? <==> i == 0 && pc != []) && !b[i].Placeholder?
    {
      if i >= |pc| {
        assert b[i] == rest[i - |pc|];
      }
    }
  }

  /** The declarations are those of the flag fields, in sorted order, then those of the
      ordinary fields: one per field. */
  lemma DeclarationsSplit(h: Helpers, m: Message)
    ensures Declarations(h, m) == FlagDecls([], SortedFlags(m.fields)) + FieldDecls(h, [], Ordinary(m.fields))
    ensures |FlagDecls([], SortedFlags(m.fields))| == |Flags(m.fields)|
    ensures |Declarations(h, m)| == |m.fields|
  {
    PartitionFields(m.fields);
    FieldDeclsShift(h, FlagDecls([], SortedFlags(m.fields)), Ordinary(m.fields));
  }

  lemma FlagBodyAt(h: Helpers, m: Message, op: Op, k: nat)
    requires k < |SortedFlags(m.fields)|
    ensures |Body(h, m, op)| >= FieldsStart(m)
    ensures Body(h, m, op)[ParentCount(m) + k] == FlagLine(SortedFlags(m.fields)[k], op)
  {
    BodyLinesSplit(h, m, op);
    FlagLinesAt(SortedFlags(m.fields), op, k);
    var pc, fl, fb := ParentCall(m, op), FlagLines([], SortedFlags(m.fields), op), FieldBodies(h, [], Ordinary(m.fields), op);
    assert BodyLines(h, m, op) == pc + fl + fb;
    assert |pc| + k < |pc + fl|;
    assert Body(h, m, op) == pc + fl + fb;
    assert (pc + fl + fb)[|pc| + k] == fl[k];
  }

  /** The flag field of sorted rank `k` is a flag field of the message; it is declared as a
      false boolean in declaration `k`, and it is reset, written and read on line `k` after
      the parent call. */
  lemma FlagLayout(h: Helpers, m: Message, k: nat)
    requires k < |SortedFlags(m.fields)|
    ensures SortedFlags(m.fields)[k] in m.fields && SortedFlags(m.fields)[k].useBBW
    ensures |Declarations(h, m)| == |m.fields| && |Body(h, m, Reset)| >= FieldsStart(m)
    ensures |Body(h, m, Serialize)| >= FieldsStart(m) && |Body(h, m, Deserialize)| >= FieldsStart(m)
    ensures var b := SortedFlags(m.fields)[k];
      && Declarations(h, m)[k] == Declare(b.name, "boolean", "false")
      && Body(h, m, Reset)[ParentCount(m) + k] == ResetTo(b.name, "false")
      && Body(h, m, Serialize)[ParentCount(m) + k] == WriteFlag(b.name, b.bbwPosition)
      && Body(h, m, Deserialize)[ParentCount(m) + k] == ReadFlag(b.name, b.bbwPosition)
  {
    SortedFlagIsFlag(m.fields, k);
    DeclarationsSplit(h, m);
    FlagDeclsAt(SortedFlags(m.fields), k);
    FlagBodyAt(h, m, Reset, k);
    FlagBodyAt(h, m, Serialize, k);
    FlagBodyAt(h, m, Deserialize, k);
  }

  lemma SortedFlagIsFlag(fields: seq<Field>, k: nat)
    requires k < |SortedFlags(fields)|
    ensures SortedFlags(fields)[k] in fields && SortedFlags(fields)[k].useBBW
  {
    var bs := SortedFlags(fields);
    SortByPositionIsStable(Flags(fields), 0);
    assert bs[k] in multiset(Flags(fields));
    PartitionFields(fields);
    assert bs[k] in multiset(fields);
    GroupsAreHomogeneous(fields);
  }

  /** Ordinary field `k` is declared right after the flag fields with its type and initial
      value, and `reset`, which holds one line per field after the parent call, assigns it
      that same initial value. */
  lemma OrdinaryLayout(h: Helpers, m: Message, k: nat)
    requires k < |Ordinary(m.fields)|
    ensures |Declarations(h, m)| == |m.fields| == |Flags(m.fields)| + |Ordinary(m.fields)|
    ensures |Body(h, m, Reset)| == ParentCount(m) + |m.fields|
    ensures var o := Ordinary(m.fields)[k];
      && Declarations(h, m)[|Flags(m.fields)| + k] == Declare(o.name, TypeText(h, o), InitText(h, o))
      && Body(h, m, Reset)[FieldsStart(m) + k] == ResetTo(o.name, InitText(h, o))
  {
    var os := Ordinary(m.fields);
    DeclarationsSplit(h, m);
    FieldDeclsAt(h, os, k);
    var fd, od := FlagDecls([], SortedFlags(m.fields)), FieldDecls(h, [], os);
    assert (fd + od)[|fd| + k] == od[k];
    BodyLinesSplit(h, m, Reset);
    BodyLinesEmpty(h, m, Reset);
    PartitionFields(m.fields);
    ResetLinesAt(h, os, k);
    var pf, fb := ParentCall(m, Reset) + FlagLines([], SortedFlags(m.fields), Reset), FieldBodies(h, [], os, Reset);
    assert (pf + fb)[|pf| + k] == fb[k];
  }

  /** The class body opens with the static id, the declarations and then the methods. */
  lemma MessageDataSplit(h: Helpers, m: Message)
    ensures MessageData(h, m)
         == ClassLines(m, Head(m) + Declarations(h, m),
                       BodyLines(h, m, Reset), BodyLines(h, m, Serialize), BodyLines(h, m, Deserialize))
  {
    var fd := FlagDecls([], SortedFlags(m.fields));
    var od := FieldDecls(h, [], Ordinary(m.fields));
    FlagDeclsShift(Head(m), SortedFlags(m.fields));
    FieldDeclsShift(h, Head(m) + fd, Ordinary(m.fields));
    FieldDeclsShift(h, fd, Ordinary(m.fields));
    assert (Head(m) + fd) + od == Head(m) + (fd + od);
  }
}
