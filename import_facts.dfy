/** What generating one message adds to its file's import list: the flag wrapper exactly
    once when the message has flag fields, the type manager exactly once when some ordinary
    field is resolved through it, and each custom type used by an ordinary field exactly
    once, from the package the protocol declares it in. */
module ImportFacts {
  import opened Schema
  import opened Layout
  import opened Emit
  import opened Codec

  /** The names of the custom types imported by `s`. */
  function NamedImports(s: seq<Import>): set<string>
  {
    set i | 0 <= i < |s| && s[i].ImportNamed? :: s[i].name
  }

  /** No custom type is imported twice. */
  predicate NamesDistinct(s: seq<Import>)
  {
    forall i, j :: 0 <= i < j < |s| && s[i].ImportNamed? && s[j].ImportNamed? ==> s[i].name != s[j].name
  }

  /** Every custom-type import names the package the protocol declares the type in. */
  predicate FromDeclaredPackage(h: Helpers, p: Protocol, s: seq<Import>)
  {
    forall i :: 0 <= i < |s| && s[i].ImportNamed? ==>
      FindType(p.types, s[i].name).Some?
      && s[i].namespace == h.cleanNamespace(FindType(p.types, s[i].name).value.package)
  }

  /** How many times `x` occurs in `s`. */
  function Count(s: seq<Import>, x: Import): nat
  {
    multiset(s)[x]
  }

  lemma CustomTypesMembers(h: Helpers, os: seq<Field>, t: string)
    ensures t in CustomTypes(h, os) <==> exists o :: o in os && IsCustom(h, o) && o.typeName == t
    decreases |os|
  {
    if os != [] {
      var init, o := os[..|os| - 1], os[|os| - 1];
      assert os == init + [o];
      CustomTypesMembers(h, init, t);
      if t in CustomTypes(h, os) && t !in CustomTypes(h, init) {
        assert o in os;
      }
    }
  }

  lemma AnyTypeManagerMembers(os: seq<Field>)
    ensures AnyTypeManager(os) <==> exists o :: o in os && o.useTypeManager
    decreases |os|
  {
    if os != [] {
      var init, o := os[..|os| - 1], os[|os| - 1];
      assert os == init + [o];
      AnyTypeManagerMembers(init);
      if AnyTypeManager(os) && !AnyTypeManager(init) {
        assert o in os;
      }
    }
  }

  lemma NamedImportsAppend(a: seq<Import>, b: seq<Import>)
    ensures NamedImports(a + b) == NamedImports(a) + NamedImports(b)
  {
    forall t | t in NamedImports(a + b)
      ensures t in NamedImports(a) + NamedImports(b)
    {
      var i :| 0 <= i < |a + b| && (a + b)[i].ImportNamed? && (a + b)[i].name == t;
      if i >= |a| {
        assert b[i - |a|] == (a + b)[i];
      }
    }
    forall t | t in NamedImports(b)
      ensures t in NamedImports(a + b)
    {
      var i :| 0 <= i < |b| && b[i].ImportNamed? && b[i].name == t;
      assert (a + b)[|a| + i] == b[i];
    }
    forall t | t in NamedImports(a)
      ensures t in NamedImports(a + b)
    {
      var i :| 0 <= i < |a| && a[i].ImportNamed? && a[i].name == t;
      assert (a + b)[i] == a[i];
    }
  }

  /** The custom types imported for the ordinary fields `os` are exactly those they use. */
  lemma {:induction false} FieldImportsNames(h: Helpers, p: Protocol, os: seq<Field>)
    requires CustomTypesDeclared(h, p, os)
    ensures NamedImports(FieldImports(h, p, [], os)) == CustomTypes(h, os)
  {
    if os != [] {
      var init, o := os[..|os| - 1], os[|os| - 1];
      assert o in os;
      FieldImportsNames(h, p, init);
      var seen, x := CustomTypes(h, init), FieldImport(h, p, o, CustomTypes(h, init), AnyTypeManager(init));
      NamedImportsAppend(FieldImports(h, p, [], init), x);
      if IsCustom(h, o) && o.typeName !in seen {
        assert x[0].name == o.typeName;
        assert NamedImports(x) == {o.typeName};
      } else {
        assert NamedImports(x) == {};
      }
    }
  }

  /** No custom type is imported twice. */
  lemma {:induction false} FieldImportsDistinct(h: Helpers, p: Protocol, os: seq<Field>)
    requires CustomTypesDeclared(h, p, os)
    ensures NamesDistinct(FieldImports(h, p, [], os))
  {
    if os != [] {
      var init, o := os[..|os| - 1], os[|os| - 1];
      assert o in os;
      FieldImportsDistinct(h, p, init);
      FieldImportsNames(h, p, init);
      var a := FieldImports(h, p, [], init);
      var x := FieldImport(h, p, o, CustomTypes(h, init), AnyTypeManager(init));
      var s: seq<Import> := a + x;
      assert FieldImports(h, p, [], os) == s;
      forall i, j | 0 <= i < j < |s| && s[i].ImportNamed? && s[j].ImportNamed?
        ensures s[i].name != s[j].name
      {
        if j >= |a| {
          assert s[j] == x[j - |a|];
          assert j - |a| == 0 && x[0].name == o.typeName && o.typeName !in CustomTypes(h, init);
          assert s[i] == a[i];
          assert a[i].name in NamedImports(a);
        } else {
          assert s[i] == a[i] && s[j] == a[j];
        }
      }
    }
  }

  /** Each custom-type import comes from the package the protocol declares the type in. */
  lemma {:induction false} FieldImportsPackages(h: Helpers, p: Protocol, os: seq<Field>)
    requires CustomTypesDeclared(h, p, os)
    ensures FromDeclaredPackage(h, p, FieldImports(h, p, [], os))
  {
    if os != [] {
      var init, o := os[..|os| - 1], os[|os| - 1];
      assert o in os;
      FieldImportsPackages(h, p, init);
      var a := FieldImports(h, p, [], init);
      var x := FieldImport(h, p, o, CustomTypes(h, init), AnyTypeManager(init));
      var s: seq<Import> := a + x;
      assert FieldImports(h, p, [], os) == s;
      forall i | 0 <= i < |s| && s[i].ImportNamed?
        ensures FindType(p.types, s[i].name).Some?
        ensures s[i].namespace == h.cleanNamespace(FindType(p.types, s[i].name).value.package)
      {
        if i >= |a| {
          assert s[i] == x[i - |a|];
        } else {
          assert s[i] == a[i];
        }
      }
    }
  }

  /** The type manager is imported once if some ordinary field needs it, else never; the
      flag wrapper is never imported for an ordinary field. */
  lemma {:induction false} FieldImportsCounts(h: Helpers, p: Protocol, os: seq<Field>)
    requires CustomTypesDeclared(h, p, os)
    ensures Count(FieldImports(h, p, [], os), TypeManagerImport) == (if AnyTypeManager(os) then 1 else 0)
    ensures Count(FieldImports(h, p, [], os), FlagWrapperImport) == 0
    ensures Count(FieldImports(h, p, [], os), RuntimeImports) == 0
  {
    if os != [] {
      var init, o := os[..|os| - 1], os[|os| - 1];
      assert o in os;
      FieldImportsCounts(h, p, init);
      var a := FieldImports(h, p, [], init);
      var x := FieldImport(h, p, o, CustomTypes(h, init), AnyTypeManager(init));
      assert multiset(a + x) == multiset(a) + multiset(x);
    }
  }

  /** The flag wrapper import comes first, then the imports of the ordinary fields. */
  lemma AddedImportsSplit(h: Helpers, p: Protocol, m: Message)
    requires CustomTypesDeclared(h, p, Ordinary(m.fields))
    ensures AddedImports(h, p, m) == FlagImport(m) + FieldImports(h, p, [], Ordinary(m.fields))
  {
    FieldImportsShift(h, p, FlagImport(m), [], Ordinary(m.fields));
    assert FlagImport(m) + [] == FlagImport(m);
  }

  /** Generating message `m` imports the flag wrapper once if it has a flag field and never
      otherwise, and the type manager once if an ordinary field is resolved through it and
      never otherwise; it adds none of the fixed runtime imports. */
  lemma AddedImportsCounts(h: Helpers, p: Protocol, m: Message)
    requires CustomTypesDeclared(h, p, Ordinary(m.fields))
    ensures Count(AddedImports(h, p, m), FlagWrapperImport) == (if exists f :: f in m.fields && f.useBBW then 1 else 0)
    ensures Count(AddedImports(h, p, m), TypeManagerImport)
         == (if exists o :: o in Ordinary(m.fields) && o.useTypeManager then 1 else 0)
    ensures Count(AddedImports(h, p, m), RuntimeImports) == 0
  {
    var fi, a := FlagImport(m), FieldImports(h, p, [], Ordinary(m.fields));
    AddedImportsSplit(h, p, m);
    FieldImportsCounts(h, p, Ordinary(m.fields));
    AnyTypeManagerMembers(Ordinary(m.fields));
    FlagsNonEmpty(m.fields);
    assert multiset(fi + a) == multiset(fi) + multiset(a);
  }

  /** Generating message `m` imports exactly the custom types its ordinary fields use, each
      once, each from the package the protocol declares it in. */
  lemma AddedImportsNames(h: Helpers, p: Protocol, m: Message)
    requires CustomTypesDeclared(h, p, Ordinary(m.fields))
    ensures forall t :: t in NamedImports(AddedImports(h, p, m))
                    <==> exists o :: o in Ordinary(m.fields) && IsCustom(h, o) && o.typeName == t
    ensures NamesDistinct(AddedImports(h, p, m))
    ensures FromDeclaredPackage(h, p, AddedImports(h, p, m))
  {
    var os := Ordinary(m.fields);
    var fi, a := FlagImport(m), FieldImports(h, p, [], os);
    AddedImportsSplit(h, p, m);
    FieldImportsNames(h, p, os);
    FieldImportsDistinct(h, p, os);
    FieldImportsPackages(h, p, os);
    NoNamedImportsPrefix(h, p, fi, a);
    forall t
      ensures t in NamedImports(fi + a) <==> exists o :: o in os && IsCustom(h, o) && o.typeName == t
    {
      CustomTypesMembers(h, os, t);
    }
  }

  /** The names imported by generating message `m` are the custom types of its ordinary
      fields. */
  lemma AddedImportsNameSet(h: Helpers, p: Protocol, m: Message)
    requires CustomTypesDeclared(h, p, Ordinary(m.fields))
    ensures NamedImports(AddedImports(h, p, m)) == CustomTypes(h, Ordinary(m.fields))
  {
    var fi := FlagImport(m);
    AddedImportsSplit(h, p, m);
    FieldImportsNames(h, p, Ordinary(m.fields));
    assert forall i :: 0 <= i < |fi| ==> !fi[i].ImportNamed?;
    NoNamedImportsPrefix(h, p, fi, FieldImports(h, p, [], Ordinary(m.fields)));
  }

  /** Prefixing imports that name no custom type keeps the facts about custom-type imports. */
  lemma NoNamedImportsPrefix(h: Helpers, p: Protocol, pre: seq<Import>, s: seq<Import>)
    requires forall i :: 0 <= i < |pre| ==> !pre[i].ImportNamed?
    ensures NamedImports(pre + s) == NamedImports(s)
    ensures NamesDistinct(s) ==> NamesDistinct(pre + s)
    ensures FromDeclaredPackage(h, p, s) ==> FromDeclaredPackage(h, p, pre + s)
  {
    NamedImportsAppend(pre, s);
    assert NamedImports(pre) == {};
    var t: seq<Import> := pre + s;
    forall i | 0 <= i < |t| && t[i].ImportNamed?
      ensures i >= |pre| && t[i] == s[i - |pre|]
    {
    }
  }

  lemma {:induction false} FlagsNonEmpty(fields: seq<Field>)
    ensures |Flags(fields)| > 0 <==> exists f :: f in fields && f.useBBW
  {
    if fields != [] {
      FlagsNonEmpty(fields[1..]);
      assert fields == [fields[0]] + fields[1..];
      if exists f :: f in fields && f.useBBW {
        var f :| f in fields && f.useBBW;
        if f != fields[0] {
          assert f in fields[1..];
        }
      }
    }
  }
}
