/**
 * The export side (export/main.go): the `isExported` predicate and the
 * loops of the CLI action that turn the documented declarations of the
 * parsed Go packages into the flat doc index.
 *
 * The parsed packages are taken as input, already reduced to what the
 * loops read: top-level functions, and per type its methods and, when the
 * type is an interface, its method fields.
 */
module ExportIndex {
  import opened Wrappers

  /** A Go string is a sequence of bytes; a byte is modelled as a character below 256. */
  type Byte = c: char | c as int < 256
  type GoString = seq<Byte>

  /** A documented function or method: its name and its doc text (`doc.Func`). */
  datatype Func = Func(name: GoString, doc: GoString)

  /** One method field of an interface: its names and `field.Doc.Text()`. */
  datatype Field = Field(names: seq<GoString>, doc: GoString)

  /** A type of the package; `iface` holds the method fields when it is an interface type. */
  datatype TypeDecl = TypeDecl(name: GoString, methods: seq<Func>, iface: Option<seq<Field>>)

  /** The `doc.Package` of one parsed package. */
  datatype Package = Package(funcs: seq<Func>, types: seq<TypeDecl>)

  /** One index entry, and the index. */
  datatype FuncComment = FuncComment(name: GoString, doc: GoString)
  datatype FuncComments = FuncComments(funcs: seq<FuncComment>)

  // ---------------------------------------------------------------------
  // isExported
  // ---------------------------------------------------------------------

  /**
   * `unicode.IsUpper(rune(b))` for a single byte b: the byte is read as the
   * code point of the same value, whose upper-case letters are A-Z and the
   * Latin-1 letters U+00C0-U+00DE except the multiplication sign U+00D7.
   */
  predicate IsUpperByte(b: Byte)
  {
    ('A' <= b <= 'Z') || ('À' <= b <= 'Þ' && b != '×')
  }

  /** `isExported`: a non-empty name whose first byte is upper case. */
  predicate IsExported(name: GoString)
  {
    name != [] && IsUpperByte(name[0])
  }

  /** Only the first byte counts, so anything appended to an exported name keeps it exported. */
  lemma ExportedExtended(name: GoString, suffix: GoString)
    requires IsExported(name)
    ensures IsExported(name + suffix)
  {
    assert (name + suffix)[0] == name[0];
  }

  /**
   * On a name that starts with an ASCII byte this is Go's export rule for
   * identifiers: the name starts with one of 'A' to 'Z'.
   */
  lemma ExportedAscii(name: GoString)
    requires name != [] && name[0] as int < 128
    ensures IsExported(name) <==> 'A' <= name[0] <= 'Z'
  {
  }

  /**
   * The first byte is read alone, not the first UTF-8 character: the
   * lower-case "é" (bytes C3 A9) starts with C3, read as the upper-case
   * "Ã", so a name starting with "é" counts as exported.
   */
  lemma LeadByteDecides(rest: GoString)
    ensures IsExported(['Ã', '©'] + rest)
  {
  }

  // ---------------------------------------------------------------------
  // strings.TrimRight(s, "\r\n")
  // ---------------------------------------------------------------------

  predicate IsCrLf(b: Byte)
  {
    b == '\r' || b == '\n'
  }

  /** `strings.TrimRight(s, "\r\n")`: s without its trailing carriage returns and line feeds. */
  function TrimRight(s: GoString): (r: GoString)
    ensures r <= s
    ensures r == [] || !IsCrLf(r[|r| - 1])
    ensures forall i :: |r| <= i < |s| ==> IsCrLf(s[i])
  {
    if s != [] && IsCrLf(s[|s| - 1]) then TrimRight(s[..|s| - 1]) else s
  }

  /**
   * TrimRight is the only prefix of s that does not end in CR or LF and is
   * followed by nothing but CRs and LFs.
   */
  lemma {:induction false} TrimRightUnique(s: GoString, r: GoString)
    requires r <= s && (r == [] || !IsCrLf(r[|r| - 1]))
    requires forall i :: |r| <= i < |s| ==> IsCrLf(s[i])
    ensures r == TrimRight(s)
    decreases |s|
  {
    if s != [] && IsCrLf(s[|s| - 1]) {
      if |r| == |s| {
        assert r == s;
      } else {
        TrimRightUnique(s[..|s| - 1], r);
      }
    }
  }

  /** Trimming twice is trimming once. */
  lemma TrimRightIdempotent(s: GoString)
    ensures TrimRight(TrimRight(s)) == TrimRight(s)
  {
    TrimRightUnique(TrimRight(s), TrimRight(s));
  }

  // ---------------------------------------------------------------------
  // The entries of one declaration
  // ---------------------------------------------------------------------

  /** The suffixes and the separator of the derived names. */
  const Ex: GoString := "Ex"
  const Async: GoString := "Async"
  const Interface: GoString := "Interface"
  const Dot: GoString := "."

  /** A top-level function: N, NEx, NAsync when exported and documented, else nothing. */
  function FuncEntries(f: Func): seq<FuncComment>
  {
    if IsExported(f.name) && |f.doc| > 0 then
      var d := TrimRight(f.doc);
      [FuncComment(f.name, d), FuncComment(f.name + Ex, d), FuncComment(f.name + Async, d)]
    else []
  }

  /** A method M of type T: T.M, T.MEx, T.MAsync when both are exported and M is documented. */
  function MethodEntries(typeName: GoString, m: Func): seq<FuncComment>
  {
    if IsExported(typeName) && IsExported(m.name) && |m.doc| > 0 then
      var q := typeName + Dot + m.name;
      var d := TrimRight(m.doc);
      [FuncComment(q, d), FuncComment(q + Ex, d), FuncComment(q + Async, d)]
    else []
  }

  /**
   * A method name of interface T: TM, TMEx, TMInterface, TMAsync (no dot)
   * when both are exported and the field is documented.
   */
  function InterfaceEntries(typeName: GoString, name: GoString, doc: GoString): seq<FuncComment>
  {
    if IsExported(typeName) && IsExported(name) && |doc| > 0 then
      var q := typeName + name;
      var d := TrimRight(doc);
      [FuncComment(q, d), FuncComment(q + Ex, d), FuncComment(q + Interface, d), FuncComment(q + Async, d)]
    else []
  }

  // ---------------------------------------------------------------------
  // The index: the groups appended in iteration order
  // ---------------------------------------------------------------------

  function FuncsEntries(fs: seq<Func>): seq<FuncComment>
  {
    if fs == [] then [] else FuncsEntries(fs[..|fs| - 1]) + FuncEntries(fs[|fs| - 1])
  }

  function MethodsEntries(typeName: GoString, ms: seq<Func>): seq<FuncComment>
  {
    if ms == [] then [] else MethodsEntries(typeName, ms[..|ms| - 1]) + MethodEntries(typeName, ms[|ms| - 1])
  }

  /** The entries of the names of one interface field. */
  function NamesEntries(typeName: GoString, names: seq<GoString>, doc: GoString): seq<FuncComment>
  {
    if names == [] then []
    else NamesEntries(typeName, names[..|names| - 1], doc) + InterfaceEntries(typeName, names[|names| - 1], doc)
  }

  function FieldsEntries(typeName: GoString, fields: seq<Field>): seq<FuncComment>
  {
    if fields == [] then []
    else
      var f := fields[|fields| - 1];
      FieldsEntries(typeName, fields[..|fields| - 1]) + NamesEntries(typeName, f.names, f.doc)
  }

  /** A type's entries: its methods first, then its interface fields. */
  function TypeEntries(t: TypeDecl): seq<FuncComment>
  {
    MethodsEntries(t.name, t.methods) + match t.iface
      case None => []
      case Some(fs) => FieldsEntries(t.name, fs)
  }

  function TypesEntries(ts: seq<TypeDecl>): seq<FuncComment>
  {
    if ts == [] then [] else TypesEntries(ts[..|ts| - 1]) + TypeEntries(ts[|ts| - 1])
  }

  /** A package's entries: its functions first, then its types. */
  function PackageEntries(p: Package): seq<FuncComment>
  {
    FuncsEntries(p.funcs) + TypesEntries(p.types)
  }

  /** Every package's entries, in the order the packages are visited. */
  function IndexEntries(ps: seq<Package>): seq<FuncComment>
  {
    if ps == [] then [] else IndexEntries(ps[..|ps| - 1]) + PackageEntries(ps[|ps| - 1])
  }

  // ---------------------------------------------------------------------
  // What one declaration contributes
  // ---------------------------------------------------------------------

  /** An entry under an exported name whose doc does not end in CR or LF. */
  predicate ValidEntry(e: FuncComment)
  {
    IsExported(e.name) && (e.doc == [] || !IsCrLf(e.doc[|e.doc| - 1]))
  }

  predicate AllValid(r: seq<FuncComment>)
  {
    forall i :: 0 <= i < |r| ==> ValidEntry(r[i])
  }

  /**
   * An exported, documented function contributes N, NEx, NAsync with its
   * trimmed doc; any other contributes nothing.
   */
  lemma FuncEntriesShape(f: Func)
    ensures var r := FuncEntries(f);
      if IsExported(f.name) && |f.doc| > 0 then
        var d := TrimRight(f.doc);
        && |r| == 3
        && r[0] == FuncComment(f.name, d)
        && r[1] == FuncComment(f.name + Ex, d)
        && r[2] == FuncComment(f.name + Async, d)
        && AllValid(r)
      else r == []
  {
    if IsExported(f.name) && |f.doc| > 0 {
      ExportedExtended(f.name, Ex);
      ExportedExtended(f.name, Async);
    }
  }

  /**
   * A method contributes T.M, T.MEx, T.MAsync only when the type and the
   * method are both exported and the method is documented.
   */
  lemma MethodEntriesShape(typeName: GoString, m: Func)
    ensures var r := MethodEntries(typeName, m);
      if IsExported(typeName) && IsExported(m.name) && |m.doc| > 0 then
        var q := typeName + Dot + m.name;
        var d := TrimRight(m.doc);
        && |r| == 3
        && r[0] == FuncComment(q, d)
        && r[1] == FuncComment(q + Ex, d)
        && r[2] == FuncComment(q + Async, d)
        && AllValid(r)
      else r == []
  {
    if IsExported(typeName) && IsExported(m.name) && |m.doc| > 0 {
      var q := typeName + Dot + m.name;
      assert q == typeName + (Dot + m.name);
      ExportedExtended(typeName, Dot + m.name);
      ExportedExtended(q, Ex);
      ExportedExtended(q, Async);
    }
  }

  /**
   * An interface method name contributes TM, TMEx, TMInterface, TMAsync
   * (no dot) under the same conditions.
   */
  lemma InterfaceEntriesShape(typeName: GoString, name: GoString, doc: GoString)
    ensures var r := InterfaceEntries(typeName, name, doc);
      if IsExported(typeName) && IsExported(name) && |doc| > 0 then
        var q := typeName + name;
        var d := TrimRight(doc);
        && |r| == 4
        && r[0] == FuncComment(q, d)
        && r[1] == FuncComment(q + Ex, d)
        && r[2] == FuncComment(q + Interface, d)
        && r[3] == FuncComment(q + Async, d)
        && AllValid(r)
      else r == []
  {
    if IsExported(typeName) && IsExported(name) && |doc| > 0 {
      var q := typeName + name;
      ExportedExtended(typeName, name);
      ExportedExtended(q, Ex);
      ExportedExtended(q, Interface);
      ExportedExtended(q, Async);
    }
  }

  /**
   * The emptiness test is on the untrimmed doc: a doc made only of line
   * breaks still yields three entries, each with an empty doc.
   */
  lemma LineBreakOnlyDoc(f: Func)
    requires IsExported(f.name) && |f.doc| > 0
    requires forall i :: 0 <= i < |f.doc| ==> IsCrLf(f.doc[i])
    ensures |FuncEntries(f)| == 3
    ensures forall i :: 0 <= i < 3 ==> FuncEntries(f)[i].doc == []
  {
  }

  // ---------------------------------------------------------------------
  // What the whole index holds
  // ---------------------------------------------------------------------

  lemma {:induction false} FuncsValid(fs: seq<Func>)
    ensures AllValid(FuncsEntries(fs))
  {
    if fs != [] {
      FuncsValid(fs[..|fs| - 1]);
      FuncEntriesShape(fs[|fs| - 1]);
      assert AllValid(FuncsEntries(fs[..|fs| - 1]) + FuncEntries(fs[|fs| - 1]));
    }
  }

  lemma {:induction false} MethodsValid(typeName: GoString, ms: seq<Func>)
    ensures AllValid(MethodsEntries(typeName, ms))
  {
    if ms != [] {
      MethodsValid(typeName, ms[..|ms| - 1]);
      MethodEntriesShape(typeName, ms[|ms| - 1]);
      assert AllValid(MethodsEntries(typeName, ms[..|ms| - 1]) + MethodEntries(typeName, ms[|ms| - 1]));
    }
  }

  lemma {:induction false} NamesValid(typeName: GoString, names: seq<GoString>, doc: GoString)
    ensures AllValid(NamesEntries(typeName, names, doc))
  {
    if names != [] {
      NamesValid(typeName, names[..|names| - 1], doc);
      InterfaceEntriesShape(typeName, names[|names| - 1], doc);
      assert AllValid(NamesEntries(typeName, names[..|names| - 1], doc) + InterfaceEntries(typeName, names[|names| - 1], doc));
    }
  }

  lemma {:induction false} FieldsValid(typeName: GoString, fields: seq<Field>)
    ensures AllValid(FieldsEntries(typeName, fields))
  {
    if fields != [] {
      var f := fields[|fields| - 1];
      FieldsValid(typeName, fields[..|fields| - 1]);
      NamesValid(typeName, f.names, f.doc);
      assert AllValid(FieldsEntries(typeName, fields[..|fields| - 1]) + NamesEntries(typeName, f.names, f.doc));
    }
  }

  lemma {:induction false} TypesValid(ts: seq<TypeDecl>)
    ensures AllValid(TypesEntries(ts))
  {
    if ts != [] {
      var t := ts[|ts| - 1];
      TypesValid(ts[..|ts| - 1]);
      MethodsValid(t.name, t.methods);
      if t.iface.Some? {
        FieldsValid(t.name, t.iface.value);
        assert AllValid(MethodsEntries(t.name, t.methods) + FieldsEntries(t.name, t.iface.value));
      } else {
        assert TypeEntries(t) == MethodsEntries(t.name, t.methods) + [];
      }
      assert AllValid(TypesEntries(ts[..|ts| - 1]) + TypeEntries(t));
    }
  }

  /**
   * Every entry of the index is under an exported name and carries a doc
   * that does not end in CR or LF.
   */
  lemma {:induction false} IndexValid(ps: seq<Package>)
    ensures AllValid(IndexEntries(ps))
  {
    if ps != [] {
      var p := ps[|ps| - 1];
      IndexValid(ps[..|ps| - 1]);
      FuncsValid(p.funcs);
      TypesValid(p.types);
      assert AllValid(FuncsEntries(p.funcs) + TypesEntries(p.types));
      assert AllValid(IndexEntries(ps[..|ps| - 1]) + PackageEntries(p));
    }
  }

  /**
   * Entries are only appended: the index of two runs of packages is the
   * index of the first followed by the index of the second.
   */
  lemma {:induction false} IndexAppend(ps: seq<Package>, qs: seq<Package>)
    ensures IndexEntries(ps + qs) == IndexEntries(ps) + IndexEntries(qs)
    decreases |qs|
  {
    if qs == [] {
      assert ps + qs == ps;
    } else {
      var init := qs[..|qs| - 1];
      assert ps + qs == (ps + init) + [qs[|qs| - 1]];
      IndexAppend(ps, init);
      IndexSnoc(ps + qs, |ps + qs| - 1);
      IndexSnoc(qs, |qs| - 1);
      assert (ps + qs)[..|ps + qs| - 1] == ps + init;
      assert qs[..|qs|] == qs;
      assert (ps + qs)[..|ps + qs|] == ps + qs;
      AppendAssoc(IndexEntries(ps), IndexEntries(init), PackageEntries(qs[|qs| - 1]));
    }
  }

  // ---------------------------------------------------------------------
  // One more declaration visited
  // ---------------------------------------------------------------------

  lemma FuncsSnoc(fs: seq<Func>, i: int)
    requires 0 <= i < |fs|
    ensures FuncsEntries(fs[..i + 1]) == FuncsEntries(fs[..i]) + FuncEntries(fs[i])
  {
    assert fs[..i + 1][..i] == fs[..i];
  }

  lemma MethodsSnoc(typeName: GoString, ms: seq<Func>, i: int)
    requires 0 <= i < |ms|
    ensures MethodsEntries(typeName, ms[..i + 1]) == MethodsEntries(typeName, ms[..i]) + MethodEntries(typeName, ms[i])
  {
    assert ms[..i + 1][..i] == ms[..i];
  }

  lemma NamesSnoc(typeName: GoString, names: seq<GoString>, doc: GoString, i: int)
    requires 0 <= i < |names|
    ensures NamesEntries(typeName, names[..i + 1], doc)
         == NamesEntries(typeName, names[..i], doc) + InterfaceEntries(typeName, names[i], doc)
  {
    assert names[..i + 1][..i] == names[..i];
  }

  lemma FieldsSnoc(typeName: GoString, fields: seq<Field>, i: int)
    requires 0 <= i < |fields|
    ensures FieldsEntries(typeName, fields[..i + 1])
         == FieldsEntries(typeName, fields[..i]) + NamesEntries(typeName, fields[i].names, fields[i].doc)
  {
    assert fields[..i + 1][..i] == fields[..i];
  }

  lemma TypesSnoc(ts: seq<TypeDecl>, i: int)
    requires 0 <= i < |ts|
    ensures TypesEntries(ts[..i + 1]) == TypesEntries(ts[..i]) + TypeEntries(ts[i])
  {
    assert ts[..i + 1][..i] == ts[..i];
  }

  lemma IndexSnoc(ps: seq<Package>, i: int)
    requires 0 <= i < |ps|
    ensures IndexEntries(ps[..i + 1]) == IndexEntries(ps[..i]) + PackageEntries(ps[i])
  {
    assert ps[..i + 1][..i] == ps[..i];
  }

  // ---------------------------------------------------------------------
  // The loops
  // ---------------------------------------------------------------------

  /**
   * Regrouping appended entries; stated once so that the loop proofs reason
   * about three names rather than the unfolded index functions.
   */
  lemma AppendAssoc(a: seq<FuncComment>, b: seq<FuncComment>, c: seq<FuncComment>)
    ensures a + b + c == a + (b + c)
  {
  }

  /** The loop over a package's functions: appends their entries to `funcs`. */
  method AppendFuncs(funcs0: seq<FuncComment>, fs: seq<Func>) returns (funcs: seq<FuncComment>)
    ensures funcs == funcs0 + FuncsEntries(fs)
  {
    funcs := funcs0;
    for i := 0 to |fs|
      invariant funcs == funcs0 + FuncsEntries(fs[..i])
    {
      var f := fs[i];
      ghost var before := funcs;
      if IsExported(f.name) && |f.doc| > 0 {
        funcs := funcs + [FuncComment(f.name, TrimRight(f.doc))];
        funcs := funcs + [FuncComment(f.name + Ex, TrimRight(f.doc))];
        funcs := funcs + [FuncComment(f.name + Async, TrimRight(f.doc))];
      }
      assert funcs == before + FuncEntries(f);
      FuncsSnoc(fs, i);
      AppendAssoc(funcs0, FuncsEntries(fs[..i]), FuncEntries(f));
    }
    assert fs[..|fs|] == fs;
  }

  /** The loop over a type's methods. */
  method AppendMethods(funcs0: seq<FuncComment>, typeName: GoString, ms: seq<Func>) returns (funcs: seq<FuncComment>)
    ensures funcs == funcs0 + MethodsEntries(typeName, ms)
  {
    funcs := funcs0;
    for mi := 0 to |ms|
      invariant funcs == funcs0 + MethodsEntries(typeName, ms[..mi])
    {
      var m := ms[mi];
      ghost var before := funcs;
      if IsExported(typeName) && IsExported(m.name) && |m.doc| > 0 {
        funcs := funcs + [FuncComment(typeName + Dot + m.name, TrimRight(m.doc))];
        funcs := funcs + [FuncComment(typeName + Dot + m.name + Ex, TrimRight(m.doc))];
        funcs := funcs + [FuncComment(typeName + Dot + m.name + Async, TrimRight(m.doc))];
      }
      assert funcs == before + MethodEntries(typeName, m);
      MethodsSnoc(typeName, ms, mi);
      AppendAssoc(funcs0, MethodsEntries(typeName, ms[..mi]), MethodEntries(typeName, m));
    }
    assert ms[..|ms|] == ms;
  }

  /** The loop over the names of one interface field. */
  method AppendNames(funcs0: seq<FuncComment>, typeName: GoString, field: Field) returns (funcs: seq<FuncComment>)
    ensures funcs == funcs0 + NamesEntries(typeName, field.names, field.doc)
  {
    funcs := funcs0;
    for ni := 0 to |field.names|
      invariant funcs == funcs0 + NamesEntries(typeName, field.names[..ni], field.doc)
    {
      var name := field.names[ni];
      ghost var before := funcs;
      if IsExported(typeName) && IsExported(name) && |field.doc| > 0 {
        funcs := funcs + [FuncComment(typeName + name, TrimRight(field.doc))];
        funcs := funcs + [FuncComment(typeName + name + Ex, TrimRight(field.doc))];
        funcs := funcs + [FuncComment(typeName + name + Interface, TrimRight(field.doc))];
        funcs := funcs + [FuncComment(typeName + name + Async, TrimRight(field.doc))];
      }
      assert funcs == before + InterfaceEntries(typeName, name, field.doc);
      NamesSnoc(typeName, field.names, field.doc, ni);
      AppendAssoc(funcs0, NamesEntries(typeName, field.names[..ni], field.doc), InterfaceEntries(typeName, name, field.doc));
    }
    assert field.names[..|field.names|] == field.names;
  }

  /**
   * One type: its methods, then, when the type is an interface
   * (the `*ast.InterfaceType` assertion succeeds), the loop over its fields.
   */
  method AppendType(funcs0: seq<FuncComment>, t: TypeDecl) returns (funcs: seq<FuncComment>)
    ensures funcs == funcs0 + TypeEntries(t)
  {
    funcs := AppendMethods(funcs0, t.name, t.methods);
    ghost var atFields := funcs;
    if t.iface.Some? {
      var fields := t.iface.value;
      for fi := 0 to |fields|
        invariant funcs == atFields + FieldsEntries(t.name, fields[..fi])
      {
        funcs := AppendNames(funcs, t.name, fields[fi]);
        FieldsSnoc(t.name, fields, fi);
        AppendAssoc(atFields, FieldsEntries(t.name, fields[..fi]), NamesEntries(t.name, fields[fi].names, fields[fi].doc));
      }
      assert fields[..|fields|] == fields;
      AppendAssoc(funcs0, MethodsEntries(t.name, t.methods), FieldsEntries(t.name, fields));
    } else {
      assert funcs == funcs0 + MethodsEntries(t.name, t.methods) + [];
    }
  }

  /** One package: its functions, then its types. */
  method AppendPackage(funcs0: seq<FuncComment>, docPkg: Package) returns (funcs: seq<FuncComment>)
    ensures funcs == funcs0 + PackageEntries(docPkg)
  {
    funcs := AppendFuncs(funcs0, docPkg.funcs);
    ghost var atTypes := funcs;
    for ti := 0 to |docPkg.types|
      invariant funcs == atTypes + TypesEntries(docPkg.types[..ti])
    {
      funcs := AppendType(funcs, docPkg.types[ti]);
      TypesSnoc(docPkg.types, ti);
      AppendAssoc(atTypes, TypesEntries(docPkg.types[..ti]), TypeEntries(docPkg.types[ti]));
    }
    assert docPkg.types[..|docPkg.types|] == docPkg.types;
    AppendAssoc(funcs0, FuncsEntries(docPkg.funcs), TypesEntries(docPkg.types));
  }

  /**
   * The body of the CLI action between parsing and writing the JSON file:
   * appends the entries of every qualifying declaration, package by
   * package, functions before types, a type's methods before its
   * interface fields.
   */
  method BuildIndex(packages: seq<Package>) returns (funcComments: FuncComments)
    ensures funcComments.funcs == IndexEntries(packages)
  {
    var funcs: seq<FuncComment> := [];
    for p := 0 to |packages|
      invariant funcs == IndexEntries(packages[..p])
    {
      funcs := AppendPackage(funcs, packages[p]);
      IndexSnoc(packages, p);
    }
    assert packages[..|packages|] == packages;
    funcComments := FuncComments(funcs);
  }
}
