# Go-to-C# doc comment sync, modelled in Dafny

The tool carries the documentation of a Go library over to its C# binding
in two steps:

- **Export** (`export/main.go`). This walks the parsed Go packages and writes
  a flat doc index. Each qualifying declaration contributes a group of
  entries, under the names the C# binding uses:
  - three entries, `N`, `NEx`, `NAsync`, for an exported function with a
    non-empty doc;
  - three entries, `T.M`, `T.MEx`, `T.MAsync`, for an exported, documented
    method of an exported type;
  - four entries, `TM`, `TMEx`, `TMInterface`, `TMAsync`, for each exported
    name of a documented method field of an exported interface type.

  Every stored doc has its trailing line breaks trimmed.
- **Import** (`import/Program.cs`). For every C# method whose name has an
  entry in the index, this builds an XML doc comment: a `<summary>` holding
  the doc line by line, then one `<param>` line per parameter. It installs
  that comment as the leading trivia of the first method of that name in the
  tree being rewritten.

The project is organised as follows:

- `wrappers.dfy`: the `Option` datatype, which stands for C#'s null and Go's
  "not an interface".
- `lines.dfy`: `String.Split('\n')` and `String.Join`, with the round trips
  between them.
- `import_sync.dfy` (module `ImportSync`): the records `FuncDoc` and
  `GoDoc`, and the text the import synthesises.
  - The method loop is `SyncComments`, an imperative loop over the list of
    method declarations. It is proved equal to the closed-form merge
    `Synced`, and the properties of the merge are lemmas about `Synced`.
  - The Roslyn tree is abstracted to the sequence of its method
    declarations (name, parameters, leading trivia), in document order.
- `export_index.dfy` (module `ExportIndex`):
  - the records `FuncComment` and `FuncComments`, and `isExported`;
  - `strings.TrimRight(s, "\r\n")`;
  - the nested loops of the CLI action, as the method `BuildIndex` and one
    helper method per loop level. Each is proved to append exactly the
    groups of the closed-form index functions.

Go strings are byte strings: a byte is a `char` below 256.

`unicode.IsUpper(rune(name[0]))` reads a single byte as the code point of the
same value, so it is upper case exactly for `A`–`Z` and the Latin-1 letters
U+00C0–U+00DE other than U+00D7.

The import has no overwrite flag, no merge policy that keeps existing
comments, no `<returns>` line and no empty-summary fallback for unmatched
methods. Its behaviour is:
- The first method of a name that has an index entry always gets new
  trivia, whatever it held before.
- Later methods of that name are never touched (see "## Findings").
- A method whose name has no entry is never touched.
- No returns line is produced, whatever the return type. For that reason the
  method record carries no return type.

## Model

| member | source | states |
|---|---|---|
| Lines.Split | import/Program.cs:82 | `String.Split('\n')`: one piece per line feed plus one, and no piece holds a line feed |
| Lines.Join | import/Program.cs:85-87 | `String.Join`; its contract is stated by JoinSplit, SplitJoin and JoinAppend |
| Lines.JoinSplit | import/Program.cs:82-85 | joining the pieces of `Split('\n')` with "\n" gives back the original doc |
| Lines.SplitJoin | import/Program.cs:84-87 | splitting a "\n"-join of line-break-free lines gives back exactly those lines |
| Lines.JoinAppend | import/Program.cs:84-87 | joining a concatenation of two non-empty lists is joining each, with a separator between them |
| Lines.SplitAfterLine | import/Program.cs:82 | a piece ended by "\n" is one element of the split, followed by the split of the rest |
| ImportSync.Cref | import/Program.cs:79 | the cref of a parameter: its type text, or "UnknownType" when it has none; stated by ParamLinesInOrder |
| ImportSync.ParamLine | import/Program.cs:80 | the `<param>` line of one parameter; its layout is stated by ParamLinesInOrder |
| ImportSync.ParamLines | import/Program.cs:75-81 | one param line per parameter, in order; stated by ParamLinesInOrder and CommentTextLines |
| ImportSync.DocLines | import/Program.cs:82-83 | the summary lines; stated by SummaryIsVerbatim |
| ImportSync.XmlCommentText | import/Program.cs:84-87 | the synthesised comment text; stated by CommentTextLines, JoinCommentLines and NoParamsText |
| ImportSync.SummaryIsVerbatim | import/Program.cs:82-83 | the summary has one line per piece of the split doc (line breaks + 1, so an empty doc still gives one), every line starts with "/// ", and stripping that prefix and rejoining yields the doc verbatim |
| ImportSync.CommentTextLines | import/Program.cs:84-87 | the synthesised text, split at line breaks, is exactly: "/// <summary>", the doc lines, "/// </summary>", one param line per parameter (or one empty line when there are none), and a final empty line; there is no returns line |
| ImportSync.ParamLinesInOrder | import/Program.cs:75-80 | one param line per parameter, in declaration order; the i-th carries the i-th parameter's name and then its type text, or "UnknownType" when it has none, at their fixed places in the template |
| ImportSync.JoinCommentLines | import/Program.cs:84-87 | the concatenation the import writes equals the "\n"-join of that list of lines |
| ImportSync.NoParamsText | import/Program.cs:84-87 | with no parameters the text still ends with the summary close tag followed by two line breaks |
| ImportSync.Find | import/Program.cs:72 | `List.Find` by exact name: absent iff no entry has the name; otherwise an entry with that name at the first matching position |
| ImportSync.Lookup | import/Program.cs:70-72 | the entry used for a method name: none when the index or its list is null; otherwise an entry of the list with exactly that name, and none exactly when no entry has the name |
| ImportSync.FirstIndex | import/Program.cs:91-93 | `First` by name: the position of a method with that name such that no earlier method has it |
| ImportSync.StepMatched | import/Program.cs:91-96 | a step with a matched entry always finds a method of that name (so `First` never throws) and rewrites only that first method's trivia |
| ImportSync.StepUnmatched | import/Program.cs:70-73 | a method with no entry leaves every method unchanged |
| ImportSync.SyncComments | import/Program.cs:63-97 | the loop over the original methods yields exactly the merge `Synced` |
| ImportSync.Synced | import/Program.cs:63-97 | the merge keeps every method's name and parameters and the number and order of the methods |
| ImportSync.NoIndexNoChange | import/Program.cs:70 | with no index, or an index without a `funDocs` list, no method changes |
| ImportSync.UnmatchedKept | import/Program.cs:72-73 | a method whose name matches no entry keeps its leading trivia |
| ImportSync.LaterOverloadKept | import/Program.cs:91-96 | a method preceded by another of the same name is never rewritten |
| ImportSync.FirstMatchedRewritten | import/Program.cs:75-96 | the first method of a matched name ends with the comment built from the entry's doc and the parameters of the last method of that name |
| ImportSync.UniqueMatchedRewritten | import/Program.cs:75-96 | a uniquely named matched method gets the comment built from its own parameters |
| ImportSync.SyncIdempotent | import/Program.cs:63-97 | running the merge a second time with the same index changes nothing |
| ImportSync.OneLineDocScenario | import/Program.cs:72-96 | one method, one matching single-line doc: the new trivia splits into "/// <summary>", "/// " + doc, "/// </summary>", the param lines and an empty line |
| ImportSync.OverloadMisdocumented | import/Program.cs:91-96 | for Foo(x) and Foo(x, y) with one entry "Foo", the first Foo gets the comment for (x, y), which differs from the one for (x), and the second Foo keeps its empty trivia |
| ImportSync.SyncedByHandle | import/Program.cs:91-96 | the corrected merge keeps names, parameters and order |
| ImportSync.HandleDocumentsOwnParams | import/Program.cs:75-96 | under the corrected merge, every matched method's comment lists its own parameters and unmatched methods are unchanged |
| ImportSync.DistinctNamesAgree | import/Program.cs:91-96 | when no two methods share a name, the code as written and the corrected merge give the same result |
| ExportIndex.IsUpperByte | export/main.go:155 | `unicode.IsUpper` of a byte read as a rune: 'A' to 'Z' and U+00C0 to U+00DE except U+00D7; stated by ExportedAscii and LeadByteDecides |
| ExportIndex.IsExported | export/main.go:150-156 | false on the empty name, otherwise whether the first byte is upper case; stated by ExportedAscii, ExportedExtended and LeadByteDecides |
| ExportIndex.ExportedAscii | export/main.go:150-156 | on a name starting with an ASCII byte, exported exactly when it starts with 'A' to 'Z', which is Go's own export rule |
| ExportIndex.ExportedExtended | export/main.go:150-156 | only the first byte decides export, so a suffix keeps an exported name exported |
| ExportIndex.LeadByteDecides | export/main.go:155 | the first byte is read alone: a name whose UTF-8 encoding starts like "é" (C3 A9) counts as exported |
| ExportIndex.TrimRight | export/main.go:70 | the trimmed doc is a prefix of the doc, does not end in CR or LF, and only CRs and LFs were removed |
| ExportIndex.TrimRightUnique | export/main.go:70 | any prefix with those three properties is the trimmed doc |
| ExportIndex.TrimRightIdempotent | export/main.go:70 | trimming twice is trimming once |
| ExportIndex.FuncEntries | export/main.go:67-80 | the group of one top-level function; stated by FuncEntriesShape and LineBreakOnlyDoc |
| ExportIndex.MethodEntries | export/main.go:85-98 | the group of one method of a type; stated by MethodEntriesShape |
| ExportIndex.InterfaceEntries | export/main.go:105-122 | the group of one interface method name; stated by InterfaceEntriesShape |
| ExportIndex.FuncEntriesShape | export/main.go:66-81 | an exported function with a non-empty doc yields exactly N, NEx, NAsync in that order with the trimmed doc; any other function yields nothing |
| ExportIndex.MethodEntriesShape | export/main.go:84-98 | a method yields T.M, T.MEx, T.MAsync with the trimmed doc only when T and M are exported and the doc is non-empty, else nothing |
| ExportIndex.InterfaceEntriesShape | export/main.go:101-121 | an interface method name yields TM, TMEx, TMInterface, TMAsync (no dot) under the same conditions, else nothing |
| ExportIndex.LineBreakOnlyDoc | export/main.go:67-79 | the non-empty test is on the untrimmed doc: a doc of only line breaks still yields three entries, each with an empty doc |
| ExportIndex.IndexValid | export/main.go:60-129 | every index entry has an exported name and a doc that does not end in CR or LF |
| ExportIndex.IndexAppend | export/main.go:63-129 | entries are only appended: the index of two runs of packages is the first's index followed by the second's |
| ExportIndex.AppendFuncs | export/main.go:66-81 | the function loop appends exactly the groups of the functions, in order |
| ExportIndex.AppendMethods | export/main.go:84-99 | the method loop appends exactly the groups of the type's methods, in order |
| ExportIndex.AppendNames | export/main.go:104-123 | the loop over a field's names appends exactly their groups, in order |
| ExportIndex.AppendType | export/main.go:83-126 | a type appends its method groups, then (for an interface) its field groups |
| ExportIndex.AppendPackage | export/main.go:64-128 | a package appends its function groups, then its type groups |
| ExportIndex.BuildIndex | export/main.go:60-129 | the whole index is the concatenation of the per-declaration groups, in iteration order |

## Left out

- File checks, reading and writing files, and console messages: these are
  I/O (import/Program.cs:44-56, 99-100; export/main.go:131-138).
- JSON encoding and decoding: the index is taken as a sequence of (name, doc)
  records. The JSON field is named `funComments` on the export side and
  `funDocs` on the import side; that is wiring, not logic.
- Roslyn:
  - Parsing the C# file, `ParseLeadingTrivia`, `ReplaceNode` and the final
    `NormalizeWhitespace` are left out. The tree is its sequence of method
    declarations, and the synthesised string stands for the new leading
    trivia.
  - How the whole file is reformatted is the library's behaviour.
  - A parameter's type text is given as an optional string.
- `go/parser`, `go/doc` and the `_test.go` filter (export/main.go:51-55, 64):
  - The documented functions, methods and interface fields are inputs.
  - `go/doc` gives each type a declaration holding only that type's spec, so
    the loop over `t.Decl.Specs` is modelled as the one optional interface
    of the type.
  - `field.Doc.Text()` is taken as the field's doc text.
  - `t.Funcs` (constructors grouped under a type) is never visited by the
    code, and so not by the model either.
- Go map iteration order: `packages` is a map, so its order is not fixed. The
  model takes the packages as a sequence in the order visited.
- Unicode case tables: only the code points below 256 are reachable through
  `rune(name[0])`, and they are modelled exactly.
- The CLI option handling (`urfave/cli`, `CommandLine`).
- FuncDoc: null entries of `funDocs` and entries whose `doc` is null are not
  modelled. On them the import throws: a null entry throws in the `Find`
  predicate at `f.name` once the search reaches it (import/Program.cs:72), and
  a matched entry with a null doc throws at `Split` (import/Program.cs:82).
  The run then ends before the file is written (import/Program.cs:99), so
  nothing changes. The model takes every entry and every doc as present.
- SingleLineParams: CommentTextLines, OneLineDocScenario and
  HandleDocumentsOwnParams assume that no parameter name or type text holds a
  line feed. A C# type's text can span lines, because `TypeSyntax.ToString()`
  keeps inner trivia (for example `Dictionary<int,` and `string>` on two
  lines). For such a parameter its param line is broken into several lines,
  and the line-by-line statements of those lemmas do not describe the text.
  The text itself is still `XmlCommentText`, as JoinCommentLines states for
  every input.
- C# strings are UTF-16 and Go strings are bytes: both are `seq<char>` here,
  and no encoding is modelled.

## Findings

| source | as written | input that shows it | evidently intended | confidence | as-written member | corrected member |
|---|---|---|---|---|---|---|
| import/Program.cs:91-96 | each method of the original tree looks up `First` by name in the rewritten tree, so every overload's comment is installed on the first method of that name; the last one wins, and later overloads keep their old trivia | `void Foo(int x)` followed by `void Foo(int x, int y)` with one index entry `Foo`: the first `Foo` is documented with params `x, y`, the second gets nothing | each method is documented with its own parameters | not executed; high | ImportSync.OverloadMisdocumented | ImportSync.SyncedByHandle |
