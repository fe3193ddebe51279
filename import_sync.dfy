/**
 * The merge engine of the C# side (`SyncComments` in import/Program.cs).
 *
 * The parsed C# file is abstracted as the sequence of its method
 * declarations in document order; each record keeps what the engine reads
 * (identifier, parameter list) and what it writes (the leading trivia).
 * The doc index is the deserialised `GoDoc`, whose `funDocs` list may be
 * null, and which may itself be null.
 */
module ImportSync {
  import opened Wrappers
  import opened Lines

  /** One entry of the doc index. */
  datatype FuncDoc = FuncDoc(name: string, doc: string)

  /** The deserialised index; `funDocs == None` is a null list. */
  datatype GoDoc = GoDoc(funDocs: Option<seq<FuncDoc>>)

  /** A parameter: its identifier and the text of its type, if it has one. */
  datatype Param = Param(name: string, typeText: Option<string>)

  /** A method declaration, with the comment trivia attached in front of it. */
  datatype MethodDecl = MethodDecl(name: string, params: seq<Param>, trivia: string)

  // ---------------------------------------------------------------------
  // Comment synthesis
  // ---------------------------------------------------------------------

  const SummaryOpen: string := "/// <summary>"
  const SummaryClose: string := "/// </summary>"
  /** The marker put in front of every summary line. */
  const Marker: string := "/// "

  /** The cref written for a parameter: its type text, or "UnknownType" when it has none. */
  function Cref(p: Param): string
  {
    match p.typeText
    case Some(t) => t
    case None => "UnknownType"
  }

  /** The fixed pieces of a `<param>` line, around the name and the cref. */
  const ParamOpen: string := "/// <param name=\""
  const CrefOpen: string := "\"><see cref=\""
  const ParamClose: string := "\"/>parameter</param>"

  function ParamLine(p: Param): string
  {
    ParamOpen + p.name + CrefOpen + Cref(p) + ParamClose
  }

  /** One `<param>` line per parameter, in declaration order. */
  function ParamLines(ps: seq<Param>): seq<string>
  {
    seq(|ps|, i requires 0 <= i < |ps| => ParamLine(ps[i]))
  }

  /**
   * The i-th param line carries the i-th parameter's name and then its type
   * text, or "UnknownType" when it has none, each at its fixed place.
   */
  lemma ParamLinesInOrder(ps: seq<Param>, i: int)
    requires 0 <= i < |ps|
    ensures |ParamLines(ps)| == |ps|
    ensures var l, p := ParamLines(ps)[i], ps[i];
      var n := |ParamOpen| + |p.name|;
      var c := n + |CrefOpen|;
      var t := if p.typeText.Some? then p.typeText.value else "UnknownType";
      && l[..|ParamOpen|] == ParamOpen
      && l[|ParamOpen|..n] == p.name
      && l[n..c] == CrefOpen
      && l[c..c + |t|] == t
      && l[c + |t|..] == ParamClose
  {
    var p := ps[i];
    var a := ParamOpen + p.name;
    var b := a + CrefOpen;
    var d := b + Cref(p);
    assert ParamLines(ps)[i] == d + ParamClose;
    assert (d + ParamClose)[..|d|] == d;
    assert (d + ParamClose)[|d|..] == ParamClose;
    assert d[..|b|] == b && d[|b|..] == Cref(p);
    assert b[..|a|] == a && b[|a|..] == CrefOpen;
    assert a[..|ParamOpen|] == ParamOpen && a[|ParamOpen|..] == p.name;
  }

  /** One summary line per `\n`-separated piece of the doc, each behind "/// ". */
  function DocLines(doc: string): seq<string>
  {
    var pieces := Split(doc);
    seq(|pieces|, i requires 0 <= i < |pieces| => Marker + pieces[i])
  }

  /**
   * The lines of the synthesised comment: the opening tag, the doc lines,
   * the closing tag, the parameter lines (an empty line when there are
   * none, since joining no lines gives the empty string) and a final empty
   * line after the last line feed.
   */
  function CommentLines(doc: string, ps: seq<Param>): seq<string>
  {
    [SummaryOpen] + DocLines(doc) + [SummaryClose]
    + (if ps == [] then [""] else ParamLines(ps)) + [""]
  }

  /** The XML doc-comment text built for a matched method. */
  function XmlCommentText(doc: string, ps: seq<Param>): string
  {
    SummaryOpen + "\n"
    + Join("\n", DocLines(doc)) + "\n"
    + SummaryClose + "\n"
    + Join("\n", ParamLines(ps)) + "\n"
  }

  /** Each line with its first four characters (the "/// " marker) removed. */
  function StripPrefixes(lines: seq<string>): seq<string>
  {
    seq(|lines|, i requires 0 <= i < |lines| => if |lines[i]| >= 4 then lines[i][4..] else lines[i])
  }

  /** Parameters whose identifier and type text hold no line feed. */
  predicate SingleLineParams(ps: seq<Param>)
  {
    forall i :: 0 <= i < |ps| ==> NL !in ps[i].name && NL !in Cref(ps[i])
  }

  /**
   * The summary holds one line per line-feed-separated piece of the doc
   * (line feeds + 1), each the piece verbatim behind "/// ": stripping the
   * prefixes and joining with line feeds gives back the doc exactly.
   */
  lemma SummaryIsVerbatim(doc: string)
    ensures |DocLines(doc)| == Count(doc, NL) + 1
    ensures forall i :: 0 <= i < |DocLines(doc)| ==> DocLines(doc)[i][..4] == "/// "
    ensures Join("\n", StripPrefixes(DocLines(doc))) == doc
  {
    var dl := DocLines(doc);
    var pieces := Split(doc);
    forall i | 0 <= i < |dl| ensures dl[i][..4] == "/// " && dl[i][4..] == pieces[i] {
      assert dl[i] == "/// " + pieces[i];
    }
    assert StripPrefixes(dl) == pieces;
    assert "\n" == [NL];
    JoinSplit(doc);
  }

  /**
   * Read line by line, the synthesised text is exactly CommentLines: a
   * summary block, one line per parameter and nothing else (in particular
   * no returns line, whatever the method returns).
   */
  lemma CommentTextLines(doc: string, ps: seq<Param>)
    requires SingleLineParams(ps)
    ensures Split(XmlCommentText(doc, ps)) == CommentLines(doc, ps)
  {
    JoinCommentLines(doc, ps);
    CommentLinesSingle(doc, ps);
    assert "\n" == [NL];
    SplitJoin(CommentLines(doc, ps));
  }

  /** The synthesised text is CommentLines joined with line feeds. */
  lemma JoinCommentLines(doc: string, ps: seq<Param>)
    ensures Join("\n", CommentLines(doc, ps)) == XmlCommentText(doc, ps)
  {
    var open, close := [SummaryOpen], [SummaryClose];
    var dl := DocLines(doc);
    var pl := if ps == [] then [""] else ParamLines(ps);
    assert |dl| >= 1;
    assert Join("\n", pl) == Join("\n", ParamLines(ps));
    JoinAppend("\n", open, dl);
    JoinAppend("\n", open + dl, close);
    JoinAppend("\n", open + dl + close, pl);
    JoinAppend("\n", open + dl + close + pl, [""]);
  }

  /** No line of CommentLines holds a line feed, given single-line parameters. */
  lemma CommentLinesSingle(doc: string, ps: seq<Param>)
    requires SingleLineParams(ps)
    ensures |CommentLines(doc, ps)| >= 1
    ensures forall i :: 0 <= i < |CommentLines(doc, ps)| ==> NL !in CommentLines(doc, ps)[i]
  {
    var dl := DocLines(doc);
    var pl := if ps == [] then [""] else ParamLines(ps);
    forall i | 0 <= i < |dl| ensures NL !in dl[i] {
      assert dl[i] == Marker + Split(doc)[i];
    }
    forall i | 0 <= i < |ps| ensures NL !in ParamLines(ps)[i] {
      ParamLineSingle(ps[i]);
    }
    assert forall i :: 0 <= i < |pl| ==> NL !in pl[i];
    assert NL !in SummaryOpen && NL !in SummaryClose;
    SingleConcat([SummaryOpen], dl);
    SingleConcat([SummaryOpen] + dl, [SummaryClose]);
    SingleConcat([SummaryOpen] + dl + [SummaryClose], pl);
    SingleConcat([SummaryOpen] + dl + [SummaryClose] + pl, [""]);
  }

  /** A param line is a single line when the parameter's name and cref are. */
  lemma ParamLineSingle(p: Param)
    requires NL !in p.name && NL !in Cref(p)
    ensures NL !in ParamLine(p)
  {
  }

  /** Joining two lists of single lines gives a list of single lines. */
  lemma SingleConcat(a: seq<string>, b: seq<string>)
    requires forall i :: 0 <= i < |a| ==> NL !in a[i]
    requires forall i :: 0 <= i < |b| ==> NL !in b[i]
    ensures forall i :: 0 <= i < |a + b| ==> NL !in (a + b)[i]
  {
  }

  /** With no parameters the text still ends in an empty parameter section: "</summary>\n\n". */
  lemma NoParamsText(doc: string)
    ensures var t := XmlCommentText(doc, []);
      |t| >= 16 && t[|t| - 16..] == "/// </summary>\n\n"
  {
    var t := XmlCommentText(doc, []);
    assert ParamLines([]) == [];
    var front := SummaryOpen + "\n" + Join("\n", DocLines(doc)) + "\n";
    assert t == front + (SummaryClose + "\n\n");
  }

  // ---------------------------------------------------------------------
  // Lookups
  // ---------------------------------------------------------------------

  /** `funDocs.Find(f => f.name == name)`: the first entry with exactly that name. */
  function Find(docs: seq<FuncDoc>, name: string): (r: Option<FuncDoc>)
    ensures r.None? <==> forall i :: 0 <= i < |docs| ==> docs[i].name != name
    ensures r.Some? ==> exists i :: 0 <= i < |docs| && docs[i] == r.value && r.value.name == name
                          && forall j :: 0 <= j < i ==> docs[j].name != name
  {
    if docs == [] then None
    else if docs[0].name == name then Some(docs[0])
    else
      var r := Find(docs[1..], name);
      assert r.Some? ==> exists i :: 1 <= i < |docs| && docs[i] == r.value && r.value.name == name
                          && forall j :: 0 <= j < i ==> docs[j].name != name;
      r
  }

  /** The entry the engine uses for a method name: none when the index or its list is null. */
  function Lookup(goDoc: Option<GoDoc>, name: string): (r: Option<FuncDoc>)
    ensures r.Some? ==> goDoc.Some? && goDoc.value.funDocs.Some?
                        && r.value in goDoc.value.funDocs.value && r.value.name == name
    ensures goDoc.Some? && goDoc.value.funDocs.Some? ==>
              (r.None? <==> forall e :: e in goDoc.value.funDocs.value ==> e.name != name)
  {
    if goDoc.None? || goDoc.value.funDocs.None? then None
    else Find(goDoc.value.funDocs.value, name)
  }

  /** Some method in the tree carries this name. */
  predicate Declares(tree: seq<MethodDecl>, name: string)
  {
    exists k :: 0 <= k < |tree| && tree[k].name == name
  }

  /**
   * `.First(m => m.Identifier.Text == name)`: the index of the first method
   * with that name (First throws when there is none, hence the requires).
   */
  function FirstIndex(tree: seq<MethodDecl>, name: string): (r: nat)
    requires Declares(tree, name)
    ensures r < |tree| && tree[r].name == name
    ensures forall j :: 0 <= j < r ==> tree[j].name != name
  {
    if tree[0].name == name then 0
    else
      assert Declares(tree[1..], name) by {
        var k :| 0 <= k < |tree| && tree[k].name == name;
        assert tree[1..][k - 1] == tree[k];
      }
      1 + FirstIndex(tree[1..], name)
  }

  /** No earlier method shares the name of method k. */
  predicate IsFirstNamed(tree: seq<MethodDecl>, k: nat)
    requires k < |tree|
  {
    forall j :: 0 <= j < k ==> tree[j].name != tree[k].name
  }

  /** The last method among the first `i` that carries `name`, if any. */
  function LastNamedBelow(tree: seq<MethodDecl>, name: string, i: nat): (r: Option<nat>)
    requires i <= |tree|
    ensures r.None? ==> forall j :: 0 <= j < i ==> tree[j].name != name
    ensures r.Some? ==> r.value < i && tree[r.value].name == name
                        && forall j :: r.value < j < i ==> tree[j].name != name
  {
    if i == 0 then None
    else if tree[i - 1].name == name then Some(i - 1)
    else LastNamedBelow(tree, name, i - 1)
  }

  /** Two trees that agree on the names of their methods. */
  predicate SameNames(a: seq<MethodDecl>, b: seq<MethodDecl>)
  {
    |a| == |b| && forall k :: 0 <= k < |a| ==> a[k].name == b[k].name
  }

  /** Two trees that differ at most in the trivia of their methods. */
  predicate SameShape(a: seq<MethodDecl>, b: seq<MethodDecl>)
  {
    |a| == |b| && forall k :: 0 <= k < |a| ==> a[k].name == b[k].name && a[k].params == b[k].params
  }

  // ---------------------------------------------------------------------
  // The merge, in closed form
  // ---------------------------------------------------------------------

  /**
   * For each method, the comment the loop builds when it reaches it: the
   * text for the entry its name finds and its own parameters, or none.
   */
  function Comments(methods: seq<MethodDecl>, goDoc: Option<GoDoc>): (r: seq<Option<string>>)
    ensures |r| == |methods|
  {
    seq(|methods|, j requires 0 <= j < |methods| =>
      match Lookup(goDoc, methods[j].name)
      case None => None
      case Some(e) => Some(XmlCommentText(e.doc, methods[j].params)))
  }

  /** Methods of the same name either all get a comment or none does. */
  predicate ConsistentByName(methods: seq<MethodDecl>, comments: seq<Option<string>>)
  {
    |comments| == |methods| &&
    forall j, k :: 0 <= j < |methods| && 0 <= k < |methods| && methods[j].name == methods[k].name
      ==> comments[j].None? == comments[k].None?
  }

  /**
   * The trivia of method k once the first i methods have been processed.
   * Only the first method of a name is ever rewritten; it holds the comment
   * of the last processed method of that name.
   */
  function TriviaAfter(methods: seq<MethodDecl>, comments: seq<Option<string>>, i: nat, k: nat): string
    requires |comments| == |methods| && i <= |methods| && k < |methods|
  {
    var m := methods[k];
    if !IsFirstNamed(methods, k) then m.trivia
    else match LastNamedBelow(methods, m.name, i)
      case None => m.trivia
      case Some(j) =>
        match comments[j]
        case None => m.trivia
        case Some(text) => text
  }

  /** The tree once the first i methods have been processed. */
  function MergedUpTo(methods: seq<MethodDecl>, comments: seq<Option<string>>, i: nat): seq<MethodDecl>
    requires |comments| == |methods| && i <= |methods|
  {
    seq(|methods|, k requires 0 <= k < |methods| => methods[k].(trivia := TriviaAfter(methods, comments, i, k)))
  }

  /** The tree once every method has been processed. */
  function Synced(methods: seq<MethodDecl>, goDoc: Option<GoDoc>): (r: seq<MethodDecl>)
    ensures SameShape(r, methods)
  {
    MergedUpTo(methods, Comments(methods, goDoc), |methods|)
  }

  // ---------------------------------------------------------------------
  // The loop
  // ---------------------------------------------------------------------

  /** Processing method i leaves every method of another name as it was. */
  lemma TriviaStepOther(methods: seq<MethodDecl>, comments: seq<Option<string>>, i: nat, k: nat)
    requires |comments| == |methods| && i < |methods| && k < |methods|
    requires methods[k].name != methods[i].name
    ensures TriviaAfter(methods, comments, i + 1, k) == TriviaAfter(methods, comments, i, k)
  {
    assert LastNamedBelow(methods, methods[k].name, i + 1) == LastNamedBelow(methods, methods[k].name, i);
  }

  /** Processing a method that gets no comment changes nothing. */
  lemma StepUnmatched(methods: seq<MethodDecl>, comments: seq<Option<string>>, i: nat)
    requires ConsistentByName(methods, comments) && i < |methods| && comments[i].None?
    ensures MergedUpTo(methods, comments, i + 1) == MergedUpTo(methods, comments, i)
  {
    var before := MergedUpTo(methods, comments, i);
    var after := MergedUpTo(methods, comments, i + 1);
    forall k | 0 <= k < |methods| ensures after[k] == before[k] {
      if methods[k].name != methods[i].name {
        TriviaStepOther(methods, comments, i, k);
      } else {
        var last := LastNamedBelow(methods, methods[k].name, i);
        assert LastNamedBelow(methods, methods[k].name, i + 1) == Some(i);
        assert last.Some? ==> comments[last.value].None?;
      }
    }
  }

  /** The trivia of one method k after processing method i, which gets a comment. */
  lemma TriviaStep(methods: seq<MethodDecl>, comments: seq<Option<string>>, i: nat, k: nat)
    requires |comments| == |methods| && i < |methods| && k < |methods| && comments[i].Some?
    ensures Declares(methods, methods[i].name)
    ensures TriviaAfter(methods, comments, i + 1, k)
      == if k == FirstIndex(methods, methods[i].name) then comments[i].value
         else TriviaAfter(methods, comments, i, k)
  {
    assert Declares(methods, methods[i].name) by { assert methods[i].name == methods[i].name; }
    var f := FirstIndex(methods, methods[i].name);
    if methods[k].name != methods[i].name {
      TriviaStepOther(methods, comments, i, k);
    } else if k == f {
      assert IsFirstNamed(methods, f);
      assert LastNamedBelow(methods, methods[i].name, i + 1) == Some(i);
    } else {
      assert f < k && !IsFirstNamed(methods, k);
    }
  }

  /**
   * Processing a method that gets a comment rewrites the trivia of the
   * first method of that name, and of no other method.
   */
  lemma StepMatched(methods: seq<MethodDecl>, comments: seq<Option<string>>, i: nat)
    requires |comments| == |methods| && i < |methods| && comments[i].Some?
    ensures Declares(methods, methods[i].name)
    ensures var f := FirstIndex(methods, methods[i].name);
      var before := MergedUpTo(methods, comments, i);
      MergedUpTo(methods, comments, i + 1) == before[f := before[f].(trivia := comments[i].value)]
  {
    assert Declares(methods, methods[i].name) by { assert methods[i].name == methods[i].name; }
    var f := FirstIndex(methods, methods[i].name);
    var before := MergedUpTo(methods, comments, i);
    var after := MergedUpTo(methods, comments, i + 1);
    var expected := before[f := before[f].(trivia := comments[i].value)];
    forall k | 0 <= k < |methods| ensures after[k] == expected[k] {
      TriviaStep(methods, comments, i, k);
      assert after[k] == methods[k].(trivia := TriviaAfter(methods, comments, i + 1, k));
      assert before[k] == methods[k].(trivia := TriviaAfter(methods, comments, i, k));
    }
    assert |after| == |expected|;
  }

  lemma CommentsConsistent(methods: seq<MethodDecl>, goDoc: Option<GoDoc>)
    ensures ConsistentByName(methods, Comments(methods, goDoc))
  {
  }

  /**
   * `SyncComments` with its I/O removed: walks the original methods in
   * order and, for each one whose name has an entry, installs the
   * synthesised comment on the first method of that name in the current,
   * partly rewritten tree.
   */
  method SyncComments(methods: seq<MethodDecl>, goDoc: Option<GoDoc>) returns (newRoot: seq<MethodDecl>)
    ensures newRoot == Synced(methods, goDoc)
  {
    ghost var comments := Comments(methods, goDoc);
    CommentsConsistent(methods, goDoc);
    newRoot := methods;
    assert newRoot == MergedUpTo(methods, comments, 0);
    for i := 0 to |methods|
      invariant newRoot == MergedUpTo(methods, comments, i)
    {
      var m := methods[i];
      var methodName := m.name;
      if goDoc.None? || goDoc.value.funDocs.None? {
        StepUnmatched(methods, comments, i);
        continue;
      }
      var docEntry := Find(goDoc.value.funDocs.value, methodName);
      if docEntry.None? {
        StepUnmatched(methods, comments, i);
        continue;
      }
      var xmlCommentText := XmlCommentText(docEntry.value.doc, m.params);
      StepMatched(methods, comments, i);
      // The rewritten tree still declares every original name, so First cannot throw.
      assert Declares(newRoot, methodName) by { assert newRoot[i].name == methodName; }
      var target := FirstIndex(newRoot, methodName);
      assert target == FirstIndex(methods, methodName) by {
        var f := FirstIndex(methods, methodName);
        assert newRoot[f].name == methodName;
        assert methods[target].name == methodName;
      }
      newRoot := newRoot[target := newRoot[target].(trivia := xmlCommentText)];
    }
  }

  // ---------------------------------------------------------------------
  // What the merge does to each method
  // ---------------------------------------------------------------------

  /** With a null index, or a null entry list, no method changes. */
  lemma NoIndexNoChange(methods: seq<MethodDecl>, goDoc: Option<GoDoc>)
    requires goDoc.None? || goDoc.value.funDocs.None?
    ensures Synced(methods, goDoc) == methods
  {
    var r := Synced(methods, goDoc);
    var comments := Comments(methods, goDoc);
    forall k | 0 <= k < |methods| ensures r[k] == methods[k] {
      var last := LastNamedBelow(methods, methods[k].name, |methods|);
      assert last.Some? ==> comments[last.value] == None;
    }
  }

  /** A method whose name finds no entry keeps its trivia. */
  lemma UnmatchedKept(methods: seq<MethodDecl>, goDoc: Option<GoDoc>, k: nat)
    requires k < |methods| && Lookup(goDoc, methods[k].name).None?
    ensures Synced(methods, goDoc)[k] == methods[k]
  {
    var comments := Comments(methods, goDoc);
    var last := LastNamedBelow(methods, methods[k].name, |methods|);
    assert last.Some? ==> comments[last.value] == None;
  }

  /** A method preceded by another of the same name (a later overload) is never rewritten. */
  lemma LaterOverloadKept(methods: seq<MethodDecl>, goDoc: Option<GoDoc>, k: nat)
    requires k < |methods| && !IsFirstNamed(methods, k)
    ensures Synced(methods, goDoc)[k] == methods[k]
  {
  }

  /**
   * The first method of a name that finds entry e ends up with the comment
   * built from e's doc and the parameters of the last method of that name.
   */
  lemma {:induction false} FirstMatchedRewritten(methods: seq<MethodDecl>, goDoc: Option<GoDoc>, k: nat, e: FuncDoc)
    requires k < |methods| && IsFirstNamed(methods, k) && Lookup(goDoc, methods[k].name) == Some(e)
    ensures var last := LastNamedBelow(methods, methods[k].name, |methods|);
      last.Some? && k <= last.value &&
      Synced(methods, goDoc)[k].trivia == XmlCommentText(e.doc, methods[last.value].params)
  {
    var name := methods[k].name;
    var j := LastNamedBelow(methods, name, |methods|).value;
    var c := Comments(methods, goDoc);
    assert c[j] == Some(XmlCommentText(e.doc, methods[j].params));
  }

  /** A matched method whose name no other method shares gets the comment of its own parameters. */
  lemma UniqueMatchedRewritten(methods: seq<MethodDecl>, goDoc: Option<GoDoc>, k: nat, e: FuncDoc)
    requires k < |methods| && Lookup(goDoc, methods[k].name) == Some(e)
    requires forall j :: 0 <= j < |methods| && j != k ==> methods[j].name != methods[k].name
    ensures Synced(methods, goDoc)[k].trivia == XmlCommentText(e.doc, methods[k].params)
  {
    FirstMatchedRewritten(methods, goDoc, k, e);
  }

  /** The last method among the first i of a name depends on the names alone. */
  lemma {:induction false} LastNamedSameNames(a: seq<MethodDecl>, b: seq<MethodDecl>, name: string, i: nat)
    requires SameNames(a, b) && i <= |a|
    ensures LastNamedBelow(a, name, i) == LastNamedBelow(b, name, i)
  {
    if i > 0 && a[i - 1].name != name {
      LastNamedSameNames(a, b, name, i - 1);
    }
  }

  /**
   * Running the merge again with the same index changes nothing: the new
   * trivia never depends on the old, and names and parameters are kept.
   */
  lemma SyncIdempotent(methods: seq<MethodDecl>, goDoc: Option<GoDoc>)
    ensures Synced(Synced(methods, goDoc), goDoc) == Synced(methods, goDoc)
  {
    var once := Synced(methods, goDoc);
    var twice := Synced(once, goDoc);
    var c := Comments(methods, goDoc);
    assert Comments(once, goDoc) == c;
    forall k | 0 <= k < |methods| ensures twice[k] == once[k] {
      LastNamedSameNames(once, methods, methods[k].name, |methods|);
      assert IsFirstNamed(once, k) == IsFirstNamed(methods, k);
    }
  }

  /**
   * A lone method `name(ps)` and an index holding one entry for it whose doc
   * is a single line (say `Add(int a, int b)` documented "Adds two
   * numbers."): read line by line, the method's new comment is the opening tag, the doc line, the closing
   * tag, one line per parameter and nothing else, so no returns line.
   */
  lemma {:induction false} OneLineDocScenario(name: string, doc: string, ps: seq<Param>, trivia: string)
    requires NL !in doc && ps != [] && SingleLineParams(ps)
    ensures var goDoc := Some(GoDoc(Some([FuncDoc(name, doc)])));
      Split(Synced([MethodDecl(name, ps, trivia)], goDoc)[0].trivia)
        == [SummaryOpen, Marker + doc, SummaryClose] + ParamLines(ps) + [""]
  {
    var goDoc := Some(GoDoc(Some([FuncDoc(name, doc)])));
    var methods := [MethodDecl(name, ps, trivia)];
    assert Synced(methods, goDoc)[0].trivia == XmlCommentText(doc, ps) by {
      assert Lookup(goDoc, name) == Some(FuncDoc(name, doc));
      UniqueMatchedRewritten(methods, goDoc, 0, FuncDoc(name, doc));
    }
    assert CommentLines(doc, ps) == [SummaryOpen, Marker + doc, SummaryClose] + ParamLines(ps) + [""] by {
      SplitNoBreak(doc);
      assert DocLines(doc) == [Marker + doc];
    }
    CommentTextLines(doc, ps);
  }

  // ---------------------------------------------------------------------
  // Overloads: the comment lands on the first overload, with the
  // parameters of the last one
  // ---------------------------------------------------------------------

  /**
   * Two overloads `Foo(int x)` and `Foo(int x, int y)` with one entry for
   * "Foo": the first overload receives the comment built from the second
   * overload's parameters (documenting a `y` it does not have), and the
   * second overload keeps its old trivia.
   */
  lemma {:induction false} OverloadMisdocumented(doc: string)
    ensures var x, y := Param("x", Some("int")), Param("y", Some("int"));
      var methods := [MethodDecl("Foo", [x], ""), MethodDecl("Foo", [x, y], "")];
      var goDoc := Some(GoDoc(Some([FuncDoc("Foo", doc)])));
      var r := Synced(methods, goDoc);
      && r[0].trivia == XmlCommentText(doc, [x, y])
      && r[0].trivia != XmlCommentText(doc, [x])
      && r[1].trivia == ""
  {
    var x, y := Param("x", Some("int")), Param("y", Some("int"));
    var methods := [MethodDecl("Foo", [x], ""), MethodDecl("Foo", [x, y], "")];
    var goDoc := Some(GoDoc(Some([FuncDoc("Foo", doc)])));
    assert Lookup(goDoc, "Foo") == Some(FuncDoc("Foo", doc));
    assert IsFirstNamed(methods, 0);
    FirstMatchedRewritten(methods, goDoc, 0, FuncDoc("Foo", doc));
    assert LastNamedBelow(methods, "Foo", 2) == Some(1);
    LaterOverloadKept(methods, goDoc, 1);
    assert SingleLineParams([x]) && SingleLineParams([x, y]) by {
      assert Cref(x) == "int" && Cref(y) == "int";
    }
    CommentTextLines(doc, [x]);
    CommentTextLines(doc, [x, y]);
    assert |CommentLines(doc, [x])| != |CommentLines(doc, [x, y])|;
  }

  /**
   * The merge as evidently intended: each method whose name finds an entry
   * gets the comment built from its own parameters, installed on that very
   * method; every other method is left as it was.
   */
  function SyncedByHandle(methods: seq<MethodDecl>, goDoc: Option<GoDoc>): (r: seq<MethodDecl>)
    ensures SameShape(r, methods)
  {
    var c := Comments(methods, goDoc);
    seq(|methods|, k requires 0 <= k < |methods| =>
      match c[k]
      case None => methods[k]
      case Some(text) => methods[k].(trivia := text))
  }

  /**
   * Under the intended merge, a matched method's comment documents exactly
   * its own parameters (read line by line); an unmatched method is untouched.
   */
  lemma {:induction false} HandleDocumentsOwnParams(methods: seq<MethodDecl>, goDoc: Option<GoDoc>, k: nat)
    requires k < |methods| && SingleLineParams(methods[k].params)
    ensures match Lookup(goDoc, methods[k].name)
      case None => SyncedByHandle(methods, goDoc)[k] == methods[k]
      case Some(e) => Split(SyncedByHandle(methods, goDoc)[k].trivia) == CommentLines(e.doc, methods[k].params)
  {
    match Lookup(goDoc, methods[k].name)
    case None =>
    case Some(e) =>
      CommentTextLines(e.doc, methods[k].params);
  }

  /** When no two methods share a name, the merge as written and as intended agree. */
  lemma {:induction false} DistinctNamesAgree(methods: seq<MethodDecl>, goDoc: Option<GoDoc>)
    requires forall j, k :: 0 <= j < k < |methods| ==> methods[j].name != methods[k].name
    ensures Synced(methods, goDoc) == SyncedByHandle(methods, goDoc)
  {
    var a, b := Synced(methods, goDoc), SyncedByHandle(methods, goDoc);
    forall k | 0 <= k < |methods| ensures a[k] == b[k] {
      match Lookup(goDoc, methods[k].name)
      case None => UnmatchedKept(methods, goDoc, k);
      case Some(e) =>
        assert forall j :: 0 <= j < |methods| && j != k ==> methods[j].name != methods[k].name by {
          forall j | 0 <= j < |methods| && j != k ensures methods[j].name != methods[k].name {
            if j < k {} else {}
          }
        }
        UniqueMatchedRewritten(methods, goDoc, k, e);
    }
  }
}
