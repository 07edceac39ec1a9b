/**
 * The static capability catalog of the code-mode pipeline (kestrel/code_mode.py):
 * rendering each function definition of a service's client module as a
 * one-line signature, folding the services into a catalog, and choosing the
 * model family from a model identifier.
 *
 * Parsing is not modelled: a client module arrives already parsed, as the
 * sequence of syntax nodes in the order the syntax-tree walk visits them.
 */
module CodeMode {
  import opened Wrappers

  /** A return annotation: absent, a bare name, a constant (carrying the text
      `str` gives for its value), or any other expression (carrying the text
      the unparser gives for it). The text is None when that conversion
      raises, as `str` does for an integer too long to print and the
      unparser does for an expression nested too deeply. */
  datatype Annotation =
    | NoAnnotation
    | NameAnnotation(id: string)
    | ConstantAnnotation(text: Option<string>)
    | ComplexAnnotation(unparsed: Option<string>)

  /** The annotation's text can be produced. */
  predicate Renders(ann: Annotation) {
    match ann
    case ConstantAnnotation(text) => text.Some?
    case ComplexAnnotation(unparsed) => unparsed.Some?
    case _ => true
  }

  /** A function definition: its name, the names of its positional-or-keyword
      parameters (`args.args`), the number of defaults it declares
      (`len(args.defaults)`, which also counts the defaults of positional-only
      parameters, so it may exceed the number of names), and its return
      annotation. Positional-only, `*args`, keyword-only and `**kwargs`
      parameters are never rendered and are not part of the value. */
  datatype FunctionDef = FunctionDef(name: string, argNames: seq<string>, numDefaults: nat, returnAnnotation: Annotation)

  /** A syntax node met by the walk; only the two kinds of definitions are told apart. */
  datatype Node =
    | FunctionDefNode(def: FunctionDef)
    | AsyncFunctionDefNode(def: FunctionDef)
    | OtherNode

  /** A client module: unreadable or unparsable, or parsed into its walk. */
  datatype SourceFile = ReadOrParseError(message: string) | Parsed(walk: seq<Node>)

  /** The text that stands for a default value. */
  const DefaultMarker: string := "=..."

  /** Argument `i` of `numArgs` is one of the last `numDefaults`, which carry defaults. */
  predicate HasDefault(i: int, numArgs: int, numDefaults: int) {
    i >= numArgs - numDefaults
  }

  /** How argument `i` of `numArgs` is rendered. */
  function ArgText(name: string, i: int, numArgs: int, numDefaults: int): string {
    if HasDefault(i, numArgs, numDefaults) then name + DefaultMarker else name
  }

  /** The rendered argument list, one entry per positional-or-keyword parameter. */
  function RenderedArgs(argNames: seq<string>, numDefaults: nat): seq<string> {
    seq(|argNames|, i requires 0 <= i < |argNames| => ArgText(argNames[i], i, |argNames|, numDefaults))
  }

  /** The rendered return type; "None" when there is no annotation. */
  function ReturnTypeText(ann: Annotation): string
    requires Renders(ann)
  {
    match ann
    case NoAnnotation => "None"
    case NameAnnotation(id) => id
    case ConstantAnnotation(text) => text.value
    case ComplexAnnotation(unparsed) => unparsed.value
  }

  /** Python's `sep.join(parts)`. */
  function Join(sep: string, parts: seq<string>): string {
    if |parts| == 0 then ""
    else if |parts| == 1 then parts[0]
    else parts[0] + sep + Join(sep, parts[1..])
  }

  /** The catalog line of one definition: `name(a, b=...) -> T`. */
  function Signature(d: FunctionDef): string
    requires Renders(d.returnAnnotation)
  {
    d.name + "(" + Join(", ", RenderedArgs(d.argNames, d.numDefaults)) + ") -> " + ReturnTypeText(d.returnAnnotation)
  }

  /** The node is a synchronous definition whose return type cannot be rendered. */
  predicate Fails(n: Node) {
    n.FunctionDefNode? && !Renders(n.def.returnAnnotation)
  }

  /** No node of the walk fails to render. */
  predicate RendersAll(walk: seq<Node>) {
    forall j :: 0 <= j < |walk| ==> !Fails(walk[j])
  }

  /** The signatures emitted for a walk: one per synchronous definition, up
      to the first definition whose rendering raises; the exception ends the
      walk and what was emitted before it is kept. */
  function SignaturesOf(walk: seq<Node>): seq<string> {
    if walk == [] || Fails(walk[0]) then []
    else
      (if walk[0].FunctionDefNode? then [Signature(walk[0].def)] else []) + SignaturesOf(walk[1..])
  }

  /** What `get_function_signatures` returns for a client module. */
  function FileSignatures(file: SourceFile): seq<string> {
    match file
    case ReadOrParseError(_) => []
    case Parsed(walk) => SignaturesOf(walk)
  }

  /** The synchronous definitions of a walk, in walk order. */
  function FunctionDefs(walk: seq<Node>): (defs: seq<FunctionDef>)
    ensures |defs| <= |walk|
    ensures forall d :: d in defs <==> FunctionDefNode(d) in walk
  {
    if walk == [] then []
    else
      var rest := FunctionDefs(walk[1..]);
      assert forall n :: n in walk <==> n == walk[0] || n in walk[1..];
      if walk[0].FunctionDefNode? then [walk[0].def] + rest else rest
  }

  /** The argument rendering loop: an entry per argument, `=...` appended
      to the last `numDefaults` of them. */
  method RenderArgs(argNames: seq<string>, numDefaults: nat) returns (argStrs: seq<string>)
    ensures argStrs == RenderedArgs(argNames, numDefaults)
  {
    var numArgs := |argNames|;
    argStrs := [];
    for i := 0 to numArgs
      invariant argStrs == RenderedArgs(argNames, numDefaults)[..i]
    {
      if i >= numArgs - numDefaults {
        argStrs := argStrs + [argNames[i] + "=..."];
      } else {
        argStrs := argStrs + [argNames[i]];
      }
    }
  }

  /** `get_function_signatures`: one signature per synchronous definition in
      walk order; an unreadable or unparsable module gives the empty list,
      and a definition whose return type cannot be rendered ends the walk
      with the signatures built so far. */
  method GetFunctionSignatures(file: SourceFile) returns (functions: seq<string>)
    ensures functions == FileSignatures(file)
  {
    functions := [];
    if file.ReadOrParseError? {
      // the error is reported and the list, still empty, is returned
      return;
    }
    var walk := file.walk;
    for k := 0 to |walk|
      invariant RendersAll(walk[..k])
      invariant functions == SignaturesOf(walk[..k])
    {
      var node := walk[k];
      if node.FunctionDefNode? {
        var d := node.def;
        var argStrs := RenderArgs(d.argNames, d.numDefaults);
        var returnType := "None";
        var raised := false;
        match d.returnAnnotation {
          case NoAnnotation =>
          case NameAnnotation(id) => returnType := id;
          case ConstantAnnotation(text) =>
            if text.Some? { returnType := text.value; } else { raised := true; }
          case ComplexAnnotation(unparsed) =>
            if unparsed.Some? { returnType := unparsed.value; } else { raised := true; }
        }
        if raised {
          // the error is reported and the signatures built so far are returned
          RenderFailureKeepsEarlier(walk, k);
          return;
        }
        var signature := d.name + "(" + Join(", ", argStrs) + ") -> " + returnType;
        functions := functions + [signature];
      }
      assert walk[..k + 1] == walk[..k] + [node];
      assert !Fails(node);
      SignaturesOfAppend(walk[..k], [node]);
    }
    assert walk[..|walk|] == walk;
  }

  /** Holds when no later entry than `i` (before `k`) names the same service. */
  predicate LastBefore(clientFiles: seq<(string, SourceFile)>, i: int, k: int)
    requires 0 <= i < k <= |clientFiles|
  {
    forall j :: i < j < k ==> clientFiles[j].0 != clientFiles[i].0
  }

  /** The catalog of (service name, client module) pairs in discovery order:
      each pair in turn sets its service's entry. */
  function Catalog(clientFiles: seq<(string, SourceFile)>): map<string, seq<string>> {
    if clientFiles == [] then map[]
    else
      var last := clientFiles[|clientFiles| - 1];
      Catalog(clientFiles[..|clientFiles| - 1])[last.0 := FileSignatures(last.1)]
  }

  /** The catalog's keys are exactly the service names. */
  lemma {:induction false} CatalogKeys(clientFiles: seq<(string, SourceFile)>)
    ensures Catalog(clientFiles).Keys == set i | 0 <= i < |clientFiles| :: clientFiles[i].0
  {
    if clientFiles != [] {
      var n := |clientFiles| - 1;
      var prefix := clientFiles[..n];
      CatalogKeys(prefix);
      assert (set i | 0 <= i < n :: prefix[i].0) == (set i | 0 <= i < n :: clientFiles[i].0);
      assert (set i | 0 <= i < n + 1 :: clientFiles[i].0) == (set i | 0 <= i < n :: clientFiles[i].0) + {clientFiles[n].0};
    }
  }

  /** A service's entry holds the signatures of the last module of that name. */
  lemma {:induction false} CatalogLastWins(clientFiles: seq<(string, SourceFile)>, i: int)
    requires 0 <= i < |clientFiles| && LastBefore(clientFiles, i, |clientFiles|)
    ensures clientFiles[i].0 in Catalog(clientFiles)
    ensures Catalog(clientFiles)[clientFiles[i].0] == FileSignatures(clientFiles[i].1)
  {
    var n := |clientFiles| - 1;
    if i < n {
      var prefix := clientFiles[..n];
      assert clientFiles[n].0 != clientFiles[i].0;
      assert LastBefore(prefix, i, n) by {
        forall j | i < j < n ensures prefix[j].0 != prefix[i].0 {
          assert clientFiles[j].0 != clientFiles[i].0;
        }
      }
      CatalogLastWins(prefix, i);
    }
  }

  /** `get_all_client_functions`: folds (service name, client module) pairs,
      in discovery order, into the catalog. Its keys are exactly the service
      names; each holds the signatures of the last module of that name. */
  method GetAllClientFunctions(clientFiles: seq<(string, SourceFile)>) returns (clientFunctions: map<string, seq<string>>)
    ensures clientFunctions == Catalog(clientFiles)
    ensures clientFunctions.Keys == set i | 0 <= i < |clientFiles| :: clientFiles[i].0
    ensures forall i :: 0 <= i < |clientFiles| && LastBefore(clientFiles, i, |clientFiles|) ==>
      clientFunctions[clientFiles[i].0] == FileSignatures(clientFiles[i].1)
  {
    clientFunctions := map[];
    for k := 0 to |clientFiles|
      invariant clientFunctions == Catalog(clientFiles[..k])
    {
      var serviceName := clientFiles[k].0;
      var functions := GetFunctionSignatures(clientFiles[k].1);
      clientFunctions := clientFunctions[serviceName := functions];
      assert clientFiles[..k + 1][..k] == clientFiles[..k];
    }
    assert clientFiles[..|clientFiles|] == clientFiles;
    CatalogKeys(clientFiles);
    forall i | 0 <= i < |clientFiles| && LastBefore(clientFiles, i, |clientFiles|)
      ensures clientFunctions[clientFiles[i].0] == FileSignatures(clientFiles[i].1)
    {
      CatalogLastWins(clientFiles, i);
    }
  }

  /** The end-to-end catalog of a services tree holding one provider,
      `geocoding`, whose client defines `convert_lat_long_to_city` with two
      annotated positional arguments and a `str` return annotation. */
  method GeocodingCatalog() returns (catalog: map<string, seq<string>>)
    ensures catalog == map["geocoding" := ["convert_lat_long_to_city(latitude, longitude) -> str"]]
  {
    var convert: FunctionDef := FunctionDef("convert_lat_long_to_city", ["latitude", "longitude"], 0, NameAnnotation("str"));
    // the module node, the definition, then the nodes below the definition
    var walk := [OtherNode, FunctionDefNode(convert), OtherNode];
    var files := [("geocoding", Parsed(walk))];
    catalog := GetAllClientFunctions(files);
    assert LastBefore(files, 0, 1);
    assert (set i | 0 <= i < 1 :: files[i].0) == {"geocoding"} by {
      assert files[0].0 == "geocoding";
    }
    assert SignaturesOf(walk) == [Signature(convert)] by {
      var w1 := [FunctionDefNode(convert), OtherNode];
      assert walk[1..] == w1 && w1[1..] == [OtherNode] && [OtherNode][1..] == [];
      assert SignaturesOf([OtherNode]) == [];
      assert SignaturesOf(w1) == [Signature(convert)];
    }
    GeocodingSignature();
    assert catalog["geocoding"] == [Signature(convert)];
  }

  /** The catalog line of the geocoding service's one operation. */
  lemma GeocodingSignature()
    ensures Signature(FunctionDef("convert_lat_long_to_city", ["latitude", "longitude"], 0, NameAnnotation("str")))
      == "convert_lat_long_to_city(latitude, longitude) -> str"
  {
    var args := ["latitude", "longitude"];
    assert RenderedArgs(args, 0) == args;
    assert Join(", ", args) == "latitude, longitude" by {
      assert args[1..] == ["longitude"];
      assert "latitude" + ", " + "longitude" == "latitude, longitude";
    }
    var head := "convert_lat_long_to_city" + "(";
    assert head == "convert_lat_long_to_city(";
    var body := head + "latitude, longitude";
    assert body == "convert_lat_long_to_city(latitude, longitude";
    assert body + ") -> " + "str" == "convert_lat_long_to_city(latitude, longitude) -> str";
  }

  /** Signatures of consecutive parts of a walk are emitted consecutively
      when the first part renders throughout. */
  lemma {:induction false} SignaturesOfAppend(a: seq<Node>, b: seq<Node>)
    requires RendersAll(a)
    ensures SignaturesOf(a + b) == SignaturesOf(a) + SignaturesOf(b)
  {
    if a == [] {
      assert a + b == b;
    } else {
      assert (a + b)[0] == a[0];
      assert (a + b)[1..] == a[1..] + b;
      RendersAllTail(a);
      SignaturesOfAppend(a[1..], b);
    }
  }

  /** Helper: a walk that renders throughout starts with a node that renders,
      and so does its tail. */
  lemma RendersAllTail(walk: seq<Node>)
    requires walk != [] && RendersAll(walk)
    ensures !Fails(walk[0]) && RendersAll(walk[1..])
  {
    forall j | 0 <= j < |walk| - 1 ensures !Fails(walk[1..][j]) {
      assert walk[1..][j] == walk[j + 1];
    }
  }

  /** A definition whose return type cannot be rendered ends the list: the
      result is what the walk before it emitted, and nothing after it counts. */
  lemma RenderFailureKeepsEarlier(walk: seq<Node>, k: int)
    requires 0 <= k < |walk| && Fails(walk[k]) && RendersAll(walk[..k])
    ensures SignaturesOf(walk) == SignaturesOf(walk[..k])
  {
    SignaturesOfAppend(walk[..k], walk[k..]);
    assert walk[..k] + walk[k..] == walk;
    assert walk[k..][0] == walk[k];
  }

  /** Never more signatures than synchronous definitions, and exactly one per
      synchronous definition when every definition renders. */
  lemma {:induction false} SignaturesCount(walk: seq<Node>)
    ensures |SignaturesOf(walk)| <= |FunctionDefs(walk)|
    ensures RendersAll(walk) ==> |SignaturesOf(walk)| == |FunctionDefs(walk)|
  {
    if walk != [] {
      var rest := walk[1..];
      SignaturesCount(rest);
      if RendersAll(walk) {
        RendersAllTail(walk);
      }
      if Fails(walk[0]) {
        assert !RendersAll(walk);
      } else if walk[0].FunctionDefNode? {
        assert |SignaturesOf(walk)| == 1 + |SignaturesOf(rest)|;
        assert |FunctionDefs(walk)| == 1 + |FunctionDefs(rest)|;
      } else {
        assert SignaturesOf(walk) == SignaturesOf(rest);
        assert FunctionDefs(walk) == FunctionDefs(rest);
      }
    }
  }

  /** The k-th signature belongs to the k-th synchronous definition, in walk
      order, with no filtering by name; asynchronous definitions and other
      nodes emit nothing. */
  lemma {:induction false} SignaturesFollowDefs(walk: seq<Node>)
    ensures |SignaturesOf(walk)| <= |FunctionDefs(walk)|
    ensures forall k :: 0 <= k < |SignaturesOf(walk)| ==>
      Renders(FunctionDefs(walk)[k].returnAnnotation) && SignaturesOf(walk)[k] == Signature(FunctionDefs(walk)[k])
  {
    SignaturesCount(walk);
    if walk != [] && !Fails(walk[0]) {
      var rest := walk[1..];
      SignaturesFollowDefs(rest);
      if walk[0].FunctionDefNode? {
        var sigs := SignaturesOf(walk);
        var defs := FunctionDefs(walk);
        assert sigs == [Signature(walk[0].def)] + SignaturesOf(rest);
        assert defs == [walk[0].def] + FunctionDefs(rest);
        forall k | 0 < k < |sigs|
          ensures Renders(defs[k].returnAnnotation) && sigs[k] == Signature(defs[k])
        {
          assert sigs[k] == SignaturesOf(rest)[k - 1] && defs[k] == FunctionDefs(rest)[k - 1];
        }
      } else {
        assert SignaturesOf(walk) == SignaturesOf(rest);
        assert FunctionDefs(walk) == FunctionDefs(rest);
      }
    }
  }

  /** Rendering keeps one entry per argument, in order: each entry is the
      argument's name, followed by the marker exactly when that argument is
      among the last `numDefaults`. */
  lemma RenderedArgsShape(argNames: seq<string>, numDefaults: nat)
    ensures |RenderedArgs(argNames, numDefaults)| == |argNames|
    ensures forall i :: 0 <= i < |argNames| ==>
      RenderedArgs(argNames, numDefaults)[i] ==
        argNames[i] + (if i >= |argNames| - numDefaults then DefaultMarker else "")
  {
  }

  /** With no defaults nothing is marked; with at least as many defaults as
      arguments everything is. */
  lemma MarkerExtremes(argNames: seq<string>, numDefaults: nat)
    ensures numDefaults == 0 ==> RenderedArgs(argNames, numDefaults) == argNames
    ensures numDefaults >= |argNames| ==> forall i :: 0 <= i < |argNames| ==>
      RenderedArgs(argNames, numDefaults)[i] == argNames[i] + DefaultMarker
  {
  }

  // ----- Reading a signature back -----

  /** A character a Python identifier may hold, Unicode letters included: it
      is none of the punctuation a catalog line is built from. */
  predicate IsIdentChar(c: char) {
    c != ',' && c != '(' && c != ')' && c != '.' && c != '=' && c != ' '
  }

  /** A non-empty string of identifier characters; every Python identifier is one. */
  predicate IsIdentifier(s: string) {
    |s| > 0 && forall i :: 0 <= i < |s| ==> IsIdentChar(s[i])
  }

  /** One parameter as a catalog reader sees it. */
  datatype Param = Param(name: string, hasDefault: bool)

  /** An operation as a catalog reader sees it: name, parameters with their
      default markers, and return type text. */
  datatype OperationSignature = OperationSignature(name: string, params: seq<Param>, returnType: string)

  /** The parameters of a definition, each with its default flag. */
  function Params(argNames: seq<string>, numDefaults: nat): seq<Param> {
    seq(|argNames|, i requires 0 <= i < |argNames| => Param(argNames[i], HasDefault(i, |argNames|, numDefaults)))
  }

  /** What a definition's catalog line is meant to convey. */
  function Described(d: FunctionDef): OperationSignature
    requires Renders(d.returnAnnotation)
  {
    OperationSignature(
      d.name,
      Params(d.argNames, d.numDefaults),
      ReturnTypeText(d.returnAnnotation))
  }

  /** The index of the first `c` in `s`, or `|s|` when there is none. */
  function IndexOf(s: string, c: char): (k: nat)
    ensures k <= |s|
    ensures forall i :: 0 <= i < k ==> s[i] != c
    ensures k < |s| ==> s[k] == c
  {
    if s == [] || s[0] == c then 0 else 1 + IndexOf(s[1..], c)
  }

  /** Splits an argument list at each ", ". */
  function SplitArgs(s: string): seq<string>
    decreases |s|
  {
    var k := IndexOf(s, ',');
    if k == |s| then [s]
    else [s[..k]] + SplitArgs(if k + 1 < |s| && s[k + 1] == ' ' then s[k + 2..] else s[k + 1..])
  }

  /** The entry ends with the default marker. */
  predicate EndsWithMarker(a: string) {
    |a| >= |DefaultMarker| && a[|a| - |DefaultMarker|..] == DefaultMarker
  }

  /** Reads one argument entry back. */
  function DecodeParam(a: string): Param {
    if EndsWithMarker(a) then Param(a[..|a| - |DefaultMarker|], true) else Param(a, false)
  }

  /** Reads a catalog line `name(args) -> T` back; None when it has no such shape. */
  function ParseSignature(s: string): Option<OperationSignature> {
    var p := IndexOf(s, '(');
    if p == |s| then None else ParseAfterName(s[..p], s[p + 1..])
  }

  /** Reads back what follows the `(` of a line named `name`. */
  function ParseAfterName(name: string, rest: string): Option<OperationSignature> {
    var q := IndexOf(rest, ')');
    ParseReturnType(name, rest[..q], rest[q..])
  }

  /** Reads back the `) -> T` closing a line. */
  function ParseReturnType(name: string, argsText: string, tail: string): Option<OperationSignature> {
    if |tail| < 5 || tail[..5] != ") -> " then None
    else Some(OperationSignature(name, DecodeArgs(argsText), tail[5..]))
  }

  /** The first `c` of `a + [c] + b` is right after `a` when `a` has none. */
  lemma IndexOfAfter(a: string, c: char, b: string)
    requires c !in a
    ensures IndexOf(a + [c] + b, c) == |a|
  {
    var s := a + [c] + b;
    assert s[|a|] == c;
    assert forall i :: 0 <= i < |a| ==> s[i] == a[i];
  }

  /** A character in neither the separator nor any part is not in the join. */
  lemma {:induction false} JoinAvoids(sep: string, parts: seq<string>, c: char)
    requires c !in sep
    requires forall i :: 0 <= i < |parts| ==> c !in parts[i]
    ensures c !in Join(sep, parts)
  {
    if |parts| > 1 {
      JoinAvoids(sep, parts[1..], c);
    }
  }

  /** Splitting undoes joining with ", " when no part is empty or holds a comma. */
  lemma {:induction false} SplitJoin(parts: seq<string>)
    requires |parts| > 0
    requires forall i :: 0 <= i < |parts| ==> parts[i] != "" && ',' !in parts[i]
    ensures SplitArgs(Join(", ", parts)) == parts
  {
    if |parts| == 1 {
      assert IndexOf(parts[0], ',') == |parts[0]|;
    } else {
      var rest := Join(", ", parts[1..]);
      var s := parts[0] + ", " + rest;
      assert s == parts[0] + [','] + (" " + rest);
      IndexOfAfter(parts[0], ',', " " + rest);
      assert s[..|parts[0]|] == parts[0];
      assert s[|parts[0]| + 1] == ' ';
      assert s[|parts[0]| + 2..] == rest;
      SplitJoin(parts[1..]);
      assert [parts[0]] + parts[1..] == parts;
    }
  }

  /** A join of non-empty parts is empty only when there are no parts. */
  lemma JoinEmpty(sep: string, parts: seq<string>)
    requires forall i :: 0 <= i < |parts| ==> parts[i] != ""
    ensures Join(sep, parts) == "" <==> parts == []
  {
  }

  /** An identifier never ends with the marker, and neither it nor its
      marked form holds a separator or parenthesis character. */
  lemma EntryChars(name: string, marked: bool)
    requires IsIdentifier(name)
    ensures var a := if marked then name + DefaultMarker else name;
      a != "" && ',' !in a && '(' !in a && ')' !in a &&
      DecodeParam(a) == Param(name, marked)
  {
    IdentifierChars(name);
    if marked {
      var a := name + DefaultMarker;
      assert a[|a| - |DefaultMarker|..] == DefaultMarker;
      assert a[..|a| - |DefaultMarker|] == name;
      assert forall c :: c in a ==> c in name || c in DefaultMarker;
    }
  }

  /** An identifier holds no separator or parenthesis and does not end with
      the marker, whose last character is a '.'. */
  lemma IdentifierChars(name: string)
    requires IsIdentifier(name)
    ensures ',' !in name && '(' !in name && ')' !in name
    ensures !EndsWithMarker(name)
  {
    var last := name[|name| - 1];
    assert IsIdentChar(last);
    if |name| >= |DefaultMarker| {
      assert name[|name| - |DefaultMarker|..][3] == last;
    }
  }

  /** The decoded parameters of an argument list text. */
  function DecodeArgs(argsText: string): seq<Param> {
    var args := if argsText == "" then [] else SplitArgs(argsText);
    seq(|args|, i requires 0 <= i < |args| => DecodeParam(args[i]))
  }

  /** The name of a line ends at its first '('. */
  lemma OpenParenSplit(name: string, rest: string)
    requires '(' !in name
    ensures var s := name + "(" + rest;
      IndexOf(s, '(') == |name| && s[..|name|] == name && s[|name| + 1..] == rest
  {
    assert name + "(" + rest == name + ['('] + rest;
    IndexOfAfter(name, '(', rest);
  }

  /** The argument list of a line ends at its first ')'. */
  lemma CloseParenSplit(argsText: string, t: string)
    requires ')' !in argsText
    ensures var rest := argsText + ") -> " + t;
      var q := IndexOf(rest, ')');
      rest[..q] == argsText && rest[q..] == ") -> " + t
  {
    assert argsText + ") -> " + t == argsText + [')'] + (" -> " + t);
    IndexOfAfter(argsText, ')', " -> " + t);
  }

  /** Reading back a line of the form `name(args) -> t`. */
  lemma ParseShape(name: string, argsText: string, t: string)
    requires '(' !in name && ')' !in argsText
    ensures ParseSignature(name + "(" + argsText + ") -> " + t) == Some(OperationSignature(name, DecodeArgs(argsText), t))
  {
    var rest := argsText + ") -> " + t;
    assert name + "(" + argsText + ") -> " + t == name + "(" + rest;
    OpenParenSplit(name, rest);
    assert ParseSignature(name + "(" + rest) == ParseAfterName(name, rest);
    CloseParenSplit(argsText, t);
    assert ParseAfterName(name, rest) == ParseReturnType(name, argsText, ") -> " + t);
    var tail := ") -> " + t;
    assert tail[..5] == ") -> " && tail[5..] == t;
  }

  /** An argument's entry carries the default marker exactly when the
      argument is one of the last `numDefaults`. */
  lemma MarkerIffDefault(argNames: seq<string>, numDefaults: nat, i: int)
    requires 0 <= i < |argNames| && IsIdentifier(argNames[i])
    ensures EndsWithMarker(RenderedArgs(argNames, numDefaults)[i]) <==> i >= |argNames| - numDefaults
  {
    EntryChars(argNames[i], HasDefault(i, |argNames|, numDefaults));
  }

  /** Reading a catalog line back gives the definition's name, every
      positional-or-keyword parameter with its default marker, and the
      return type. */
  lemma SignatureRoundTrip(d: FunctionDef)
    requires Renders(d.returnAnnotation)
    requires IsIdentifier(d.name)
    requires forall i :: 0 <= i < |d.argNames| ==> IsIdentifier(d.argNames[i])
    ensures ParseSignature(Signature(d)) == Some(Described(d))
  {
    var j := Join(", ", RenderedArgs(d.argNames, d.numDefaults));
    ArgsRoundTrip(d.argNames, d.numDefaults);
    IdentifierChars(d.name);
    ParseShape(d.name, j, ReturnTypeText(d.returnAnnotation));
  }

  /** Helper: the argument list of a line reads back as the parameters, each
      with its default flag, and holds no ')'. */
  lemma ArgsRoundTrip(argNames: seq<string>, numDefaults: nat)
    requires forall i :: 0 <= i < |argNames| ==> IsIdentifier(argNames[i])
    ensures var j := Join(", ", RenderedArgs(argNames, numDefaults));
      ')' !in j &&
      DecodeArgs(j) == Params(argNames, numDefaults)
  {
    var r := RenderedArgs(argNames, numDefaults);
    var n := |argNames|;
    forall i | 0 <= i < n
      ensures r[i] != "" && ',' !in r[i] && ')' !in r[i]
      ensures DecodeParam(r[i]) == Param(argNames[i], HasDefault(i, n, numDefaults))
    {
      EntryChars(argNames[i], HasDefault(i, n, numDefaults));
    }
    var j := Join(", ", r);
    JoinAvoids(", ", r, ')');
    JoinEmpty(", ", r);
    if j != "" {
      SplitJoin(r);
    }
  }

  // ----- Model family routing -----

  /** The chat model a pipeline run talks to. */
  datatype ChatModel =
    | ChatGoogleGenerativeAI(model: string, temperature: int)
    | ChatOllama(model: string)

  /** Python's `s.startswith(prefix)`, character by character. */
  function StartsWith(s: string, prefix: string): bool {
    prefix == [] || (s != [] && s[0] == prefix[0] && StartsWith(s[1..], prefix[1..]))
  }

  /** `startswith` agrees with the sequence-prefix relation. */
  lemma {:induction false} StartsWithIsPrefix(s: string, prefix: string)
    ensures StartsWith(s, prefix) <==> prefix <= s
  {
    if prefix != [] && s != [] {
      StartsWithIsPrefix(s[1..], prefix[1..]);
      assert prefix <= s <==> s[0] == prefix[0] && prefix[1..] <= s[1..];
    }
  }

  /** A Gemini chat model at temperature 0. */
  function InitLlmGemini(model: string): ChatModel {
    ChatGoogleGenerativeAI(model, 0)
  }

  /** An Ollama chat model. */
  function InitLlmOllama(model: string): ChatModel {
    ChatOllama(model)
  }

  /** `init_llm`: identifiers beginning with "gemini" go to Gemini, every
      other identifier to Ollama; the identifier is passed on unchanged. */
  function InitLlm(model: string): (llm: ChatModel)
    ensures llm.model == model
    ensures llm.ChatGoogleGenerativeAI? <==> "gemini" <= model
    ensures llm.ChatGoogleGenerativeAI? ==> llm.temperature == 0
  {
    StartsWithIsPrefix(model, "gemini");
    if StartsWith(model, "gemini") then InitLlmGemini(model) else InitLlmOllama(model)
  }
}
