/**
  `gen_docs.py`: API documentation from Java sources. For every endpoint of
  the endpoint list it reads the line the endpoint cites and the line after
  it (the method signature), collects request parameters (the fields of the
  `@RequestBody` class and the `@PathVariable`s) and response parameters,
  and renders them as markdown tables.

  The Java tree is given as a map from path to the file's lines (as
  `readlines` returns them); `classes` maps a class name to the lines of the
  file `find_class_file` would find for it.
*/
module ApiDocs {
  import opened Common
  import opened PyInt
  import opened JavaScan
  import opened Workspace

  /** One parameter row: the four keys of the dictionaries the script builds. */
  datatype Param = Param(name: string, dataType: string, description: string, optionality: string)

  const Mandatory := "Mandatory"
  const Optional := "Optional"

  // ---------------------------------------------------------------------
  // analyze_java_class

  /** `lines[max(0, i-3):i]`: the up to three lines just above line `i`. */
  function WindowStart(i: nat): nat {
    if i >= 3 then i - 3 else 0
  }

  /** Whether "@NotNull" occurs in one of the up to three lines above line `i`. */
  predicate NotNullAbove(lines: seq<string>, i: nat)
    requires i <= |lines|
  {
    exists k | WindowStart(i) <= k < i :: Contains(lines[k], "@NotNull")
  }

  /** The field declaration the pattern finds on each line. */
  function LineDecls(lines: seq<string>): (r: seq<Option<(string, string)>>)
    ensures |r| == |lines|
    ensures forall i | 0 <= i < |lines| :: r[i] == SearchField(lines[i])
  {
    seq(|lines|, i requires 0 <= i < |lines| => SearchField(lines[i]))
  }

  /** For each line, whether "@NotNull" appears in the three lines above it. */
  function NotNullFlags(lines: seq<string>): (r: seq<bool>)
    ensures |r| == |lines|
    ensures forall i | 0 <= i < |lines| :: r[i] == NotNullAbove(lines, i)
  {
    seq(|lines|, i requires 0 <= i < |lines| => NotNullAbove(lines, i))
  }

  /** The parameter a line yields, given its declaration and its flag. */
  function FieldOf(decl: Option<(string, string)>, notNull: bool): Option<Param> {
    match decl
    case None => None
    case Some((dataType, name)) => Some(Param(name, dataType, "", if notNull then Mandatory else Optional))
  }

  /** The fields of lines with the given declarations and flags, in line order. */
  function Fields(decls: seq<Option<(string, string)>>, flags: seq<bool>): seq<Param>
    requires |decls| == |flags|
  {
    if decls == [] then []
    else
      var rest := Fields(decls[..|decls| - 1], flags[..|flags| - 1]);
      match FieldOf(decls[|decls| - 1], flags[|flags| - 1])
      case None => rest
      case Some(f) => rest + [f]
  }

  /** What `analyze_java_class` returns for a file's lines. */
  function ClassFields(lines: seq<string>): seq<Param> {
    Fields(LineDecls(lines), NotNullFlags(lines))
  }

  /** The indices of the lines that declare a field, in increasing order. */
  function DeclaringLines(decls: seq<Option<(string, string)>>): (r: seq<nat>)
    ensures forall j | 0 <= j < |r| :: r[j] < |decls| && decls[r[j]].Some?
    ensures forall j, k | 0 <= j < k < |r| :: r[j] < r[k]
    ensures forall i | 0 <= i < |decls| && decls[i].Some? :: i in r
  {
    if decls == [] then []
    else
      var rest := DeclaringLines(decls[..|decls| - 1]);
      if decls[|decls| - 1].Some? then rest + [|decls| - 1] else rest
  }

  /** The fields are exactly the declarations of the declaring lines, one per
      line, in line order. */
  lemma {:induction false} FieldsAreDeclaringLines(decls: seq<Option<(string, string)>>, flags: seq<bool>)
    requires |decls| == |flags|
    ensures var idx := DeclaringLines(decls);
            |Fields(decls, flags)| == |idx| &&
            forall j | 0 <= j < |idx| :: Some(Fields(decls, flags)[j]) == FieldOf(decls[idx[j]], flags[idx[j]])
  {
    if decls != [] {
      var n := |decls| - 1;
      var d', f' := decls[..n], flags[..n];
      FieldsAreDeclaringLines(d', f');
      var idx', rest := DeclaringLines(d'), Fields(d', f');
      var idx, fields := DeclaringLines(decls), Fields(decls, flags);
      if decls[n].Some? {
        assert idx == idx' + [n];
        assert fields == rest + [FieldOf(decls[n], flags[n]).value];
      } else {
        assert idx == idx';
        assert fields == rest;
      }
      forall j | 0 <= j < |idx|
        ensures Some(fields[j]) == FieldOf(decls[idx[j]], flags[idx[j]])
      {
        if j < |idx'| {
          assert idx[j] == idx'[j] && fields[j] == rest[j];
          assert d'[idx'[j]] == decls[idx'[j]] && f'[idx'[j]] == flags[idx'[j]];
        }
      }
    }
  }

  /** The j-th field comes from the j-th declaring line: its type and name are
      the line's, its description is empty, and it is mandatory exactly when
      "@NotNull" appears in one of the three lines above the declaration. */
  lemma ClassFieldOfLine(lines: seq<string>, j: nat)
    requires j < |DeclaringLines(LineDecls(lines))|
    ensures j < |ClassFields(lines)|
    ensures var i, f := DeclaringLines(LineDecls(lines))[j], ClassFields(lines)[j];
            && i < |lines|
            && SearchField(lines[i]) == Some((f.dataType, f.name))
            && f.description == ""
            && (f.optionality == Mandatory <==> NotNullAbove(lines, i))
            && (f.optionality == Optional <==> !NotNullAbove(lines, i))
  {
    FieldsAreDeclaringLines(LineDecls(lines), NotNullFlags(lines));
  }

  /** `fields` is what a class file's lines declare: one field per declaring
      line, in line order, each with that line's type and name, an empty
      description, and "Mandatory" exactly when "@NotNull" appears in one of
      the three lines above it ("Optional" otherwise). */
  predicate FieldsOfLines(fields: seq<Param>, lines: seq<string>) {
    var idx := DeclaringLines(LineDecls(lines));
    && |fields| == |idx|
    && forall j | 0 <= j < |idx| ::
         && idx[j] < |lines|
         && SearchField(lines[idx[j]]) == Some((fields[j].dataType, fields[j].name))
         && fields[j].description == ""
         && fields[j].optionality == (if NotNullAbove(lines, idx[j]) then Mandatory else Optional)
  }

  /** `analyze_java_class` returns exactly the fields the file declares. */
  lemma ClassFieldsOfLines(lines: seq<string>)
    ensures FieldsOfLines(ClassFields(lines), lines)
  {
    var idx, fields := DeclaringLines(LineDecls(lines)), ClassFields(lines);
    FieldsAreDeclaringLines(LineDecls(lines), NotNullFlags(lines));
    assert |fields| == |idx|;
    forall j | 0 <= j < |idx|
      ensures && idx[j] < |lines|
              && SearchField(lines[idx[j]]) == Some((fields[j].dataType, fields[j].name))
              && fields[j].description == ""
              && fields[j].optionality == (if NotNullAbove(lines, idx[j]) then Mandatory else Optional)
    {
      ClassFieldOfLine(lines, j);
    }
  }

  /** An annotation four lines up does not count; one three lines up does. */
  lemma NotNullWindowExample()
    ensures !NotNullAbove(["@NotNull", "a", "b", "c", "x"], 4)
    ensures NotNullAbove(["@NotNull", "a", "b", "c", "x"], 3)
  {
    var lines := ["@NotNull", "a", "b", "c", "x"];
    assert OccursAt(lines[0], "@NotNull", 0);
    assert forall k | 1 <= k < 4 :: |lines[k]| < |"@NotNull"|;
  }

  /** Taking one more line adds that line's field, if it declares one. */
  lemma FieldsStep(decls: seq<Option<(string, string)>>, flags: seq<bool>, i: nat)
    requires |decls| == |flags| && i < |decls|
    ensures Fields(decls[..i + 1], flags[..i + 1])
            == Fields(decls[..i], flags[..i]) + (if decls[i].Some? then [FieldOf(decls[i], flags[i]).value] else [])
  {
    assert decls[..i + 1][..i] == decls[..i] && flags[..i + 1][..i] == flags[..i];
  }

  /** `analyze_java_class`: `None` when there is no class file. */
  method AnalyzeJavaClass(classLines: Option<seq<string>>) returns (fields: seq<Param>)
    ensures classLines.None? ==> fields == []
    ensures classLines.Some? ==> fields == ClassFields(classLines.value)
  {
    fields := [];
    if classLines.None? {
      return;
    }
    var lines := classLines.value;
    ghost var decls, flags := LineDecls(lines), NotNullFlags(lines);
    for i := 0 to |lines|
      invariant fields == Fields(decls[..i], flags[..i])
    {
      FieldsStep(decls, flags, i);
      var m := SearchField(lines[i]);
      assert m == decls[i];
      if m.Some? {
        var (dataType, name) := m.value;
        var optionality := Optional;
        if NotNullAbove(lines, i) {
          optionality := Mandatory;
        }
        assert optionality == (if flags[i] then Mandatory else Optional);
        fields := fields + [Param(name, dataType, "", optionality)];
      }
    }
    assert decls[..|lines|] == decls && flags[..|lines|] == flags;
  }

  // ---------------------------------------------------------------------
  // format_params_to_markdown

  /** The header row is a row whose cells are the column titles. */
  const ColumnTitles := Param("Name", "Data Type", "Description (Business Context)", "Optionality")
  const TableHead := Row(ColumnTitles)
  const TableRule := "|---|---|---|---|" + "\n"

  function Row(p: Param): string {
    "| " + p.name + " | " + p.dataType + " | " + p.description + " | " + p.optionality + " |\n"
  }

  function Rows(params: seq<Param>): string {
    if params == [] then "" else Rows(params[..|params| - 1]) + Row(params[|params| - 1])
  }

  lemma {:induction false} RowsAppend(a: seq<Param>, b: seq<Param>)
    ensures Rows(a + b) == Rows(a) + Rows(b)
    decreases |b|
  {
    if b == [] {
      assert a + b == a;
    } else {
      var b' := b[..|b| - 1];
      assert (a + b)[..|a + b| - 1] == a + b';
      assert (a + b)[|a + b| - 1] == b[|b| - 1];
      RowsAppend(a, b');
      AppendAssoc(Rows(a), Rows(b'), Row(b[|b| - 1]));
    }
  }

  /** The table for a titled parameter list; nothing at all for no parameters. */
  function ParamsTable(title: string, params: seq<Param>): (r: string)
    ensures r == "" <==> params == []
    ensures params != [] ==> StartsWith(r, "### " + title + "\n" + TableHead + TableRule)
  {
    if params == [] then ""
    else
      var head := "### " + title + "\n" + TableHead + TableRule;
      var r := head + Rows(params) + "\n";
      assert r[..|head|] == head;
      r
  }

  method FormatParamsToMarkdown(title: string, params: seq<Param>) returns (markdown: string)
    ensures markdown == ParamsTable(title, params)
  {
    if params == [] {
      return "";
    }
    markdown := "### " + title + "\n";
    markdown := markdown + TableHead;
    markdown := markdown + TableRule;
    ghost var head := markdown;
    for i := 0 to |params|
      invariant markdown == head + Rows(params[..i])
    {
      assert params[..i + 1][..i] == params[..i];
      markdown := markdown + Row(params[i]);
    }
    assert params[..|params|] == params;
    markdown := markdown + "\n";
  }

  lemma {:induction false} CountCharAppend(a: string, b: string, c: char)
    ensures CountChar(a + b, c) == CountChar(a, c) + CountChar(b, c)
  {
    if a != [] {
      assert (a + b)[1..] == a[1..] + b;
      assert (a + b)[0] == a[0];
      CountCharAppend(a[1..], b, c);
    } else {
      assert a + b == b;
    }
  }

  lemma {:induction false} CountCharAbsent(s: string, c: char)
    requires c !in s
    ensures CountChar(s, c) == 0
  {
    if s != [] {
      assert c !in s[1..] by { assert forall k | 0 <= k < |s| - 1 :: s[1..][k] == s[k + 1]; }
      CountCharAbsent(s[1..], c);
    }
  }

  /** A text without line breaks followed by one. */
  lemma OneLine(s: string)
    requires '\n' !in s
    ensures CountChar(s + "\n", '\n') == 1
  {
    CountCharAppend(s, "\n", '\n');
    CountCharAbsent(s, '\n');
    assert "\n"[1..] == "";
  }

  predicate SingleLine(p: Param) {
    '\n' !in p.name && '\n' !in p.dataType && '\n' !in p.description && '\n' !in p.optionality
  }

  lemma RowIsOneLine(p: Param)
    requires SingleLine(p)
    ensures CountChar(Row(p), '\n') == 1
  {
    var body := "| " + p.name + " | " + p.dataType + " | " + p.description + " | " + p.optionality + " |";
    assert Row(p) == body + "\n";
    assert '\n' !in body;
    OneLine(body);
  }

  lemma {:induction false} RowsLines(params: seq<Param>)
    requires forall i | 0 <= i < |params| :: SingleLine(params[i])
    ensures CountChar(Rows(params), '\n') == |params|
  {
    if params != [] {
      RowsLines(params[..|params| - 1]);
      CountCharAppend(Rows(params[..|params| - 1]), Row(params[|params| - 1]), '\n');
      RowIsOneLine(params[|params| - 1]);
    }
  }

  lemma HeadRowOneLine()
    ensures CountChar(TableHead, '\n') == 1
  {
    var t := ColumnTitles;
    assert forall k | 0 <= k < |t.description| :: t.description[k] != '\n';
    assert forall k | 0 <= k < |t.name| :: t.name[k] != '\n';
    assert forall k | 0 <= k < |t.dataType| :: t.dataType[k] != '\n';
    assert forall k | 0 <= k < |t.optionality| :: t.optionality[k] != '\n';
    RowIsOneLine(t);
  }

  lemma RuleOneLine()
    ensures CountChar(TableRule, '\n') == 1
  {
    OneLine("|---|---|---|---|");
  }

  lemma TableHeadLines(title: string)
    requires '\n' !in title
    ensures CountChar("### " + title + "\n" + TableHead + TableRule, '\n') == 3
  {
    var t := "### " + title;
    assert '\n' !in t;
    OneLine(t);
    HeadRowOneLine();
    RuleOneLine();
    var a := t + "\n";
    var b := a + TableHead;
    CountCharAppend(a, TableHead, '\n');
    CountCharAppend(b, TableRule, '\n');
  }

  /** A table has its title line, the header row, the rule, one line per
      parameter and a closing blank line. */
  lemma TableLines(title: string, params: seq<Param>)
    requires params != [] && '\n' !in title
    requires forall i | 0 <= i < |params| :: SingleLine(params[i])
    ensures CountChar(ParamsTable(title, params), '\n') == |params| + 4
  {
    var head := "### " + title + "\n" + TableHead + TableRule;
    assert ParamsTable(title, params) == head + Rows(params) + "\n";
    TableHeadLines(title);
    RowsLines(params);
    CountCharAppend(head, Rows(params), '\n');
    CountCharAppend(head + Rows(params), "\n", '\n');
    OneLine("");
  }

  // ---------------------------------------------------------------------
  // analyze_endpoint

  /** An entry of the endpoint list. */
  datatype Endpoint = Endpoint(httpMethod: string, path: string, description: string, sourceLocation: string)

  datatype EndpointError =
    | LocationNotPair(location: string)   // unpacking `split(":")` into two names fails
    | LineNotInteger(text: string)        // `int(line_number_str)` raises
    | LineOutOfRange(lineNumber: int)     // `lines[line_number-1]` raises

  /** Python's `s.split(sep)` for a one-character separator. */
  function Split(s: string, sep: char): (r: seq<string>)
    ensures |r| >= 1
    ensures forall i | 0 <= i < |r| :: sep !in r[i]
  {
    if s == [] then [""]
    else if s[0] == sep then [""] + Split(s[1..], sep)
    else
      var rest := Split(s[1..], sep);
      assert forall i | 1 <= i < |rest| :: rest[i] == rest[1..][i - 1];
      [[s[0]] + rest[0]] + rest[1..]
  }

  /** `sep.join(parts)`. */
  function Join(parts: seq<string>, sep: char): string
    requires |parts| >= 1
  {
    if |parts| == 1 then parts[0] else parts[0] + [sep] + Join(parts[1..], sep)
  }

  /** Splitting loses nothing: joining the pieces gives the text back. */
  lemma {:induction false} JoinSplit(s: string, sep: char)
    ensures Join(Split(s, sep), sep) == s
  {
    if s != [] {
      var rest := Split(s[1..], sep);
      JoinSplit(s[1..], sep);
      if s[0] == sep {
        assert ([""] + rest)[1..] == rest;
      } else {
        var r := [[s[0]] + rest[0]] + rest[1..];
        if |rest| > 1 {
          assert r[1..] == rest[1..];
        }
      }
    }
  }

  function CountChar(s: string, c: char): nat {
    if s == [] then 0 else (if s[0] == c then 1 else 0) + CountChar(s[1..], c)
  }

  /** There is one more piece than separators. */
  lemma {:induction false} SplitPieces(s: string, sep: char)
    ensures |Split(s, sep)| == CountChar(s, sep) + 1
  {
    if s != [] {
      SplitPieces(s[1..], sep);
    }
  }

  /** `file_path, line_number_str = source_location.split(":")` and
      `int(line_number_str)`. */
  function ParseLocation(location: string): (r: Result<(string, int), EndpointError>)
    ensures r.Ok? ==> CountChar(location, ':') == 1 && |Split(location, ':')| == 2
    ensures r.Ok? ==> |Split(location, ':')| == 2 && ParseInt(Split(location, ':')[1]) == Some(r.value.1)
    ensures r.Ok? ==> |Split(location, ':')| == 2 && location == r.value.0 + ":" + Split(location, ':')[1]
    ensures CountChar(location, ':') != 1 ==> r == Err(LocationNotPair(location))
  {
    var parts := Split(location, ':');
    SplitPieces(location, ':');
    if |parts| != 2 then Err(LocationNotPair(location))
    else
      JoinSplit(location, ':');
      assert Join(parts[1..], ':') == parts[1];
      match ParseInt(parts[1])
      case None => Err(LineNotInteger(parts[1]))
      case Some(n) => Ok((parts[0], n))
  }

  /** `os.path.join(root, path)`. */
  function JoinPath(root: string, path: string): (r: string)
    ensures StartsWith(path, "/") ==> r == path
    ensures EndsWith(r, path)
  {
    if StartsWith(path, "/") then path
    else if root == [] || EndsWith(root, "/") then root + path
    else root + "/" + path
  }

  /** `lines[k]` with Python's negative indices; `None` is the `IndexError`. */
  function PyIndex(lines: seq<string>, k: int): (r: Option<string>)
    ensures 0 <= k < |lines| ==> r == Some(lines[k])
    ensures -|lines| <= k < 0 ==> r == Some(lines[|lines| + k])
    ensures r.None? <==> k < -|lines| || |lines| <= k
  {
    if 0 <= k < |lines| then Some(lines[k])
    else if -|lines| <= k < 0 then Some(lines[|lines| + k])
    else None
  }

  const SuccessParam := Param("success", "boolean", "Indicates if the operation was successful.", Mandatory)

  /** The fields of a class found by name, none when no file defines it. */
  function FieldsOfClass(classes: map<string, seq<string>>, name: string): seq<Param> {
    if name in classes then ClassFields(classes[name]) else []
  }

  /** The path variables of a signature as parameters. */
  function PathVarParams(matches: seq<(string, string)>): (r: seq<Param>)
    ensures |r| == |matches|
    ensures forall i | 0 <= i < |r| :: r[i].name == matches[i].0 && r[i].dataType == matches[i].1
    ensures forall i | 0 <= i < |r| :: r[i].description == "Path Parameter" && r[i].optionality == Mandatory
  {
    seq(|matches|, i requires 0 <= i < |matches| => Param(matches[i].0, matches[i].1, "Path Parameter", Mandatory))
  }

  /** The request parameters a signature line declares: the request-body
      class's fields, then the path variables, in order. */
  function RequestParams(signature: string, classes: map<string, seq<string>>): seq<Param> {
    RequestBodyParams(signature, classes) + PathVarParams(FindPathVars(signature, 0))
  }

  /** The fields of the class named after "@RequestBody", if any. */
  function RequestBodyParams(signature: string, classes: map<string, seq<string>>): seq<Param> {
    match Search(signature, 0, RequestBodyAt)
    case None => []
    case Some((_, cls)) => FieldsOfClass(classes, cls)
  }

  /** The response parameters: the success flag when the cited line and the
      signature build a `BaseResponse`, else those of the declared return
      type (the success flag again when it is `BaseResponse` itself). */
  function ResponseParams(methodLine: string, signature: string, classes: map<string, seq<string>>): seq<Param> {
    if HasBaseResponse(methodLine + signature) then [SuccessParam]
    else match Search(signature, 0, PublicTypeAt)
      case None => []
      case Some((_, returnType)) =>
        if returnType != "BaseResponse" then FieldsOfClass(classes, returnType) else [SuccessParam]
  }

  /** The request-body parameters: none without an `@RequestBody <word>`
      match or when no file defines the class it names; otherwise exactly the
      fields that class's file declares. */
  lemma RequestBodyParamsOfClass(signature: string, classes: map<string, seq<string>>)
    ensures Search(signature, 0, RequestBodyAt).None? ==> RequestBodyParams(signature, classes) == []
    ensures Search(signature, 0, RequestBodyAt).Some? ==>
              var cls := Search(signature, 0, RequestBodyAt).value.1;
              && (cls !in classes ==> RequestBodyParams(signature, classes) == [])
              && (cls in classes ==> FieldsOfLines(RequestBodyParams(signature, classes), classes[cls]))
  {
    var m := Search(signature, 0, RequestBodyAt);
    if m.Some? && m.value.1 in classes {
      ClassFieldsOfLines(classes[m.value.1]);
    }
  }

  /** There are no request-body parameters exactly when there is no
      `@RequestBody` match, its class is unknown, or the class declares no
      field. */
  lemma RequestBodyParamsEmpty(signature: string, classes: map<string, seq<string>>)
    ensures RequestBodyParams(signature, classes) == [] <==>
              || Search(signature, 0, RequestBodyAt).None?
              || Search(signature, 0, RequestBodyAt).value.1 !in classes
              || DeclaringLines(LineDecls(classes[Search(signature, 0, RequestBodyAt).value.1])) == []
  {
    RequestBodyParamsOfClass(signature, classes);
  }

  /** The response parameters: exactly the success flag when the cited line
      and the signature build a `BaseResponse`; otherwise, for the leftmost
      `public <type>` of the signature, the success flag when that type is
      `BaseResponse`, and else exactly the fields that type's file declares
      (none when no file defines it); none without a return type. */
  lemma ResponseParamsOfType(methodLine: string, signature: string, classes: map<string, seq<string>>)
    ensures HasBaseResponse(methodLine + signature) ==> ResponseParams(methodLine, signature, classes) == [SuccessParam]
    ensures !HasBaseResponse(methodLine + signature) && Search(signature, 0, PublicTypeAt).None? ==>
              ResponseParams(methodLine, signature, classes) == []
    ensures !HasBaseResponse(methodLine + signature) && Search(signature, 0, PublicTypeAt).Some? ==>
              var t := Search(signature, 0, PublicTypeAt).value.1;
              && (t == "BaseResponse" ==> ResponseParams(methodLine, signature, classes) == [SuccessParam])
              && (t != "BaseResponse" && t !in classes ==> ResponseParams(methodLine, signature, classes) == [])
              && (t != "BaseResponse" && t in classes ==>
                    FieldsOfLines(ResponseParams(methodLine, signature, classes), classes[t]))
  {
    var m := Search(signature, 0, PublicTypeAt);
    if !HasBaseResponse(methodLine + signature) && m.Some? && m.value.1 != "BaseResponse" && m.value.1 in classes {
      ClassFieldsOfLines(classes[m.value.1]);
    }
  }

  /** A `BaseResponse` is built exactly when `new BaseResponse(...)` matches
      somewhere in the cited line followed by the signature. */
  lemma HasBaseResponseMeans(s: string)
    ensures HasBaseResponse(s) <==> exists p | 0 <= p <= |s| :: BaseResponseAt(s, p).Some?
  {
  }

  /** The parameters an endpoint cites: none when the file is missing, the
      cited line is past the end, or it is the last line (there is no
      signature line after it). */
  function EndpointParams(lines: Option<seq<string>>, lineNumber: int, classes: map<string, seq<string>>)
    : (r: Result<(seq<Param>, seq<Param>), EndpointError>)
    ensures r.Err? <==> lines.Some? && lineNumber - 1 < -|lines.value|
    ensures lines.Some? && 0 <= lineNumber < |lines.value| && r.Ok? && lineNumber >= 1 ==>
              r.value.0 == RequestParams(lines.value[lineNumber], classes)
    ensures lines.Some? && lineNumber >= |lines.value| && lineNumber >= 1 ==> r == Ok(([], []))
  {
    if lines.None? then Ok(([], []))
    else
      var ls := lines.value;
      if !(lineNumber - 1 < |ls|) then Ok(([], []))
      else match PyIndex(ls, lineNumber - 1)
        case None => Err(LineOutOfRange(lineNumber))
        case Some(methodLine) =>
          if lineNumber < |ls| then
            var signature := PyIndex(ls, lineNumber).value;
            Ok((RequestParams(signature, classes), ResponseParams(methodLine, signature, classes)))
          else Ok(([], []))
  }

  /** The first three lines of an endpoint block. */
  function EndpointHeading(e: Endpoint): string {
    "## Endpoint: `" + e.httpMethod + " " + e.path + "`\n\n"
    + "**Description:** " + e.description + "\n"
    + "**Source:** `" + e.sourceLocation + "`\n\n"
  }

  /** What `analyze_endpoint` returns for an endpoint. */
  function EndpointDoc(e: Endpoint, root: string, sources: map<string, seq<string>>, classes: map<string, seq<string>>)
    : Result<string, EndpointError>
  {
    match ParseLocation(e.sourceLocation)
    case Err(err) => Err(err)
    case Ok((filePath, lineNumber)) =>
      var full := JoinPath(root, filePath);
      var lines := if full in sources then Some(sources[full]) else None;
      match EndpointParams(lines, lineNumber, classes)
      case Err(err) => Err(err)
      case Ok((request, response)) =>
        Ok(EndpointHeading(e) + ParamsTable("Request Parameters", request) + ParamsTable("Response Parameters", response))
  }

  /** A block built from any two parameter lists opens with the endpoint's
      method and path. */
  lemma HeadingFirst(e: Endpoint, request: seq<Param>, response: seq<Param>)
    ensures StartsWith(EndpointHeading(e) + ParamsTable("Request Parameters", request)
                         + ParamsTable("Response Parameters", response),
                       "## Endpoint: `" + e.httpMethod + " " + e.path + "`\n\n")
  {
    var h := "## Endpoint: `" + e.httpMethod + " " + e.path + "`\n\n";
    assert h[..|h|] == h;
    StartsWithExtend(h, h, "**Description:** ");
    var d1 := h + "**Description:** ";
    StartsWithExtend(d1, h, e.description);
    var d2 := d1 + e.description;
    StartsWithExtend(d2, h, "\n");
    var d3 := d2 + "\n";
    StartsWithExtend(d3, h, "**Source:** `");
    var d4 := d3 + "**Source:** `";
    StartsWithExtend(d4, h, e.sourceLocation);
    var d5 := d4 + e.sourceLocation;
    StartsWithExtend(d5, h, "`\n\n");
    var d6 := d5 + "`\n\n";
    assert d6 == EndpointHeading(e);
    StartsWithExtend(d6, h, ParamsTable("Request Parameters", request));
    var d7 := d6 + ParamsTable("Request Parameters", request);
    StartsWithExtend(d7, h, ParamsTable("Response Parameters", response));
  }

  /** An endpoint block opens with the endpoint's method and path and closes
      with the request table and then the response table. */
  lemma EndpointDocShape(e: Endpoint, root: string, sources: map<string, seq<string>>, classes: map<string, seq<string>>)
    requires EndpointDoc(e, root, sources, classes).Ok?
    ensures var d := EndpointDoc(e, root, sources, classes).value;
            && StartsWith(d, "## Endpoint: `" + e.httpMethod + " " + e.path + "`\n\n")
            && exists request, response ::
                 d == EndpointHeading(e) + ParamsTable("Request Parameters", request)
                      + ParamsTable("Response Parameters", response)
  {
    var loc := ParseLocation(e.sourceLocation).value;
    var full := JoinPath(root, loc.0);
    var lines := if full in sources then Some(sources[full]) else None;
    var ps := EndpointParams(lines, loc.1, classes).value;
    HeadingFirst(e, ps.0, ps.1);
  }

  /** A location without exactly one ':' is rejected. */
  lemma EndpointNeedsOneColon(e: Endpoint, root: string, sources: map<string, seq<string>>, classes: map<string, seq<string>>)
    requires CountChar(e.sourceLocation, ':') != 1
    ensures EndpointDoc(e, root, sources, classes) == Err(LocationNotPair(e.sourceLocation))
  {
  }

  lemma PathVarParamsAppend(matches: seq<(string, string)>, m: (string, string))
    ensures PathVarParams(matches + [m]) == PathVarParams(matches) + [Param(m.0, m.1, "Path Parameter", Mandatory)]
  {
  }

  /** The request-body part of `analyze_endpoint` (lines 73-78). */
  method RequestBodyParamsOf(signature: string, classes: map<string, seq<string>>) returns (bodyParams: seq<Param>)
    ensures bodyParams == RequestBodyParams(signature, classes)
  {
    bodyParams := [];
    var bodyMatch := Search(signature, 0, RequestBodyAt);
    if bodyMatch.Some? {
      var requestClassName := bodyMatch.value.1;
      var classFields := AnalyzeJavaClass(if requestClassName in classes then Some(classes[requestClassName]) else None);
      bodyParams := bodyParams + classFields;
    }
  }

  /** The path-variable loop of `analyze_endpoint` (lines 80-86): each match
      appended, in order, as a mandatory path parameter. */
  method AppendPathVarParams(params: seq<Param>, matches: seq<(string, string)>) returns (r: seq<Param>)
    ensures r == params + PathVarParams(matches)
  {
    r := params;
    for i := 0 to |matches|
      invariant r == params + PathVarParams(matches[..i])
    {
      var m := matches[i];
      assert matches[..i + 1] == matches[..i] + [m];
      PathVarParamsAppend(matches[..i], m);
      r := r + [Param(m.0, m.1, "Path Parameter", Mandatory)];
    }
    assert matches[..|matches|] == matches;
  }

  /** The request-parameter part of `analyze_endpoint` (lines 73-86). */
  method RequestParamsOf(signature: string, classes: map<string, seq<string>>) returns (requestParams: seq<Param>)
    ensures requestParams == RequestParams(signature, classes)
  {
    requestParams := RequestBodyParamsOf(signature, classes);
    var pathVariableMatches := FindPathVars(signature, 0);
    requestParams := AppendPathVarParams(requestParams, pathVariableMatches);
  }

  /** The response-parameter part of `analyze_endpoint` (lines 89-110). */
  method ResponseParamsOf(methodLine: string, signature: string, classes: map<string, seq<string>>)
    returns (responseParams: seq<Param>)
    ensures responseParams == ResponseParams(methodLine, signature, classes)
  {
    responseParams := [];
    if HasBaseResponse(methodLine + signature) {
      responseParams := responseParams + [SuccessParam];
    } else {
      var returnTypeMatch := Search(signature, 0, PublicTypeAt);
      if returnTypeMatch.Some? {
        var returnType := returnTypeMatch.value.1;
        if returnType != "BaseResponse" {
          var classFields := AnalyzeJavaClass(if returnType in classes then Some(classes[returnType]) else None);
          responseParams := responseParams + classFields;
        } else {
          responseParams := responseParams + [SuccessParam];
        }
      }
    }
  }

  /** Lines 63-110 of `analyze_endpoint`: both parameter lists. */
  method EndpointParamsOf(lines: Option<seq<string>>, lineNumber: int, classes: map<string, seq<string>>)
    returns (r: Result<(seq<Param>, seq<Param>), EndpointError>)
    ensures r == EndpointParams(lines, lineNumber, classes)
  {
    var requestParams: seq<Param> := [];
    var responseParams: seq<Param> := [];
    if lines.Some? {
      var ls := lines.value;
      if lineNumber - 1 < |ls| {
        var methodLine := PyIndex(ls, lineNumber - 1);
        if methodLine.None? {
          return Err(LineOutOfRange(lineNumber));
        }
        if lineNumber < |ls| {
          var signature := PyIndex(ls, lineNumber).value;
          requestParams := RequestParamsOf(signature, classes);
          responseParams := ResponseParamsOf(methodLine.value, signature, classes);
        }
      }
    }
    r := Ok((requestParams, responseParams));
  }

  /** `analyze_endpoint`. */
  method AnalyzeEndpoint(e: Endpoint, root: string, sources: map<string, seq<string>>, classes: map<string, seq<string>>)
    returns (r: Result<string, EndpointError>)
    ensures r == EndpointDoc(e, root, sources, classes)
  {
    var parts := Split(e.sourceLocation, ':');
    if |parts| != 2 {
      SplitPieces(e.sourceLocation, ':');
      return Err(LocationNotPair(e.sourceLocation));
    }
    var filePath, lineNumberStr := parts[0], parts[1];
    var parsed := ParseInt(lineNumberStr);
    if parsed.None? {
      return Err(LineNotInteger(lineNumberStr));
    }
    var lineNumber := parsed.value;
    var fullPath := JoinPath(root, filePath);
    var params := EndpointParamsOf(if fullPath in sources then Some(sources[fullPath]) else None, lineNumber, classes);
    if params.Err? {
      return Err(params.error);
    }
    var (requestParams, responseParams) := params.value;
    var markdown := "## Endpoint: `" + e.httpMethod + " " + e.path + "`\n\n";
    markdown := markdown + "**Description:** " + e.description + "\n";
    markdown := markdown + "**Source:** `" + e.sourceLocation + "`\n\n";
    var requestTable := FormatParamsToMarkdown("Request Parameters", requestParams);
    markdown := markdown + requestTable;
    var responseTable := FormatParamsToMarkdown("Response Parameters", responseParams);
    markdown := markdown + responseTable;
    r := Ok(markdown);
  }

  // ---------------------------------------------------------------------
  // main

  const EndpointSeparator := "---\n\n"
  const ApiOutput := "step2_api"

  /** What `analyze_endpoint` returns for each endpoint, in list order. */
  function Docs(endpoints: seq<Endpoint>, root: string, sources: map<string, seq<string>>, classes: map<string, seq<string>>)
    : (r: seq<Result<string, EndpointError>>)
    ensures |r| == |endpoints|
    ensures forall i | 0 <= i < |endpoints| :: r[i] == EndpointDoc(endpoints[i], root, sources, classes)
  {
    seq(|endpoints|, i requires 0 <= i < |endpoints| => EndpointDoc(endpoints[i], root, sources, classes))
  }

  /** Each successful block followed by the separator; errors stay as they are. */
  function WithSeparators(docs: seq<Result<string, EndpointError>>): (r: seq<Result<string, EndpointError>>)
    ensures |r| == |docs|
    ensures forall i | 0 <= i < |docs| :: r[i].Err? <==> docs[i].Err?
    ensures forall i | 0 <= i < |docs| :: docs[i].Err? ==> r[i] == docs[i]
    ensures forall i | 0 <= i < |docs| :: docs[i].Ok? ==> r[i] == Ok(docs[i].value + EndpointSeparator)
  {
    seq(|docs|, i requires 0 <= i < |docs| =>
      match docs[i]
      case Err(err) => Err(err)
      case Ok(doc) => Ok(doc + EndpointSeparator))
  }

  /** The document for a list of endpoints: each block followed by the
      separator, in list order; the first failing endpoint's error otherwise. */
  function AllDocs(endpoints: seq<Endpoint>, root: string, sources: map<string, seq<string>>, classes: map<string, seq<string>>)
    : Result<string, EndpointError>
  {
    Collect(WithSeparators(Docs(endpoints, root, sources, classes)))
  }

  /** Joining separated blocks fails exactly when one block fails; joining
      at least one block ends with the separator. */
  lemma SeparatedFails(docs: seq<Result<string, EndpointError>>)
    ensures Collect(WithSeparators(docs)).Err? <==> exists i | 0 <= i < |docs| :: docs[i].Err?
    ensures docs != [] && Collect(WithSeparators(docs)).Ok? ==>
              EndsWith(Collect(WithSeparators(docs)).value, EndpointSeparator)
  {
    var blocks := WithSeparators(docs);
    CollectFails(blocks);
    if docs != [] && Collect(blocks).Ok? {
      forall i | 0 <= i < |blocks| && blocks[i].Ok? ensures EndsWith(blocks[i].value, EndpointSeparator) {
        var v := blocks[i].value;
        assert v[|v| - |EndpointSeparator|..] == EndpointSeparator;
      }
      CollectEndsWith(blocks, EndpointSeparator);
    }
  }

  /** The document fails exactly when one endpoint's analysis fails; each
      successful document ends with the separator. */
  lemma AllDocsFails(endpoints: seq<Endpoint>, root: string, sources: map<string, seq<string>>, classes: map<string, seq<string>>)
    ensures AllDocs(endpoints, root, sources, classes).Err? <==>
              exists i | 0 <= i < |endpoints| :: EndpointDoc(endpoints[i], root, sources, classes).Err?
    ensures endpoints != [] && AllDocs(endpoints, root, sources, classes).Ok? ==>
              EndsWith(AllDocs(endpoints, root, sources, classes).value, EndpointSeparator)
  {
    var docs := Docs(endpoints, root, sources, classes);
    SeparatedFails(docs);
  }

  lemma DocsAppend(a: seq<Endpoint>, b: seq<Endpoint>, root: string, sources: map<string, seq<string>>, classes: map<string, seq<string>>)
    ensures Docs(a + b, root, sources, classes) == Docs(a, root, sources, classes) + Docs(b, root, sources, classes)
  {
    var da, db, dab := Docs(a, root, sources, classes), Docs(b, root, sources, classes), Docs(a + b, root, sources, classes);
    forall i | 0 <= i < |a + b|
      ensures dab[i] == (da + db)[i]
    {
      if i < |a| {
        assert (a + b)[i] == a[i];
      } else {
        assert (a + b)[i] == b[i - |a|];
      }
    }
  }

  lemma WithSeparatorsAppend(a: seq<Result<string, EndpointError>>, b: seq<Result<string, EndpointError>>)
    ensures WithSeparators(a + b) == WithSeparators(a) + WithSeparators(b)
  {
    var wa, wb, wab := WithSeparators(a), WithSeparators(b), WithSeparators(a + b);
    forall i | 0 <= i < |a + b|
      ensures wab[i] == (wa + wb)[i]
    {
      if i < |a| {
        assert (a + b)[i] == a[i];
      } else {
        assert (a + b)[i] == b[i - |a|];
      }
    }
  }

  /** Documenting two lists one after the other gives the two documents
      joined: endpoint blocks keep their order. */
  lemma AllDocsAppend(a: seq<Endpoint>, b: seq<Endpoint>, root: string, sources: map<string, seq<string>>, classes: map<string, seq<string>>)
    requires AllDocs(a, root, sources, classes).Ok? && AllDocs(b, root, sources, classes).Ok?
    ensures AllDocs(a + b, root, sources, classes)
            == Ok(AllDocs(a, root, sources, classes).value + AllDocs(b, root, sources, classes).value)
  {
    var da, db := Docs(a, root, sources, classes), Docs(b, root, sources, classes);
    DocsAppend(a, b, root, sources, classes);
    WithSeparatorsAppend(da, db);
    CollectAppend(WithSeparators(da), WithSeparators(db));
  }

  /** One step of the main loop, for any list of analysis results: a
      failure decides the whole document, a success extends it by the block
      and the separator. */
  lemma SeparatedStep(docs: seq<Result<string, EndpointError>>, i: nat, text: string)
    requires i < |docs| && Collect(WithSeparators(docs)[..i]) == Ok(text)
    ensures docs[i].Err? ==> Collect(WithSeparators(docs)) == Err(docs[i].error)
    ensures docs[i].Ok? ==> Collect(WithSeparators(docs)[..i + 1]) == Ok(text + docs[i].value + EndpointSeparator)
  {
    var blocks := WithSeparators(docs);
    assert blocks[..i + 1][..i] == blocks[..i];
    if docs[i].Err? {
      CollectStops(blocks, i + 1);
    } else {
      CollectStep(blocks, i, text, docs[i].value + EndpointSeparator);
      assert text + (docs[i].value + EndpointSeparator) == text + docs[i].value + EndpointSeparator;
    }
  }

  /** The loop of the main block: every endpoint's document followed by the
      separator, stopping at the first endpoint whose analysis fails. */
  method DocumentEndpoints(endpoints: seq<Endpoint>, root: string,
                           sources: map<string, seq<string>>, classes: map<string, seq<string>>)
    returns (r: Result<string, EndpointError>)
    ensures r == AllDocs(endpoints, root, sources, classes)
  {
    ghost var docs := Docs(endpoints, root, sources, classes);
    var allDocs := "";
    for i := 0 to |endpoints|
      invariant Collect(WithSeparators(docs)[..i]) == Ok(allDocs)
    {
      var doc := AnalyzeEndpoint(endpoints[i], root, sources, classes);
      SeparatedStep(docs, i, allDocs);
      if doc.Err? {
        return Err(doc.error);
      }
      allDocs := allDocs + doc.value;
      allDocs := allDocs + EndpointSeparator;
    }
    assert WithSeparators(docs)[..|endpoints|] == WithSeparators(docs);
    r := Ok(allDocs);
  }

  /** The main block: document every endpoint, then write the whole
      document over the output file. A failing endpoint stops the script
      before the output is opened. */
  method GenerateApiDocs(ws: Workspace, endpoints: seq<Endpoint>, root: string,
                         sources: map<string, seq<string>>, classes: map<string, seq<string>>)
    returns (r: Option<EndpointError>)
    modifies ws
    ensures r.None? <==> AllDocs(endpoints, root, sources, classes).Ok?
    ensures r.None? ==> ws.files == old(ws.files)[ApiOutput := AllDocs(endpoints, root, sources, classes).value]
    ensures r.Some? ==> ws.files == old(ws.files) && Err(r.value) == AllDocs(endpoints, root, sources, classes)
    ensures ws.prompts == old(ws.prompts)
  {
    var allDocs := DocumentEndpoints(endpoints, root, sources, classes);
    if allDocs.Err? {
      return Some(allDocs.error);
    }
    ws.Overwrite(ApiOutput, allDocs.value);
    r := None;
  }
}
