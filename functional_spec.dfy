/**
  `gen_fs.py`: cutting named sections out of a markdown document and
  assembling the final functional specification by appending whole files.

  The document arrives as its lines (each keeping its "\n", as `readlines`
  gives them) and the headers the markdown analyser found in it.
*/
module FunctionalSpec {
  import opened Common
  import opened Workspace

  datatype SectionError =
    | NoSuchSection(title: string)   // `[... if h['text'] == header][0]` on an empty list
    | NoSectionEnd(title: string)    // no later header at the section's level

  /** The first header whose text is exactly `title`. */
  function FirstTitled(headers: seq<Header>, title: string): (r: Option<nat>)
    ensures r.Some? ==> r.value < |headers| && headers[r.value].text == title
    ensures r.Some? ==> forall k | 0 <= k < r.value :: headers[k].text != title
    ensures r.None? ==> forall k | 0 <= k < |headers| :: headers[k].text != title
  {
    if headers == [] then None
    else if headers[0].text == title then Some(0)
    else match FirstTitled(headers[1..], title)
      case None => None
      case Some(k) => Some(k + 1)
  }

  /** The first header, in list order, at `level` whose line is after `line`. */
  function FirstEndAfter(headers: seq<Header>, level: int, line: int): (r: Option<nat>)
    ensures r.Some? ==> r.value < |headers| && headers[r.value].level == level && headers[r.value].line > line
    ensures r.Some? ==> forall k | 0 <= k < r.value :: !(headers[k].level == level && headers[k].line > line)
    ensures r.None? ==> forall k | 0 <= k < |headers| :: !(headers[k].level == level && headers[k].line > line)
  {
    if headers == [] then None
    else if headers[0].level == level && headers[0].line > line then Some(0)
    else match FirstEndAfter(headers[1..], level, line)
      case None => None
      case Some(k) => Some(k + 1)
  }

  /** The heading put in front of an extracted section:
      `f"{'#'*new_header_level} {header} \n"`. */
  function SectionHeading(title: string, newLevel: int): string {
    Repeat('#', newLevel) + " " + title + " \n"
  }

  /** `get_section`: the section starts at the first header titled `title`
      and ends at the first later header (by line) at the same level; a
      shallower header does not end it. The body is
      `content[start.line : end.line - 2]` with Python's slice rules, and the
      section's own heading is replaced by one at `newLevel`. */
  function GetSection(title: string, headers: seq<Header>, content: seq<string>, newLevel: int)
    : (r: Result<string, SectionError>)
    ensures r.Err? <==>
              FirstTitled(headers, title).None? ||
              FirstEndAfter(headers, headers[FirstTitled(headers, title).value].level,
                            headers[FirstTitled(headers, title).value].line).None?
    ensures FirstTitled(headers, title).None? ==> r == Err(NoSuchSection(title))
    ensures r.Ok? ==> StartsWith(r.value, SectionHeading(title, newLevel))
  {
    match FirstTitled(headers, title)
    case None => Err(NoSuchSection(title))
    case Some(s) =>
      var start := headers[s];
      match FirstEndAfter(headers, start.level, start.line)
      case None => Err(NoSectionEnd(title))
      case Some(e) =>
        var heading := SectionHeading(title, newLevel);
        var text := heading + Concat(PySlice(content, start.line, headers[e].line - 2));
        assert text[..|heading|] == heading;
        Ok(text)
  }

  /** With the analyser's 1-based line numbers, a section whose lines all lie
      inside the document consists of its new heading followed by the lines
      strictly after its heading up to, but not including, the last line
      before the next header at its level (usually a blank line). */
  lemma SectionBody(title: string, headers: seq<Header>, content: seq<string>, newLevel: int, s: nat, e: nat)
    requires FirstTitled(headers, title) == Some(s)
    requires FirstEndAfter(headers, headers[s].level, headers[s].line) == Some(e)
    requires 0 <= headers[s].line <= headers[e].line - 2 <= |content|
    ensures GetSection(title, headers, content, newLevel)
            == Ok(SectionHeading(title, newLevel) + Concat(content[headers[s].line..headers[e].line - 2]))
  {
  }

  /** When the next header at the section's level follows its heading
      directly (or one line later), the slice's stop is not after its start
      and the section is its heading alone. */
  lemma ShortSectionIsHeadingOnly(title: string, headers: seq<Header>, content: seq<string>, newLevel: int, s: nat, e: nat)
    requires FirstTitled(headers, title) == Some(s)
    requires FirstEndAfter(headers, headers[s].level, headers[s].line) == Some(e)
    requires 1 <= headers[s].line <= |content|
    requires headers[e].line <= headers[s].line + 2
    ensures GetSection(title, headers, content, newLevel) == Ok(SectionHeading(title, newLevel))
  {
    assert 0 <= headers[e].line - 2 <= headers[s].line;
    assert PySlice(content, headers[s].line, headers[e].line - 2) == [];
    assert Concat([]) == "";
    assert SectionHeading(title, newLevel) + "" == SectionHeading(title, newLevel);
  }

  /** Lines 45-46: a chunk gets a final "\n" only when it lacks one. */
  function EnsureNewline(chunk: string): (r: string)
    requires chunk != []
    ensures r != [] && r[|r| - 1] == '\n'
    ensures r == chunk || r == chunk + "\n"
    ensures chunk[|chunk| - 1] == '\n' ==> r == chunk
  {
    if chunk[|chunk| - 1] != '\n' then chunk + "\n" else chunk
  }

  lemma EnsureNewlineIdempotent(chunk: string)
    requires chunk != []
    ensures EnsureNewline(EnsureNewline(chunk)) == EnsureNewline(chunk)
  {
  }

  /** A section request: the title to extract and the heading level to give it. */
  datatype SectionRequest = SectionRequest(header: string, newLevel: int)

  /** One request's contribution: the section, ending in "\n". */
  function Chunk(headers: seq<Header>, content: seq<string>, request: SectionRequest)
    : (r: Result<string, SectionError>)
    ensures r.Err? <==> GetSection(request.header, headers, content, request.newLevel).Err?
    ensures r.Ok? ==> r.value != [] && r.value[|r.value| - 1] == '\n'
  {
    match GetSection(request.header, headers, content, request.newLevel)
    case Err(e) => Err(e)
    case Ok(chunk) => assert chunk != []; Ok(EnsureNewline(chunk))
  }


  function Chunks(headers: seq<Header>, content: seq<string>, requests: seq<SectionRequest>)
    : (r: seq<Result<string, SectionError>>)
    ensures |r| == |requests|
  {
    seq(|requests|, i requires 0 <= i < |requests| => Chunk(headers, content, requests[i]))
  }

  /** What `get_sections_from_file` returns for the requests: each section,
      ending in "\n", in the order requested; the first failing request's
      error otherwise. */
  function SectionsText(headers: seq<Header>, content: seq<string>, requests: seq<SectionRequest>)
    : Result<string, SectionError>
  {
    Collect(Chunks(headers, content, requests))
  }

  lemma ChunkFails(headers: seq<Header>, content: seq<string>, requests: seq<SectionRequest>, i: nat)
    requires i < |requests|
    ensures Chunks(headers, content, requests)[i].Err? <==>
              GetSection(requests[i].header, headers, content, requests[i].newLevel).Err?
  {
  }

  /** The extraction fails exactly when one of the requested sections cannot
      be cut out. */
  lemma SectionsTextFails(headers: seq<Header>, content: seq<string>, requests: seq<SectionRequest>)
    ensures SectionsText(headers, content, requests).Err? <==>
              exists i | 0 <= i < |requests| ::
                GetSection(requests[i].header, headers, content, requests[i].newLevel).Err?
  {
    var chunks := Chunks(headers, content, requests);
    CollectFails(chunks);
    forall i | 0 <= i < |requests|
      ensures chunks[i].Err? <==> GetSection(requests[i].header, headers, content, requests[i].newLevel).Err?
    {
      ChunkFails(headers, content, requests, i);
    }
  }

  /** A successful extraction of at least one section ends a line. */
  lemma SectionsTextEndsLine(headers: seq<Header>, content: seq<string>, requests: seq<SectionRequest>)
    requires requests != [] && SectionsText(headers, content, requests).Ok?
    ensures EndsWith(SectionsText(headers, content, requests).value, "\n")
  {
    var chunks := Chunks(headers, content, requests);
    forall i | 0 <= i < |chunks| && chunks[i].Ok? ensures EndsWith(chunks[i].value, "\n") {
      var v := chunks[i].value;
      assert v[|v| - 1..] == "\n";
    }
    CollectEndsWith(chunks, "\n");
  }

  /** Extracting two lists of sections one after the other gives the
      concatenation of the two extractions. */
  lemma SectionsTextAppend(headers: seq<Header>, content: seq<string>,
                           a: seq<SectionRequest>, b: seq<SectionRequest>)
    requires SectionsText(headers, content, a).Ok? && SectionsText(headers, content, b).Ok?
    ensures SectionsText(headers, content, a + b)
            == Ok(SectionsText(headers, content, a).value + SectionsText(headers, content, b).value)
  {
    ChunksAppend(headers, content, a, b);
    CollectAppend(Chunks(headers, content, a), Chunks(headers, content, b));
  }

  lemma ChunksAppend(headers: seq<Header>, content: seq<string>, a: seq<SectionRequest>, b: seq<SectionRequest>)
    ensures Chunks(headers, content, a + b) == Chunks(headers, content, a) + Chunks(headers, content, b)
  {
    var ca, cb, cab := Chunks(headers, content, a), Chunks(headers, content, b), Chunks(headers, content, a + b);
    forall i | 0 <= i < |a + b|
      ensures cab[i] == (ca + cb)[i]
    {
      if i < |a| {
        assert (a + b)[i] == a[i];
      } else {
        assert (a + b)[i] == b[i - |a|];
      }
    }
  }

  /** `get_sections_from_file` once the file is read: the loop of lines
      42-49. */
  method GetSectionsFromFile(headers: seq<Header>, content: seq<string>, requests: seq<SectionRequest>)
    returns (r: Result<string, SectionError>)
    ensures r == SectionsText(headers, content, requests)
  {
    ghost var chunks := Chunks(headers, content, requests);
    var newContent: seq<string> := [];
    for i := 0 to |requests|
      invariant Collect(chunks[..i]) == Ok(Concat(newContent))
    {
      var section := requests[i];
      assert chunks[i] == Chunk(headers, content, section);
      var got := GetSection(section.header, headers, content, section.newLevel);
      if got.Err? {
        CollectStopsAt(chunks, i);
        return Err(got.error);
      }
      var sectionContent := got.value;
      assert sectionContent != [] by { assert StartsWith(sectionContent, SectionHeading(section.header, section.newLevel)); }
      if sectionContent[|sectionContent| - 1] != '\n' {
        sectionContent := sectionContent + "\n";
      }
      CollectStepConcat(chunks, i, newContent, sectionContent);
      newContent := newContent + [sectionContent];
    }
    assert chunks[..|requests|] == chunks;
    r := Ok(Concat(newContent));
  }

  datatype AppendError = InputMissing(path: string)   // `open(input_file, 'r')` raises

  /** `append_entire_file`: the output becomes its old contents (or nothing)
      followed by the whole input; the input is only read. A missing input
      raises before the output is opened. */
  method AppendEntireFile(ws: Workspace, input: string, output: string) returns (r: Option<AppendError>)
    modifies ws
    ensures r.None? <==> input in old(ws.files)
    ensures r.Some? ==> ws.files == old(ws.files) && r.value == InputMissing(input)
    ensures r.None? ==> ws.files == old(ws.files)[output := ContentsOr(old(ws.files), output) + old(ws.files)[input]]
    ensures input != output && input in old(ws.files) ==> ws.files[input] == old(ws.files)[input]
    ensures ws.prompts == old(ws.prompts)
  {
    if !ws.Exists(input) {
      return Some(InputMissing(input));
    }
    var text := ws.files[input];
    ws.Append(output, text);
    r := None;
  }

  /** Python's ordering of strings: by code point, a proper prefix first. */
  predicate LexLe(a: string, b: string) {
    a == [] || (b != [] && (a[0] < b[0] || (a[0] == b[0] && LexLe(a[1..], b[1..]))))
  }

  lemma {:induction false} LexLeTotal(a: string, b: string)
    ensures LexLe(a, b) || LexLe(b, a)
  {
    if a != [] && b != [] && a[0] == b[0] {
      LexLeTotal(a[1..], b[1..]);
    }
  }

  lemma {:induction false} LexLeTransitive(a: string, b: string, c: string)
    requires LexLe(a, b) && LexLe(b, c)
    ensures LexLe(a, c)
  {
    if a != [] && a[0] == b[0] && b[0] == c[0] {
      LexLeTransitive(a[1..], b[1..], c[1..]);
    }
  }

  predicate SortedNames(s: seq<string>) {
    forall i, j | 0 <= i < j < |s| :: LexLe(s[i], s[j])
  }

  /** A name no greater than the least of a sorted list is no greater than
      any of it. */
  lemma BelowAll(x: string, s: seq<string>)
    requires SortedNames(s) && s != [] && LexLe(x, s[0])
    ensures forall j | 0 <= j < |s| :: LexLe(x, s[j])
  {
    forall j | 0 <= j < |s| ensures LexLe(x, s[j]) {
      if j > 0 { LexLeTransitive(x, s[0], s[j]); }
    }
  }

  /** The least of a sorted list is no greater than anything its tail and a
      greater name make up. */
  lemma AboveHead(x: string, s: seq<string>, t: seq<string>)
    requires SortedNames(s) && s != [] && LexLe(s[0], x)
    requires multiset(t) == multiset(s[1..]) + multiset{x}
    ensures forall j | 0 <= j < |t| :: LexLe(s[0], t[j])
  {
    forall j | 0 <= j < |t| ensures LexLe(s[0], t[j]) {
      assert t[j] in multiset(t);
      if t[j] != x {
        assert t[j] in multiset(s[1..]);
        var k :| 0 <= k < |s[1..]| && s[1..][k] == t[j];
        assert s[k + 1] == t[j];
      }
    }
  }

  lemma SortedCons(h: string, t: seq<string>)
    requires SortedNames(t) && forall j | 0 <= j < |t| :: LexLe(h, t[j])
    ensures SortedNames([h] + t)
  {
    var r := [h] + t;
    forall i, j | 0 <= i < j < |r| ensures LexLe(r[i], r[j]) {
      if i == 0 {
        assert r[j] == t[j - 1];
      } else {
        assert r[i] == t[i - 1] && r[j] == t[j - 1];
      }
    }
  }

  function Insert(x: string, s: seq<string>): (r: seq<string>)
    requires SortedNames(s)
    ensures SortedNames(r)
    ensures multiset(r) == multiset(s) + multiset{x}
  {
    if s == [] then [x]
    else if LexLe(x, s[0]) then
      BelowAll(x, s);
      SortedCons(x, s);
      [x] + s
    else
      LexLeTotal(x, s[0]);
      assert s == [s[0]] + s[1..];
      var r' := Insert(x, s[1..]);
      AboveHead(x, s, r');
      SortedCons(s[0], r');
      assert multiset([s[0]] + r') == multiset{s[0]} + multiset(r');
      [s[0]] + r'
  }

  /** `sorted(names)`. */
  function Sort(names: seq<string>): (r: seq<string>)
    ensures SortedNames(r)
    ensures multiset(r) == multiset(names)
    ensures forall n :: n in r <==> n in names
  {
    if names == [] then []
    else
      assert names == names[..|names| - 1] + [names[|names| - 1]];
      var r := Insert(names[|names| - 1], Sort(names[..|names| - 1]));
      assert forall n :: (n in r <==> n in multiset(r)) && (n in names <==> n in multiset(names));
      r
  }

  const FinalOutput := "final_functional_specification.md"
  const IntroFile := "functional_specs_introduction.md"

  function JourneyFile(name: string): string {
    "./user_journeys/" + name
  }

  /** The contents of the named user-journey files, one after the other. */
  function JourneyTexts(files: map<string, string>, names: seq<string>): string
    requires forall k | 0 <= k < |names| :: JourneyFile(names[k]) in files
  {
    if names == [] then ""
    else JourneyTexts(files, names[..|names| - 1]) + files[JourneyFile(names[|names| - 1])]
  }

  /** The journey texts read only the journey files. */
  lemma {:induction false} JourneyTextsFrame(f: map<string, string>, g: map<string, string>, names: seq<string>)
    requires forall k | 0 <= k < |names| :: var p := JourneyFile(names[k]); p in f && p in g && f[p] == g[p]
    ensures JourneyTexts(f, names) == JourneyTexts(g, names)
  {
    if names != [] {
      JourneyTextsFrame(f, g, names[..|names| - 1]);
    }
  }

  /** The position of the first name whose user-journey file is missing, or
      the number of names when none is. */
  function FirstMissing(files: map<string, string>, names: seq<string>): (i: nat)
    ensures i <= |names|
    ensures forall k | 0 <= k < i :: JourneyFile(names[k]) in files
    ensures i < |names| ==> JourneyFile(names[i]) !in files
  {
    if names == [] || JourneyFile(names[0]) !in files then 0
    else
      var i := 1 + FirstMissing(files, names[1..]);
      assert forall k | 1 <= k < i :: names[k] == names[1..][k - 1];
      i
  }

  /** Only the journey files decide the first missing one, and the
      properties above determine it. */
  lemma FirstMissingIs(files: map<string, string>, names: seq<string>, i: nat)
    requires i <= |names|
    requires forall k | 0 <= k < i :: JourneyFile(names[k]) in files
    requires i < |names| ==> JourneyFile(names[i]) !in files
    ensures FirstMissing(files, names) == i
  {
  }

  /** Writing the final specification changes neither which journey file is
      missing first nor the texts of the journeys before it. */
  lemma FinalOutputWriteFrame(f: map<string, string>, v: string, names: seq<string>)
    requires forall n | n in names :: JourneyFile(n) != FinalOutput
    ensures FirstMissing(f[FinalOutput := v], names) == FirstMissing(f, names)
    ensures JourneyTexts(f[FinalOutput := v], names[..FirstMissing(f, names)])
            == JourneyTexts(f, names[..FirstMissing(f, names)])
  {
    var g := f[FinalOutput := v];
    var i := FirstMissing(f, names);
    forall k | 0 <= k < |names|
      ensures JourneyFile(names[k]) in g <==> JourneyFile(names[k]) in f
    {
      assert names[k] in names;
    }
    FirstMissingIs(g, names, i);
    JourneyTextsFrame(f, g, names[..i]);
  }

  /** Lines 91-99: append each named user-journey file, in the order given,
      to the final specification (which the introduction has already
      created), stopping at the first one that is missing. */
  method AppendJourneyFiles(ws: Workspace, names: seq<string>) returns (r: Option<AppendError>)
    requires FinalOutput in ws.files
    requires forall n | n in names :: JourneyFile(n) != FinalOutput
    modifies ws
    ensures r.None? <==> forall n | n in names :: JourneyFile(n) in old(ws.files)
    ensures r.None? ==> ws.files == old(ws.files)[FinalOutput :=
                          old(ws.files)[FinalOutput] + JourneyTexts(old(ws.files), names)]
    // On failure the files before the missing one stay appended.
    ensures r.Some? ==> && FirstMissing(old(ws.files), names) < |names|
                        && r.value == InputMissing(JourneyFile(names[FirstMissing(old(ws.files), names)]))
    ensures ws.files == old(ws.files)[FinalOutput := old(ws.files)[FinalOutput]
                          + JourneyTexts(old(ws.files), names[..FirstMissing(old(ws.files), names)])]
    ensures forall p | p != FinalOutput :: (p in ws.files <==> p in old(ws.files)) &&
                                           (p in ws.files ==> ws.files[p] == old(ws.files)[p])
    ensures ws.prompts == old(ws.prompts)
  {
    ghost var base := ws.files;
    ghost var head := base[FinalOutput];
    assert JourneyTexts(base, names[..0]) == "" by { assert names[..0] == []; }
    assert head + "" == head;
    r := None;
    for i := 0 to |names|
      invariant forall k | 0 <= k < i :: JourneyFile(names[k]) in base
      invariant ws.files == base[FinalOutput := head + JourneyTexts(base, names[..i])]
      invariant ws.prompts == old(ws.prompts)
      invariant r.None?
    {
      var input := JourneyFile(names[i]);
      assert input != FinalOutput by { assert names[i] in names; }
      r := AppendEntireFile(ws, input, FinalOutput);
      if r.Some? {
        assert names[i] in names && input !in base;
        FirstMissingIs(base, names, i);
        return;
      }
      AppendJourneyStep(base, head, names, i);
    }
    assert names[..|names|] == names;
    forall n | n in names
      ensures JourneyFile(n) in base
    {
      var k :| 0 <= k < |names| && names[k] == n;
    }
    FirstMissingIs(base, names, |names|);
  }

  /** Appending journey files after the introduction: the files are those
      journeys appended to the state before the introduction was. */
  lemma AppendAfterIntro(before: map<string, string>, head: string, names: seq<string>, after: map<string, string>)
    requires forall n | n in names :: JourneyFile(n) != FinalOutput
    requires var mid := before[FinalOutput := head];
             after == mid[FinalOutput := head + JourneyTexts(mid, names[..FirstMissing(mid, names)])]
    ensures FirstMissing(before[FinalOutput := head], names) == FirstMissing(before, names)
    ensures after == before[FinalOutput := head + JourneyTexts(before, names[..FirstMissing(before, names)])]
  {
    FinalOutputWriteFrame(before, head, names);
    var texts := JourneyTexts(before, names[..FirstMissing(before, names)]);
    WriteTwice(before, FinalOutput, head, head + texts);
  }

  /** Appending the next journey file to the final specification extends the
      appended texts by that file. */
  lemma AppendJourneyStep(base: map<string, string>, head: string, names: seq<string>, i: nat)
    requires i < |names| && JourneyFile(names[i]) != FinalOutput
    requires forall k | 0 <= k <= i :: JourneyFile(names[k]) in base
    ensures var files := base[FinalOutput := head + JourneyTexts(base, names[..i])];
            files[FinalOutput := files[FinalOutput] + files[JourneyFile(names[i])]]
            == base[FinalOutput := head + JourneyTexts(base, names[..i + 1])]
  {
    var files := base[FinalOutput := head + JourneyTexts(base, names[..i])];
    assert names[..i + 1][..i] == names[..i] && names[..i + 1][i] == names[i];
    assert files[JourneyFile(names[i])] == base[JourneyFile(names[i])];
    assert head + JourneyTexts(base, names[..i]) + base[JourneyFile(names[i])]
           == head + JourneyTexts(base, names[..i + 1]);
    WriteTwice(base, FinalOutput, head + JourneyTexts(base, names[..i]), head + JourneyTexts(base, names[..i + 1]));
  }

  /** A second write to the same file replaces the first. */
  lemma WriteTwice(files: map<string, string>, path: string, first: string, second: string)
    ensures files[path := first][path := second] == files[path := second]
  {
  }

  /** Sorting keeps which journey files are named: all of them exist, and
      none of them is the final specification, exactly when that holds of the
      unsorted names. */
  lemma SortNamesSameFiles(files: map<string, string>, names: seq<string>)
    ensures (forall n | n in Sort(names) :: JourneyFile(n) in files) <==> (forall n | n in names :: JourneyFile(n) in files)
    ensures (forall n | n in Sort(names) :: JourneyFile(n) != FinalOutput) <==> (forall n | n in names :: JourneyFile(n) != FinalOutput)
  {
  }

  /** The main block of `gen_fs.py`: append the introduction, then every file
      of `./user_journeys/` (their names given as `journeyNames`) in sorted
      order, to the final specification. A missing input stops the script;
      the appends already made remain. Only the final specification changes. */
  method AssembleFunctionalSpec(ws: Workspace, journeyNames: seq<string>) returns (r: Option<AppendError>)
    requires forall n | n in journeyNames :: JourneyFile(n) != FinalOutput
    modifies ws
    ensures r.None? <==> IntroFile in old(ws.files) && forall n | n in journeyNames :: JourneyFile(n) in old(ws.files)
    ensures r.None? ==> ws.files == old(ws.files)[FinalOutput :=
                          ContentsOr(old(ws.files), FinalOutput) + old(ws.files)[IntroFile]
                          + JourneyTexts(old(ws.files), Sort(journeyNames))]
    // A missing introduction raises before the output is opened.
    ensures IntroFile !in old(ws.files) ==> r == Some(InputMissing(IntroFile)) && ws.files == old(ws.files)
    // A missing journey file leaves the introduction and the journey files
    // sorted before it appended.
    ensures IntroFile in old(ws.files) ==>
              var sorted := Sort(journeyNames);
              var i := FirstMissing(old(ws.files), sorted);
              && ws.files == old(ws.files)[FinalOutput :=
                               ContentsOr(old(ws.files), FinalOutput) + old(ws.files)[IntroFile]
                               + JourneyTexts(old(ws.files), sorted[..i])]
              && (r.Some? ==> i < |sorted| && r.value == InputMissing(JourneyFile(sorted[i])))
    ensures forall p | p != FinalOutput :: (p in ws.files <==> p in old(ws.files)) &&
                                           (p in ws.files ==> ws.files[p] == old(ws.files)[p])
    ensures ws.prompts == old(ws.prompts)
  {
    ghost var before := ws.files;
    r := AppendEntireFile(ws, IntroFile, FinalOutput);
    if r.Some? {
      return;
    }
    ghost var head := ws.files[FinalOutput];
    ghost var mid := ws.files;
    assert mid == before[FinalOutput := head];
    var sorted := Sort(journeyNames);
    SortNamesSameFiles(before, journeyNames);
    r := AppendJourneyFiles(ws, sorted);
    AppendAfterIntro(before, head, sorted, ws.files);
    if r.None? {
      assert sorted[..FirstMissing(before, sorted)] == sorted;
    }
  }
}
