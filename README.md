# Documentation generators and the MoneyNote group service, modelled in Dafny

This project models two parts of one repository.

The first is a set of Python scripts that produce documentation with the help
of an AI command-line tool:

- `gen_next_prd.py` chooses the next PRD phase and appends status and design
  text to the PRD file.
- `gen_user_j.py` and `gen_user_journeys.py` find the user journeys listed
  under a "User Journeys" header and have the tool document each one.
- `gen_fs.py` cuts sections out of markdown and assembles the functional
  specification.
- `gen_docs.py` documents API endpoints from Java sources.
- `convert_taskmaster_to_md.py` renders the task-master task file as a
  markdown task list.

The second is part of the MoneyNote Java back end:

- the account-book group service `GroupService`, with its membership rows
  `UserGroupRelation`;
- the report filter `CategoryReportQueryForm`.

Each script or class is a Dafny module:

| module | models |
|---|---|
| `Common` | Option/Result, string prefix/suffix helpers, Python slicing, joining a list of chunks that may fail |
| `PyInt` | Python's `int()` on text and `str()` on integers |
| `Workspace` | the working directory's files and the AI tool, as a class; the tool's behaviour on each call is given in advance as an oracle |
| `NextPrd` | `gen_next_prd.py` |
| `UserJourneys` | `gen_user_j.py` and `gen_user_journeys.py` |
| `FunctionalSpec` | `gen_fs.py` |
| `JavaScan`, `ApiDocs` | the regular expressions of `gen_docs.py`, and the script itself |
| `TaskList` | `convert_taskmaster_to_md.py` |
| `GroupMembership` | `UserGroupRelation.java` and the table of such rows |
| `GroupService` | `GroupService.java`, as a class over the repositories' tables |
| `CategoryReport` | `CategoryReportQueryForm.java` and the QueryDSL `BooleanBuilder` it fills |

Loops in the source are methods with loop invariants. Each is proved equal to
a pure function, and the properties are lemmas about that function. File
writes go through the `Workspace` class or a write handle. Group-service
operations change the fields of a `GroupService` object. Each one either
fails and changes nothing (the service is transactional), or makes the
change stated in its contract and keeps the table invariants (`Valid`).

## Model

| member | source | states |
|---|---|---|
| PyInt.ParseInt | gen_next_prd.py:31 | definition of `int()` on text: optional surrounding white space, an optional sign, then digits with single underscores between them; anything else is `ValueError` (None). The lemmas below state its behaviour |
| PyInt.IntToString | gen_next_prd.py:52 | definition of `str()` on an integer: a "-" for negatives, then the decimal digits without leading zeros; `ParseIntToString` proves `int()` reads it back |
| PyInt.ParseIntToString | gen_next_prd.py:31 | `int()` applied to what `str()` writes for any integer gives that integer back |
| PyInt.ParseIntOfRun | gen_next_prd.py:31 | a bare run of digits, with single underscores allowed between digits, parses to its value |
| PyInt.ParseIntOfNegativeRun | gen_next_prd.py:31 | a minus sign followed by such a run parses to the negated value |
| PyInt.ParseIntLeadingZero | gen_next_prd.py:31 | leading zeros are accepted: "01" parses to 1 |
| PyInt.ParseIntSign | gen_next_prd.py:31 | a sign is accepted: "-1" parses to -1 |
| PyInt.ParseIntUnderscores | gen_next_prd.py:31 | "1_000" parses to 1000 |
| PyInt.ParseIntRejectsUnsigned | gen_next_prd.py:30-33 | unsigned text without surrounding white space that is not a digit run raises `ValueError`, so the name is skipped |
| PyInt.ParseIntRejectsDoubledUnderscore | gen_next_prd.py:30-33 | "1__0" is rejected |
| PyInt.ParseIntRejectsLetter | gen_next_prd.py:30-33 | "x1" is rejected |
| PyInt.ParseIntRejectsEmpty | gen_next_prd.py:30-33 | the empty middle of "prd_phase_.md" is rejected |
| NextPrd.PhaseOf | gen_next_prd.py:28-33 | a file name yields a phase only if it starts with "prd_phase_" and ends with ".md"; any other name yields none |
| NextPrd.PhaseNumbers | gen_next_prd.py:26-33 | definition: the parsed phase of each accepted directory entry, in listing order; `PhaseNumbersAppend` and `GetNextPhase` state it |
| NextPrd.PhaseNumbersAppend | gen_next_prd.py:27-33 | one more directory entry adds its parsed phase, if it has one, at the end of the list; a name that does not parse is skipped |
| NextPrd.Max | gen_next_prd.py:39 | the latest phase is one of the phases and no phase exceeds it |
| NextPrd.Missing | gen_next_prd.py:40-42 | exactly the numbers from 1 to the latest phase that are absent, in increasing order |
| NextPrd.MissingHeadIsLeast | gen_next_prd.py:42-46 | every number below the first missing one is present |
| NextPrd.NextPhaseOf | gen_next_prd.py:35-48 | definition: 1 for no phases, else the first missing number from 1 to the latest, else the latest plus one; `NextPhaseIsNew`, `NextPhaseIsLeastUnused` and the examples below state what it chooses |
| NextPrd.NextPhaseIsNew | gen_next_prd.py:35-48 | the chosen phase is never one that already exists |
| NextPrd.NextPhaseIsLeastUnused | gen_next_prd.py:35-48 | when every phase is positive, the result is the least positive integer not yet used |
| NextPrd.NextPhaseOfNonPositive | gen_next_prd.py:39-48 | when only non-positive phases exist, the "latest plus one" branch returns a value that is not positive (0 for [-1]) |
| NextPrd.NextPhaseOfEmpty | gen_next_prd.py:35-36 | no phases give phase 1 |
| NextPrd.NextPhaseFillsGap | gen_next_prd.py:45-46 | a gap is filled first: [1, 2, 4] gives 3 |
| NextPrd.NextPhaseAfterLatest | gen_next_prd.py:47-48 | without a gap the latest phase plus one is chosen, in any listing order: [3, 1, 2] gives 4 |
| NextPrd.GetNextPhase | gen_next_prd.py:21-48 | a missing directory gives 1; otherwise the loop's result is the next phase of the parsed numbers and is not among them |
| NextPrd.PhaseFileName | gen_next_prd.py:52 | definition: "prd_phase_" + `str(phase)` + ".md"; `PhaseOfFileName` proves the directory filter reads the phase back |
| NextPrd.PrdFilePath | gen_next_prd.py:52 | definition: that name under `<docs>/prds/`; `NextPhaseMovesOn` uses it |
| NextPrd.PhaseOfFileName | gen_next_prd.py:52 | the name built for a phase is accepted by the filter and parses back to that phase |
| NextPrd.NextPhaseMovesOn | gen_next_prd.py:28-52 | once the file for the chosen phase exists, the next call chooses a different phase |
| NextPrd.AppendStatusAndDesign | gen_next_prd.py:68-79 | the status text ("" when the status file is missing) and then the design text are appended to the PRD file, which is only appended to; a missing design file fails and changes nothing; no other file changes |
| Workspace.Workspace.RunGeminiPrompt | gen_user_j.py:5-20 | the result is the tool's exit status, not whether the file was written; the prompt is logged; the only file that can change is the one the prompt names |
| Workspace.Workspace.Append | gen_fs.py:57-59 | a handle opened with mode 'a' adds the text after the old contents, creating the file when it is missing |
| Workspace.Workspace.Overwrite | convert_taskmaster_to_md.py:8 | a handle opened with mode 'w' replaces the contents |
| Workspace.Runs | gen_user_j.py:139-142 | definition: the same prompt sent n times in a row |
| Workspace.RunsAt | gen_user_j.py:139-142 | every one of the n runs sends that prompt |
| Workspace.RunStep | gen_user_j.py:5-20 | definition: one run of the tool writes the file its prompt names when the oracle says it writes, and otherwise changes nothing; `RunGeminiPrompt` ensures its files are this |
| Workspace.ApplyRuns | gen_user_journeys.py:49-88 | definition: the files after a sequence of runs, replayed in order from a given oracle position; the three lemmas below state what it does |
| Workspace.ApplyRunsConcat | gen_user_journeys.py:49-88 | replaying two batches of runs in turn is the same as replaying them together |
| Workspace.ApplyRunsFrame | gen_user_j.py:5-20 | a sequence of runs deletes no file, and every file it creates or changes is named by one of its prompts |
| Workspace.ApplyRunsWrites | gen_user_j.py:5-20 | a file named by a run that writes, and by no later run, holds that run's output afterwards |
| UserJourneys.ScanFrom | gen_user_j.py:33-47 | the scan collects no more names than there are headers, never collects "User Journeys" itself, and every name it collects is some header's text |
| UserJourneys.ScanJourneys | gen_user_j.py:33-47 | the flag-and-level loop, with its `continue` and `break`, computes exactly `JourneyNames` |
| UserJourneys.JourneyNames | gen_user_j.py:33-47 | definition: the names the scan collects; `ScanJourneys` proves the loop computes it, and the lemmas below state its shape |
| UserJourneys.ScanSkipsPreamble | gen_user_j.py:36-42 | headers before the first one titled exactly "User Journeys" contribute nothing and cannot end the scan |
| UserJourneys.ScanCollectsChildren | gen_user_j.py:42-47 | inside the section the scan collects exactly the headers one level deeper, skips deeper ones, and stops at the first header at the section's level or above |
| UserJourneys.JourneyNamesAreDirectChildren | gen_user_journeys.py:34-45 | for a document with one "User Journeys" section, the journeys are its direct children in document order, and later headers contribute nothing |
| UserJourneys.NoSectionNoJourneys | gen_user_j.py:37 | without a header titled exactly "User Journeys" nothing is collected |
| UserJourneys.NestedSectionReanchors | gen_user_j.py:37-40 | a nested header titled "User Journeys" re-anchors the start level at its own level |
| UserJourneys.AdjacentSectionsMerge | gen_user_j.py:37-47 | a second "User Journeys" header at the same level re-anchors the scan before the level test can end it |
| UserJourneys.SeparatedSectionIgnored | gen_user_j.py:45-47 | the scan stops at the first later header at the section's level or above, so a later section with the same title contributes nothing |
| UserJourneys.DiscoverJourneys | gen_user_j.py:30-47 | the script fails exactly when no header text contains "User Journeys" |
| UserJourneys.OverviewHeaderYieldsNoJourneys | gen_user_j.py:30-37 | the containment test passes on "User Journeys Overview" but the equality test never starts the section, so the result is an empty list and not an error |
| UserJourneys.Slug | gen_user_j.py:54 | every space, and only a space, becomes "_" |
| UserJourneys.JourneyPath | gen_user_j.py:54 | definition: `<cwd>/user_journeys/<slug>.md`; `JourneyPathExample` and `SlugCollision` state what it gives |
| UserJourneys.IntroPath | gen_user_j.py:148 | definition: `<cwd>/functional_specs_introduction.md` |
| UserJourneys.SlugHasNoSpace | gen_user_j.py:54 | a slug has no space, and a name without spaces is its own slug |
| UserJourneys.SlugCollision | gen_user_j.py:54 | two different journey names ("Pay Bill", "Pay_Bill") map to the same file |
| UserJourneys.JourneyPathExample | gen_user_j.py:54 | the journey "Journey A" is written to `<cwd>/user_journeys/Journey_A.md` |
| UserJourneys.PollCalls | gen_user_j.py:139-142 | definition: no run when the file exists; otherwise runs up to and including the first that writes it, or until the oracle is used up; `GenerateUntilExists` runs exactly this many times, and `PollCallsExamples` gives cases |
| UserJourneys.PollCallsExamples | gen_user_j.py:139-142 | a tool that writes the file on its third run is run exactly three times; a file that already exists causes no run |
| UserJourneys.GenerateUntilExists | gen_user_j.py:139-142 | no call when the file already exists; otherwise the same prompt is sent until a run writes the file (the loop exits only then, or when the oracle is used up); the number of calls is `PollCalls`; exit statuses are ignored; the files are the old ones, or the old ones with the one written file; only that file can change and none is deleted |
| UserJourneys.PollStep | gen_user_j.py:139-142 | one run while the file is missing either changes nothing, being before the first writing outcome, or is that outcome and writes the file |
| UserJourneys.PollingPrompt | gen_user_j.py:54-138 | the prompt for a journey asks for the same file the loop waits for |
| UserJourneys.PollingRuns | gen_user_j.py:53-142 | definition: the prompts the polling loop sends, each journey's prompt repeated as often as it was sent, journey by journey in collected order |
| UserJourneys.PollingRunsMember | gen_user_j.py:53-142 | every prompt the polling loop sends is the polling prompt of one of the journeys |
| UserJourneys.PollingRunsStep | gen_user_j.py:53-142 | polling one more journey appends its runs after those of the journeys before it |
| UserJourneys.PolledFrameStep | gen_user_j.py:53-142 | after the j-th journey is polled, every file created or changed since the start is one of the first j + 1 journeys' files, and none was deleted |
| UserJourneys.PolledPresentStep | gen_user_j.py:53-142 | once the j-th journey's file exists, the files of all journeys before it still exist |
| UserJourneys.PollJourneys | gen_user_j.py:53-142 | the prompts sent are `PollingRuns` of the journeys (each polled in collected order, with ghost run counts); no file is deleted; only journeys' files are created or changed; unless the oracle ran out every journey's file exists |
| UserJourneys.DocumentJourneysUntilWritten | gen_user_j.py:30-168 | fails exactly as `DiscoverJourneys` does, and then changes nothing; otherwise the prompts sent are, in order, each journey's polling prompt as many times as it was sent (ghost counts `runs`), in collected order, then the introduction's prompt `introRuns` times; no file disappears; every file created or changed is a collected journey's `JourneyPath` or `IntroPath`; unless the oracle ran out every journey file and the introduction exist afterwards |
| UserJourneys.DocumentJourneysOnce | gen_user_journeys.py:28-88 | fails exactly as `DiscoverJourneys` does, and then changes nothing; otherwise exactly one tool run per journey in collected order (`OncePrompts`), with no existence check and no retry, then exactly one run for the introduction; the files are the replay of those runs (`ApplyRuns`), and `OnceRunsWrote` holds of them |
| UserJourneys.OncePrompts | gen_user_journeys.py:49-69 | definition: one journey prompt per name, in order, each asking for `{name}.md` |
| UserJourneys.OncePromptsAt | gen_user_journeys.py:49-69 | the i-th prompt asks for the i-th journey |
| UserJourneys.RunOncePrompts | gen_user_journeys.py:49-69 | the loop sends exactly `OncePrompts` of the names, and the files are their replay |
| UserJourneys.OncePromptsStep | gen_user_journeys.py:49-69 | one more journey appends one prompt and one replayed run |
| UserJourneys.OnceRunsWrote | gen_user_journeys.py:49-88 | definition: no file deleted; only `{name}.md` of a collected name and `functional_specs_introduction.md` created or changed; the introduction holds the output of its run when that run writes; a journey's file holds the output of its own run when that run writes and no later journey or the introduction names the same file |
| UserJourneys.OnceRunsFiles | gen_user_journeys.py:49-88 | the replay of the journey runs and then the introduction run satisfies `OnceRunsWrote` |
| UserJourneys.OnceRunsFrame | gen_user_journeys.py:49-88 | those runs delete nothing and create or change only the journeys' files and the introduction |
| UserJourneys.OnceRunsJourneyWrite | gen_user_journeys.py:49-69 | a journey whose name does not come again, and whose file is not the introduction's, keeps the output of its own run |
| FunctionalSpec.FirstTitled | gen_fs.py:19 | the first header whose text equals the title; none when no header has that text |
| FunctionalSpec.FirstEndAfter | gen_fs.py:20 | the first header in list order at the start's level with a later line; a shallower header does not qualify |
| FunctionalSpec.SectionHeading | gen_fs.py:23 | definition: `new_level` "#" characters, a space, the title, " \n"; `GetSection` proves every section starts with it |
| FunctionalSpec.GetSection | gen_fs.py:19-26 | fails exactly when the title is absent (an error naming it) or no later header has the same level; a section starts with its new heading |
| Common.PySlice | gen_fs.py:22 | Python's `s[i:j]`: the ordinary slice for in-range bounds, empty when the normalised stop is not after the normalised start, and otherwise the slice between the normalised bounds |
| FunctionalSpec.SectionBody | gen_fs.py:22-26 | with in-range lines, the section is the new heading and the lines after its header up to two before the ending header |
| FunctionalSpec.ShortSectionIsHeadingOnly | gen_fs.py:22 | when the ending header is at most two lines later, the slice is empty (its stop is not after its start) and only the heading remains |
| FunctionalSpec.EnsureNewline | gen_fs.py:45-46 | the chunk ends in "\n", and "\n" is added only when it was missing |
| FunctionalSpec.EnsureNewlineIdempotent | gen_fs.py:45-46 | adding the final newline twice is the same as adding it once |
| FunctionalSpec.Chunk | gen_fs.py:44-46 | one request's chunk fails exactly when its section does, and otherwise ends in "\n" |
| FunctionalSpec.SectionsText | gen_fs.py:42-49 | definition: the chunks of the requests joined in order, or the first failing request's error; `SectionsTextFails`, `SectionsTextEndsLine` and `SectionsTextAppend` state it |
| FunctionalSpec.SectionsTextFails | gen_fs.py:42-49 | the extraction fails exactly when one requested section cannot be cut out |
| FunctionalSpec.SectionsTextEndsLine | gen_fs.py:42-49 | a successful extraction of at least one section ends with "\n" |
| FunctionalSpec.SectionsTextAppend | gen_fs.py:42-49 | extracting two request lists in turn gives the two extractions joined, in the order requested |
| FunctionalSpec.GetSectionsFromFile | gen_fs.py:42-49 | the loop computes exactly `SectionsText`, stopping at the first failing section |
| FunctionalSpec.AppendEntireFile | gen_fs.py:52-61 | a missing input fails and changes nothing; otherwise the output becomes its old contents (or nothing) followed by the whole input, and nothing else changes |
| FunctionalSpec.Sort | gen_fs.py:95 | `sorted(names)` is ordered by Python's string order and is a permutation of the names |
| FunctionalSpec.LexLe | gen_fs.py:95 | definition of Python's string order used by `sorted`: by code point, a proper prefix first; `LexLeTotal` and `LexLeTransitive` prove it a total order, and `Sort` sorts by it |
| FunctionalSpec.LexLeTotal | gen_fs.py:95 | any two names are comparable |
| FunctionalSpec.LexLeTransitive | gen_fs.py:95 | the string order is transitive |
| FunctionalSpec.FirstMissing | gen_fs.py:95-99 | the position of the first journey whose file is missing, or the number of journeys: every file before it exists, and the one at it does not |
| FunctionalSpec.FirstMissingIs | gen_fs.py:95-99 | those two properties determine the position |
| FunctionalSpec.AppendJourneyStep | gen_fs.py:95-99 | appending the next journey file extends the appended texts by exactly that file |
| FunctionalSpec.AppendJourneyFiles | gen_fs.py:95-99 | succeeds exactly when every journey file exists, and then the final specification gains each file's text in the order given; on failure it reports the first missing file, and the files before it stay appended; no other file changes |
| FunctionalSpec.AppendAfterIntro | gen_fs.py:63-99 | appending journeys after the introduction is the same as appending them to the files before it: the introduction's write does not change which journey is missing first |
| FunctionalSpec.AssembleFunctionalSpec | gen_fs.py:63-99 | a missing introduction raises before the output is opened and changes nothing; otherwise the final specification gains the introduction and then the journey files in sorted order up to the first missing one, which is the error reported; it succeeds exactly when every input exists; only the final specification changes |
| JavaScan.Search | gen_docs.py:23 | `re.search` finds the leftmost position from which the pattern matches, and none when it matches nowhere |
| JavaScan.FieldAt | gen_docs.py:23 | a field match has "private", white space, a `[\w.<>]+` type, white space, a `\w+` name and ";" |
| JavaScan.FieldAtComplete | gen_docs.py:23 | every split of the text that the field pattern admits is the one the scanner finds, because each greedy run ends where its character class ends |
| JavaScan.SearchField | gen_docs.py:23 | a line has a field declaration exactly when the pattern matches at some position |
| JavaScan.RequestBodyAt | gen_docs.py:73 | a request-body match starts with "@RequestBody" and captures a non-empty word |
| JavaScan.PublicTypeAt | gen_docs.py:98 | a return-type match starts with "public" and captures a non-empty `[\w.<>]+` type |
| JavaScan.BaseResponseAt | gen_docs.py:89 | a `new BaseResponse(...)` match starts with "new" |
| JavaScan.PathVarClose | gen_docs.py:79 | where the lazy group stops there is a `")` followed by white space and a word, and the group never spans a line break |
| JavaScan.PathVarAt | gen_docs.py:79 | a path-variable match captures a name with no line break and a non-empty word type, and ends after its start |
| JavaScan.FindPathVars | gen_docs.py:79 | every type `re.findall` returns is a non-empty word |
| ApiDocs.DeclaringLines | gen_docs.py:21-24 | exactly the lines with a field declaration, in increasing order |
| ApiDocs.FieldsAreDeclaringLines | gen_docs.py:21-36 | one field per declaring line, in line order |
| ApiDocs.ClassFieldOfLine | gen_docs.py:23-36 | the j-th field has the j-th declaring line's type and name and an empty description, and is "Mandatory" exactly when "@NotNull" appears in one of the three lines above |
| ApiDocs.ClassFields | gen_docs.py:13-37 | definition: one field per line that declares one, with the "@NotNull" window; `ClassFieldsOfLines` states it |
| ApiDocs.FieldsOfLines | gen_docs.py:21-36 | definition: the fields are exactly the file's declaring lines in order, each with that line's type and name, an empty description and the optionality of its "@NotNull" window |
| ApiDocs.ClassFieldsOfLines | gen_docs.py:13-37 | `analyze_java_class` returns exactly the fields `FieldsOfLines` describes |
| ApiDocs.NotNullWindowExample | gen_docs.py:29 | an annotation four lines up does not count, one three lines up does |
| ApiDocs.AnalyzeJavaClass | gen_docs.py:13-37 | no class file gives no fields; otherwise the loop computes exactly `ClassFields` |
| ApiDocs.ParamsTable | gen_docs.py:39-50 | no parameters give "" and nothing else does; a table starts with its title line, the header row and the rule |
| ApiDocs.Row | gen_docs.py:49 | definition: one table row, "| name | type | description | optionality |" and a newline; `TableLines` counts them |
| ApiDocs.FormatParamsToMarkdown | gen_docs.py:39-50 | the loop builds exactly `ParamsTable` |
| ApiDocs.TableLines | gen_docs.py:44-50 | a table of n single-line parameters has n + 4 lines |
| ApiDocs.Split | gen_docs.py:55 | `split(":")` gives at least one piece, and no piece contains the separator |
| ApiDocs.JoinSplit | gen_docs.py:55 | joining the pieces with the separator gives the text back |
| ApiDocs.SplitPieces | gen_docs.py:55 | there is one more piece than separators |
| ApiDocs.ParseLocation | gen_docs.py:55-56 | succeeds only with exactly one ':' and an integer after it, giving the path and that integer |
| ApiDocs.JoinPath | gen_docs.py:58 | `os.path.join` keeps an absolute path as is and always ends with the path |
| ApiDocs.PyIndex | gen_docs.py:66-67 | `lines[k]` with Python's negative indices, and an `IndexError` exactly when k is out of range |
| ApiDocs.PathVarParams | gen_docs.py:79-86 | one mandatory "Path Parameter" per match, named and typed after it, in order |
| ApiDocs.EndpointParams | gen_docs.py:63-110 | an `IndexError` exactly when `line_number - 1` is below `-len(lines)`; for a cited line inside the file the request parameters come from the line after it (the signature); past the end of the file both lists are empty |
| ApiDocs.EndpointHeading | gen_docs.py:114-116 | definition: the "## Endpoint:" line with method and path, then the description and source lines; `HeadingFirst` and `EndpointDocShape` state where it stands |
| ApiDocs.HeadingFirst | gen_docs.py:114-118 | an endpoint block opens with its method and path whatever its tables are |
| ApiDocs.EndpointDocShape | gen_docs.py:114-120 | a block opens with the method and path and ends with the request table followed by the response table |
| ApiDocs.EndpointNeedsOneColon | gen_docs.py:55 | a location without exactly one ':' makes the analysis fail |
| ApiDocs.EndpointDoc | gen_docs.py:52-120 | definition of `analyze_endpoint`: the heading, then the request table, then the response table, or the first failure; `EndpointDocShape` and `EndpointNeedsOneColon` state it |
| ApiDocs.RequestBodyParamsOf | gen_docs.py:73-77 | the branch computes exactly `RequestBodyParams`, which `RequestBodyParamsOfClass` and `RequestBodyParamsEmpty` describe |
| ApiDocs.RequestBodyParamsOfClass | gen_docs.py:73-77 | no "@RequestBody <Class>" match, or a class without a file, gives no parameter; otherwise the parameters are exactly the fields that class's file declares (`FieldsOfLines`) |
| ApiDocs.RequestBodyParamsEmpty | gen_docs.py:73-77 | there is no request-body parameter exactly when there is no match, the class has no file, or its file declares no field |
| ApiDocs.AppendPathVarParams | gen_docs.py:80-86 | the loop appends each match, in order, as a path parameter |
| ApiDocs.RequestParams | gen_docs.py:73-86 | definition: the request-body parameters, then one per path variable; `RequestBodyParamsOfClass` and `PathVarParams` state each part |
| ApiDocs.ResponseParams | gen_docs.py:88-110 | definition of the response branches; `ResponseParamsOfType` states every branch |
| ApiDocs.RequestParamsOf | gen_docs.py:73-86 | computes exactly `RequestParams`: the request-body fields, then the path variables |
| ApiDocs.ResponseParamsOf | gen_docs.py:89-110 | the branches compute exactly `ResponseParams`, which `ResponseParamsOfType` describes |
| ApiDocs.ResponseParamsOfType | gen_docs.py:89-110 | a `new BaseResponse(...)` in the cited line and the signature gives exactly the success flag; otherwise no `public <type>` gives nothing, the type `BaseResponse` gives the success flag, a type without a file gives nothing, and any other type gives exactly the fields its file declares |
| ApiDocs.HasBaseResponseMeans | gen_docs.py:89 | the search succeeds exactly when the pattern matches at some position of the text |
| ApiDocs.EndpointParamsOf | gen_docs.py:63-110 | the branches compute exactly `EndpointParams` |
| ApiDocs.AnalyzeEndpoint | gen_docs.py:52-120 | computes exactly `EndpointDoc`, whose shape and failures `EndpointDocShape` and `EndpointNeedsOneColon` state |
| ApiDocs.Docs | gen_docs.py:130-132 | one analysis per endpoint, the i-th being the i-th endpoint's |
| ApiDocs.WithSeparators | gen_docs.py:132-133 | each successful block is followed by the separator and failures are kept |
| ApiDocs.AllDocs | gen_docs.py:129-133 | definition: the blocks with their separators joined in endpoint order, or the first failure; `AllDocsFails` and `AllDocsAppend` state it |
| ApiDocs.AllDocsFails | gen_docs.py:129-133 | the document fails exactly when one endpoint's analysis fails, and a successful one ends with the separator |
| ApiDocs.AllDocsAppend | gen_docs.py:129-133 | documenting two lists in turn gives the two documents joined, so blocks keep the endpoints' order |
| ApiDocs.DocumentEndpoints | gen_docs.py:129-133 | the loop computes exactly `AllDocs` |
| ApiDocs.GenerateApiDocs | gen_docs.py:122-136 | on success the output file holds the whole document and nothing else changes; a failing endpoint stops the script before the output is opened |
| TaskList.TaskListOf | convert_taskmaster_to_md.py:7 | succeeds exactly when both the "master" and the "tasks" keys exist, giving that list; otherwise the `KeyError` names the missing key |
| TaskList.TaskBlock | convert_taskmaster_to_md.py:10-19 | definition: a task's introduction, then its subtasks' blocks; `TaskBlockShape` states it |
| TaskList.TaskListText | convert_taskmaster_to_md.py:9-19 | definition: the tasks' blocks joined in list order; `TaskListTextAppend` and `TaskBlockInOrder` state it |
| TaskList.TaskListTextAppend | convert_taskmaster_to_md.py:9 | rendering two task lists in turn gives the two renderings joined |
| TaskList.TaskBlockInOrder | convert_taskmaster_to_md.py:9-19 | the i-th task's block sits between the blocks of the tasks before and after it |
| TaskList.SubtaskBlockInOrder | convert_taskmaster_to_md.py:15-19 | the j-th subtask's block sits between the blocks of the subtasks before and after it |
| TaskList.TaskBlockShape | convert_taskmaster_to_md.py:10-19 | a task block starts with "## id. title", its introduction ends with the "### Subtasks" heading, and the rest of the block is the subtasks' blocks |
| TaskList.NoSubtasksStillHeaded | convert_taskmaster_to_md.py:14-15 | a task without subtasks still gets the "### Subtasks" heading |
| TaskList.SubtaskHeadingNamesTask | convert_taskmaster_to_md.py:16 | a subtask heading starts with "#### taskId.subtaskId " |
| TaskList.OutputFile.Write | convert_taskmaster_to_md.py:10-19 | a write to a handle opened with mode 'w' adds the text after what was written before |
| TaskList.WriteTaskIntro | convert_taskmaster_to_md.py:10-14 | the five writes leave exactly the task's introduction after what was there |
| TaskList.WriteSubtask | convert_taskmaster_to_md.py:16-19 | the four writes leave exactly the subtask's block after what was there |
| TaskList.WriteTask | convert_taskmaster_to_md.py:10-19 | the writes for one task leave its introduction and then its subtasks' blocks in list order |
| TaskList.WriteTasks | convert_taskmaster_to_md.py:8-19 | the writes to a fresh file produce exactly `TaskListText` of the tasks, whose order `TaskBlockInOrder` states |
| TaskList.ConvertTaskList | convert_taskmaster_to_md.py:7-19 | a missing key fails before the output is opened and changes nothing; otherwise `./task_list.md` is overwritten with the rendering and nothing else changes |
| GroupMembership.Role.Code | moneynote-api/src/main/java/cn/biq/mn/user/UserGroupRelation.java:28-30 | each role is stored as a code from 1 to 4 that decodes back to it |
| GroupMembership.RoleOfCode | moneynote-api/src/main/java/cn/biq/mn/user/UserGroupRelation.java:28-30 | only the codes 1 to 4 denote a role |
| GroupMembership.RoleDetermined | moneynote-api/src/main/java/cn/biq/mn/user/UserGroupRelation.java:13 | under the unique (user, group) constraint a user has at most one role in a group |
| GroupMembership.RoleOfRow | moneynote-api/src/main/java/cn/biq/mn/user/UserGroupRelation.java:13 | a user has a role in a group exactly when they have a row there and every role they have there is that one |
| GroupMembership.SubTableKeeps | moneynote-api/src/main/java/cn/biq/mn/user/UserGroupRelation.java:13 | deleting rows keeps the unique constraint and the single owner |
| GroupMembership.WithoutGroup | moneynote-api/src/main/java/cn/biq/mn/group/GroupService.java:171 | `deleteByGroup` keeps exactly the rows of other groups, unchanged |
| GroupMembership.WithoutPair | moneynote-api/src/main/java/cn/biq/mn/group/GroupService.java:209 | deleting a member's row keeps exactly the other rows, unchanged |
| GroupMembership.WithRole | moneynote-api/src/main/java/cn/biq/mn/group/GroupService.java:219 | `setRole` changes the role of that member's row only; the ids stay the same |
| GroupMembership.WithRoleKeeps | moneynote-api/src/main/java/cn/biq/mn/group/GroupService.java:219 | changing a row that is not an owner row to a role that is not owner keeps both constraints |
| GroupMembership.InsertKeeps | moneynote-api/src/main/java/cn/biq/mn/user/UserGroupRelation.java:13 | a new row for a pair without one keeps the unique constraint; an owner row also needs a group without an owner |
| GroupMembership.OwnedGroups | moneynote-api/src/main/java/cn/biq/mn/group/GroupService.java:156 | definition of `findByUserAndRole(u, 1)`: the groups u owns, in row-id order; `OwnedGroupsListed`, `OwnedWithoutGroup` and `RemoveOwnedGroup` state it, and `remove` and `removeUser` use its size and first element |
| GroupMembership.OwnedGroupsListed | moneynote-api/src/main/java/cn/biq/mn/group/GroupService.java:156 | a group is listed by `findByUserAndRole(u, 1)` exactly when u has an owner row for it |
| GroupMembership.OwnedWithoutGroup | moneynote-api/src/main/java/cn/biq/mn/group/GroupService.java:171 | deleting a group's rows lowers a user's number of owned groups by one when they own it, and otherwise not at all |
| GroupMembership.OwnedOutsideGroup | moneynote-api/src/main/java/cn/biq/mn/group/GroupService.java:171 | a user who does not own the deleted group keeps their owned groups, in the same order |
| GroupMembership.RemoveOwnedGroup | moneynote-api/src/main/java/cn/biq/mn/group/GroupService.java:156-172 | after the size check, deleting the group leaves its owner at least one owned group, leaves everyone else's owned groups unchanged, and keeps both constraints |
| GroupMembership.OwnedKeptBy | moneynote-api/src/main/java/cn/biq/mn/group/GroupService.java:209-219 | deleting or re-roling rows that are not owner rows changes no one's owned groups |
| GroupMembership.MemberRows | moneynote-api/src/main/java/cn/biq/mn/group/GroupService.java:238-240 | every listed row belongs to the group |
| GroupMembership.MemberRowsComplete | moneynote-api/src/main/java/cn/biq/mn/group/GroupService.java:238-240 | every row of the group (every row id is below the id counter) is listed |
| GroupMembership.MemberRowsIncreasing | moneynote-api/src/main/java/cn/biq/mn/group/GroupService.java:238-240 | rows are listed in id order, each once |
| GroupService.CountCreated | moneynote-api/src/main/java/cn/biq/mn/group/GroupService.java:74 | definition of `countByCreator(u)`: the number of groups u created; `AddRefusal` compares it with the limit |
| GroupService.BooksOf | moneynote-api/src/main/java/cn/biq/mn/group/GroupService.java:161 | `findAllByGroup(g)`: exactly the books whose group is g |
| GroupService.WithoutBooks | moneynote-api/src/main/java/cn/biq/mn/group/GroupService.java:165-168 | `deleteByBook` for a set of books: exactly the rows of other books remain, unchanged; `WithoutOneMoreBook` shows deleting one book at a time adds up |
| GroupService.GroupService.BookInGroup | moneynote-api/src/main/java/cn/biq/mn/group/GroupService.java:136 | definition of `getBookInGroup`: an existing book of the group the signed-in user works in; `UpdateRefusal` checks it |
| GroupService.FindTemplate | moneynote-api/src/main/java/cn/biq/mn/group/GroupService.java:86-89 | the first template with the id, and none exactly when no template has it |
| GroupService.FindByUsername | moneynote-api/src/main/java/cn/biq/mn/group/GroupService.java:177 | a user with that username, and none exactly when no user has it |
| GroupService.Consistent | moneynote-api/src/main/java/cn/biq/mn/user/UserGroupRelation.java:13-30 | definition of the table invariant: one row per (user, group) pair, at most one owner row per group, rows naming existing users and groups, ids below the id counter, and an existing signed-in user; the `...KeepsConsistent` lemmas prove each change keeps it |
| GroupService.GroupService.Valid | moneynote-api/src/main/java/cn/biq/mn/user/UserGroupRelation.java:13-30 | definition: the service's tables are `Consistent`; every operation requires and ensures it |
| GroupService.GroupService.AddRefusal | moneynote-api/src/main/java/cn/biq/mn/group/GroupService.java:74-101 | definition: the checks of `add` in source order (group count, currency, template); `Add` fails with it and changes nothing |
| GroupService.GroupService.UpdateRefusal | moneynote-api/src/main/java/cn/biq/mn/group/GroupService.java:130-139 | definition: the checks of `update` in source order; `Update` fails with it and changes nothing |
| GroupService.GroupService.RemoveRefusal | moneynote-api/src/main/java/cn/biq/mn/group/GroupService.java:150-165 | definition: the checks of `remove` in source order; `Remove` fails with it and changes nothing |
| GroupService.GroupService.InviteRefusal | moneynote-api/src/main/java/cn/biq/mn/group/GroupService.java:177-183 | definition: the checks of `inviteUser` in source order; `InviteUser` fails with it and changes nothing |
| GroupService.GroupService.RemoveUserRefusal | moneynote-api/src/main/java/cn/biq/mn/group/GroupService.java:190-203 | definition: the checks of `removeUser` in source order, including `get(0)` on an empty owner list; `RemoveUser` fails with it and changes nothing |
| GroupService.GroupService.InviteeRefusal | moneynote-api/src/main/java/cn/biq/mn/group/GroupService.java:214-228 | definition: the checks shared by `agreeInvite` and `rejectInvite` (missing group, no pending invitation); both fail with it and change nothing |
| GroupService.AddKeepsConsistent | moneynote-api/src/main/java/cn/biq/mn/group/GroupService.java:83-98 | a new group, its book and its owner row under new ids keep the tables consistent |
| GroupService.RemoveKeepsConsistent | moneynote-api/src/main/java/cn/biq/mn/group/GroupService.java:161-172 | deleting a group, books and the group's rows keeps the tables consistent |
| GroupService.InviteKeepsConsistent | moneynote-api/src/main/java/cn/biq/mn/group/GroupService.java:180-185 | an invited row for a pair without a row keeps the tables consistent |
| GroupService.DropRowKeepsConsistent | moneynote-api/src/main/java/cn/biq/mn/group/GroupService.java:204-209 | deleting one member row and editing users in place keeps the tables consistent |
| GroupService.AgreeKeepsConsistent | moneynote-api/src/main/java/cn/biq/mn/group/GroupService.java:218-220 | turning a row that is not an owner row into a maintainer row keeps the tables consistent |
| GroupService.GroupService.CheckRole | moneynote-api/src/main/java/cn/biq/mn/group/GroupService.java:105-115 | passes exactly when the signed-in user's row in the group has role 1 (owner); otherwise "group.update.auth.error" |
| GroupService.GroupService.CheckInvite | moneynote-api/src/main/java/cn/biq/mn/group/GroupService.java:117-127 | passes exactly when the signed-in user's row in the group has role 4 (invited); otherwise "group.update.auth.error" |
| GroupService.GroupService.Add | moneynote-api/src/main/java/cn/biq/mn/group/GroupService.java:72-103 | fails, changing nothing, with "group.max.count", then an unknown currency, then a missing template, in that order; otherwise adds the group with the user as creator, an enabled book named after the first matching template as its default book, and an owner row, all under new ids; the tables stay consistent |
| GroupService.GroupService.Update | moneynote-api/src/main/java/cn/biq/mn/group/GroupService.java:129-147 | fails, changing nothing, on an unknown currency, a missing group, a caller who is not the owner, a book outside the current group, or a disabled book, in that order; otherwise only that group's name, notes, currency and default book change |
| GroupService.GroupService.DeleteBooks | moneynote-api/src/main/java/cn/biq/mn/group/GroupService.java:161-170 | fails with "group.delete.has.flow" exactly when some book of the group has a flow, changing nothing; otherwise the group's books and their categories, payees and tags are deleted |
| GroupService.GroupService.Remove | moneynote-api/src/main/java/cn/biq/mn/group/GroupService.java:149-174 | fails, changing nothing, on a missing group, a caller who is not the owner, the current group, an owner of at most one group, or a book with flows, in that order; it succeeds exactly when none of these holds, and then deletes the books and their rows, the group's member rows and the group; the caller still owns at least one group, no one else loses one, and the tables stay consistent |
| GroupService.GroupService.InviteUser | moneynote-api/src/main/java/cn/biq/mn/group/GroupService.java:176-187 | fails, changing nothing, on an unknown username, a missing group, a caller who is not the owner, or an invitee who already has a row there; otherwise adds exactly one invited row under a new id |
| GroupService.GroupService.FirstOwnedGroup | moneynote-api/src/main/java/cn/biq/mn/group/GroupService.java:202-203 | `relations.get(0).getGroup()` is an existing group that the user owns |
| GroupService.GroupService.MoveDefault | moneynote-api/src/main/java/cn/biq/mn/group/GroupService.java:200-208 | a user whose default group is the one they leave gets their first owned group and its default book; any other user is untouched |
| GroupService.GroupService.RemoveUser | moneynote-api/src/main/java/cn/biq/mn/group/GroupService.java:189-211 | fails, changing nothing, on a missing group, a caller who is not the owner, a missing user, a user without a row, the owner's own row, or a user who owns no group when the group is their default (`get(0)` on an empty list); otherwise deletes exactly that row, and a user whose default group it was gets a different group that they own as their new default |
| GroupService.GroupService.AgreeInvite | moneynote-api/src/main/java/cn/biq/mn/group/GroupService.java:213-222 | fails, changing nothing, on a missing group or a caller without a pending invitation; otherwise that row's role becomes 2 (maintainer) and nothing else changes |
| GroupService.GroupService.RejectInvite | moneynote-api/src/main/java/cn/biq/mn/group/GroupService.java:224-232 | fails, changing nothing, on a missing group or a caller without a pending invitation; otherwise exactly that row is deleted |
| GroupService.GroupService.GetUsers | moneynote-api/src/main/java/cn/biq/mn/group/GroupService.java:234-253 | fails on a missing group or a caller who is not the owner; otherwise one entry per row of the group, in id order, with the member's id, username, nickname and role code |
| CategoryReport.BooleanBuilder.AndAlso | moneynote-api/src/main/java/cn/biq/mn/report/CategoryReportQueryForm.java:33 | after `and(c)` the builder accepts exactly what it accepted before that also satisfies c |
| CategoryReport.BooleanBuilder.OrElse | moneynote-api/src/main/java/cn/biq/mn/report/CategoryReportQueryForm.java:49 | after `or(c)` the builder accepts what it accepted before or what satisfies c |
| CategoryReport.AccountCondition | moneynote-api/src/main/java/cn/biq/mn/report/CategoryReportQueryForm.java:46-50 | the account filter holds exactly for a flow whose account or to-account is the given one |
| CategoryReport.FilterCondition | moneynote-api/src/main/java/cn/biq/mn/report/CategoryReportQueryForm.java:30-56 | an unset filter adds nothing; a set filter's condition holds exactly when the filter does (inclusive time bounds, title substring, payee in the set, some category or tag in the set) |
| CategoryReport.Matches | moneynote-api/src/main/java/cn/biq/mn/report/CategoryReportQueryForm.java:29-57 | definition: every filter that is set holds of the flow; `BuildPredicate` proves the builder accepts exactly these flows |
| CategoryReport.CategoryMatches | moneynote-api/src/main/java/cn/biq/mn/report/CategoryReportQueryForm.java:59-67 | definition: a confirmed, included flow of the book that `Matches`; `BuildCategoryPredicate` states it |
| CategoryReport.TagMatches | moneynote-api/src/main/java/cn/biq/mn/report/CategoryReportQueryForm.java:69-78 | definition: the same, restricted to one flow type; `BuildTagPredicate` and `TagIsCategoryOfType` state it |
| CategoryReport.BuildPredicate | moneynote-api/src/main/java/cn/biq/mn/report/CategoryReportQueryForm.java:29-57 | afterwards the builder accepts exactly the flows it accepted before that also match every filter that is set |
| CategoryReport.BuildCategoryPredicate | moneynote-api/src/main/java/cn/biq/mn/report/CategoryReportQueryForm.java:59-67 | the query accepts exactly the confirmed, included flows of the book that match the form |
| CategoryReport.BuildTagPredicate | moneynote-api/src/main/java/cn/biq/mn/report/CategoryReportQueryForm.java:69-78 | the query also requires the flow type |
| CategoryReport.TagIsCategoryOfType | moneynote-api/src/main/java/cn/biq/mn/report/CategoryReportQueryForm.java:59-78 | the tag query is the category query restricted to one flow type |
| CategoryReport.NoFilterMatchesAll | moneynote-api/src/main/java/cn/biq/mn/report/CategoryReportQueryForm.java:29-57 | a form with no filter set matches every flow |
| CategoryReport.TimeBoundsInclusive | moneynote-api/src/main/java/cn/biq/mn/report/CategoryReportQueryForm.java:30-39 | a flow created exactly at both bounds matches |
| CategoryReport.EmptyTimeRange | moneynote-api/src/main/java/cn/biq/mn/report/CategoryReportQueryForm.java:30-39 | a minimum after the maximum matches nothing |
| CategoryReport.EmptySetMatchesNothing | moneynote-api/src/main/java/cn/biq/mn/report/CategoryReportQueryForm.java:43-56 | an empty set of payees, categories or tags matches nothing |
| CategoryReport.AccountEitherSide | moneynote-api/src/main/java/cn/biq/mn/report/CategoryReportQueryForm.java:46-50 | a flow that matches the account filter has the account as its account or its to-account |
| CategoryReport.NarrowerFormMatchesLess | moneynote-api/src/main/java/cn/biq/mn/report/CategoryReportQueryForm.java:29-57 | setting more filters, or stricter ones, never lets more flows through |

## Left out

- The AI tool and the task-master CLI are opaque. The tool's behaviour on each call is an oracle in `Workspace`. The prompts' prose is not modelled; a prompt keeps only the journey name and the path it asks the tool to write.
- Workspace.Workspace.RunGeminiPrompt: the model assumes that a run of the AI tool writes at most the one file its prompt names and deletes nothing. The real tool runs with `-y` and may write or delete any file. The frame ensures rest on this assumption: those of `Workspace.RunGeminiPrompt`, `UserJourneys.GenerateUntilExists`, `UserJourneys.PollJourneys`, `UserJourneys.DocumentJourneysUntilWritten` and `UserJourneys.DocumentJourneysOnce` (files kept, and only the named journey and introduction files changed).
- UserJourneys.GenerateUntilExists: the source waits without bound while the file is missing. The model also stops once the oracle is used up, so a run that never ends is not modelled.
- `run_till_file_exists`, `set_task_status_from_taskmaster`, `gen_task_from_prd` and `expand_all_task_master_tasks` are not part of this model. `gen_next_prd.py` calls them between its steps; only the append to the PRD file is modelled.
- Reading and parsing markdown headers is not modelled. The scripts take the analyser's header list, each header as (text, level, line), as input.
- Directory listings (`os.listdir`, `Path.glob`, `os.walk`) are not modelled. They are inputs; `find_class_file`'s result is a map from class name to file lines.
- TaskList: task and subtask ids are integers in the model. A JSON string id, or any other value an f-string would render, is not modelled.
- JSON decoding is not modelled. The task file and the endpoint list are taken already decoded, with every record field present. A task without a field would raise `KeyError` part-way through the loop and leave a partial file; that is not modelled.
- PyInt.ParseInt: only ASCII digits and ASCII white space are modelled. Python's `int()` also accepts other Unicode decimal digits and spaces, and `re`'s `\w`, `\s` match Unicode letters and spaces.
- Workspace: buffered writes are modelled as a single write at close. Output printed to the console is not modelled.
- `gen_docs.py` lines 46-47 hold a string literal broken across a line, which Python would reject. It is modelled as the intended rule row "|---|---|---|---|\n".
- `GroupService.query` (lines 54-70) is not modelled: it is paging and mapping to DTOs. `enumUtils.translateRoleType` in `getUsers` is not modelled either; the role code is kept.
- GroupService.GroupService.Update: `baseService.getBookInGroup` is not part of this model. It is taken to mean "the book exists and belongs to the session's current group". The session refresh at lines 143-145 does not change any stored data and is not modelled.
- GroupService.GroupService.Add: `bookService.setBookByBookTemplate` is not part of this model. The new book gets the template's name, the new group and `enable = true`; the template's categories, payees and tags are not created.
- GroupService: `currencyService.checkCode` is modelled as membership in a set of known codes, and its exception as `UnknownCurrency`. `Limitation.group_max_count` is a constant of the service object.
- GroupService: every exception rolls back the transaction, so a failing call changes nothing. This includes `add`, which saves the group before looking up the template, and `update`, which sets fields before checking the book.
- GroupService: one id counter serves groups, books and rows. `findByUserAndRole` is assumed to return rows in id order, so `relations.get(0)` in `removeUser` is the oldest owner row.
- GroupService.GroupService.GetUsers: `findAll` (line 239) has no ORDER BY, so the database may return the rows in any order. The model fixes id order, and GroupMembership.MemberRows and GroupMembership.MemberRowsIncreasing state that order.
- GroupService.GroupService.RemoveUser: a null default group (the `getDefaultGroup().getId()` dereference at line 200) is not modelled; every user has a default group id.
- GroupService: concurrent sessions, and a removed user who is still signed in (the TODO at line 207), are not modelled.
- CategoryReport: `title.contains` is modelled as a case-sensitive substring test. The database's collation may make it case-insensitive, and escaping of `%` and `_` is not modelled. `FlowType` is not part of this model; it is compared only for equality. `CalendarUtil` is commented out in the source and is not modelled.
- CategoryReport: the form's own `book` field is not read by the predicate builders, which take the book as a parameter. The model does the same.
