/**
  The user-journey fan-out of `gen_user_j.py` and `gen_user_journeys.py`:
  find the direct sub-sections of the "User Journeys" section of the
  detailed-journeys report, then have the AI tool document each of them.

  Both scripts scan the headers with the same loop; `gen_user_j.py` then
  polls until each journey's file exists, while `gen_user_journeys.py` runs
  the tool exactly once per journey.
*/
module UserJourneys {
  import opened Common
  import opened Workspace

  const SectionTitle := "User Journeys"

  /** The fatal error of both scripts: `[h for h in headers if "User Journeys"
      in h['text']][0]` raises `IndexError` on an empty list. */
  datatype ScanError = NoJourneyHeader

  /** Whether some header's text contains "User Journeys" (line 30 of
      `gen_user_j.py`, line 28 of `gen_user_journeys.py`). */
  predicate HasJourneyHeader(headers: seq<Header>) {
    exists k | 0 <= k < |headers| :: Contains(headers[k].text, SectionTitle)
  }

  /** What the scanning loop still collects from `headers`, given whether it
      is inside the section and the level the section started at. A header
      titled exactly "User Journeys" is tested first and (re)starts the
      section at its own level; inside the section a header one level deeper
      is collected, one at the section's level or shallower ends the scan,
      and any other header is skipped. */
  function ScanFrom(headers: seq<Header>, inSection: bool, startLevel: int): (names: seq<string>)
    ensures |names| <= |headers|
    ensures SectionTitle !in names
    ensures forall n | n in names :: exists k | 0 <= k < |headers| :: headers[k].text == n
    decreases |headers|
  {
    if headers == [] then []
    else
      var h := headers[0];
      var rest := headers[1..];
      assert forall k | 0 <= k < |rest| :: rest[k] == headers[k + 1];
      if h.text == SectionTitle then ScanFrom(rest, true, h.level)
      else if inSection && h.level == startLevel + 1 then [h.text] + ScanFrom(rest, true, startLevel)
      else if inSection && h.level <= startLevel then []
      else ScanFrom(rest, inSection, startLevel)
  }

  /** The journey names both scripts collect. */
  function JourneyNames(headers: seq<Header>): seq<string> {
    ScanFrom(headers, false, 0)
  }

  /** The texts of the headers at `level`, in document order. */
  function TextsAtLevel(headers: seq<Header>, level: int): (texts: seq<string>)
    ensures |texts| <= |headers|
  {
    if headers == [] then []
    else (if headers[0].level == level then [headers[0].text] else [])
         + TextsAtLevel(headers[1..], level)
  }

  /** The scanning loop of lines 33-47 of `gen_user_j.py` (lines 31-45 of
      `gen_user_journeys.py`). */
  method ScanJourneys(headers: seq<Header>) returns (names: seq<string>)
    ensures names == JourneyNames(headers)
  {
    var inSection := false;
    var startLevel := 0;
    names := [];
    var i := 0;
    while i < |headers|
      invariant 0 <= i <= |headers|
      invariant names + ScanFrom(headers[i..], inSection, startLevel) == JourneyNames(headers)
    {
      var header := headers[i];
      assert headers[i..][1..] == headers[i + 1..];
      if header.text == SectionTitle {
        startLevel := header.level;
        inSection := true;
        i := i + 1;
        continue;
      }
      if inSection {
        if header.level == startLevel + 1 {
          names := names + [header.text];
        } else if header.level <= startLevel {
          inSection := false;
          assert names == JourneyNames(headers);
          return;
        }
      }
      i := i + 1;
    }
  }

  /** Headers before the first one titled exactly "User Journeys" contribute
      nothing and cannot end the scan. */
  lemma {:induction false} ScanSkipsPreamble(headers: seq<Header>, i: nat, startLevel: int)
    requires i <= |headers|
    requires forall k | 0 <= k < i :: headers[k].text != SectionTitle
    ensures ScanFrom(headers, false, startLevel) == ScanFrom(headers[i..], false, startLevel)
    decreases i
  {
    if i > 0 {
      ScanSkipsPreamble(headers[1..], i - 1, startLevel);
      assert headers[1..][i - 1..] == headers[i..];
    }
  }

  /** Inside a section started at `level`, the scan collects the texts of the
      headers exactly one level deeper, up to the first header at `level` or
      shallower (or the end of the document). */
  lemma {:induction false} ScanCollectsChildren(headers: seq<Header>, end: nat, level: int)
    requires end <= |headers|
    requires forall k | 0 <= k < end :: headers[k].text != SectionTitle && headers[k].level > level
    requires end < |headers| ==> headers[end].text != SectionTitle && headers[end].level <= level
    ensures ScanFrom(headers, true, level) == TextsAtLevel(headers[..end], level + 1)
    decreases end
  {
    if end == 0 {
      assert headers[..0] == [];
    } else {
      ScanCollectsChildren(headers[1..], end - 1, level);
      assert headers[..end][1..] == headers[1..][..end - 1];
    }
  }

  /** The property the scripts rely on: when the first "User Journeys"
      header sits at index `i`, its section runs to index `end` (the first
      later header at its level or shallower, or the end of the document) and
      contains no other "User Journeys" header, the journeys are exactly the
      section's direct children, in document order. Headers after `end`
      contribute nothing. */
  lemma JourneyNamesAreDirectChildren(headers: seq<Header>, i: nat, end: nat)
    requires i < end <= |headers|
    requires headers[i].text == SectionTitle
    requires forall k | 0 <= k < i :: headers[k].text != SectionTitle
    requires forall k | i < k < end :: headers[k].text != SectionTitle && headers[k].level > headers[i].level
    requires end < |headers| ==> headers[end].text != SectionTitle && headers[end].level <= headers[i].level
    ensures JourneyNames(headers) == TextsAtLevel(headers[i + 1..end], headers[i].level + 1)
  {
    ScanSkipsPreamble(headers, i, 0);
    var tail := headers[i..];
    assert tail[1..] == headers[i + 1..];
    var inner := headers[i + 1..];
    ScanCollectsChildren(inner, end - i - 1, headers[i].level);
    assert inner[..end - i - 1] == headers[i + 1..end];
  }

  /** Without a header titled exactly "User Journeys" nothing is collected. */
  lemma {:induction false} NoSectionNoJourneys(headers: seq<Header>, startLevel: int)
    requires forall k | 0 <= k < |headers| :: headers[k].text != SectionTitle
    ensures ScanFrom(headers, false, startLevel) == []
  {
    ScanSkipsPreamble(headers, |headers|, startLevel);
  }

  /** A section nested inside the journeys section and titled "User Journeys"
      again re-anchors the scan at its own level: its children are collected
      and a later sibling of the outer section's children ends the scan. */
  lemma NestedSectionReanchors()
    ensures JourneyNames([Header(SectionTitle, 2, 1), Header("A", 3, 2),
                          Header(SectionTitle, 3, 3), Header("B", 4, 4),
                          Header("C", 3, 5)]) == ["A", "B"]
  {
    var h4 := [Header("C", 3, 5)];
    var h3 := [Header("B", 4, 4)] + h4;
    var h2 := [Header(SectionTitle, 3, 3)] + h3;
    var h1 := [Header("A", 3, 2)] + h2;
    var h0 := [Header(SectionTitle, 2, 1)] + h1;
    assert "A" != SectionTitle && "B" != SectionTitle && "C" != SectionTitle;
    assert ScanFrom(h4, true, 3) == [];
    assert ScanFrom(h3, true, 3) == ["B"];
    assert ScanFrom(h2, true, 2) == ["B"];
    assert ScanFrom(h1, true, 2) == ["A", "B"];
    assert h0 == [Header(SectionTitle, 2, 1), Header("A", 3, 2),
                  Header(SectionTitle, 3, 3), Header("B", 4, 4), Header("C", 3, 5)];
  }

  /** Two adjacent sections both titled "User Journeys" are merged: the
      second one's title re-anchors the scan before the level test could end
      it. */
  lemma AdjacentSectionsMerge()
    ensures JourneyNames([Header(SectionTitle, 2, 1), Header("A", 3, 2),
                          Header(SectionTitle, 2, 3), Header("B", 3, 4)]) == ["A", "B"]
  {
    var h3 := [Header("B", 3, 4)];
    var h2 := [Header(SectionTitle, 2, 3)] + h3;
    var h1 := [Header("A", 3, 2)] + h2;
    var h0 := [Header(SectionTitle, 2, 1)] + h1;
    assert "A" != SectionTitle && "B" != SectionTitle;
    assert ScanFrom(h3, true, 2) == ["B"];
    assert ScanFrom(h1, true, 2) == ["A", "B"];
    assert h0 == [Header(SectionTitle, 2, 1), Header("A", 3, 2),
                  Header(SectionTitle, 2, 3), Header("B", 3, 4)];
  }

  /** A section with another title between two "User Journeys" sections ends
      the scan: the later section contributes nothing. */
  lemma SeparatedSectionIgnored()
    ensures JourneyNames([Header(SectionTitle, 2, 1), Header("A", 3, 2),
                          Header("Other", 2, 3),
                          Header(SectionTitle, 2, 4), Header("B", 3, 5)]) == ["A"]
  {
    var h2 := [Header("Other", 2, 3), Header(SectionTitle, 2, 4), Header("B", 3, 5)];
    var h1 := [Header("A", 3, 2)] + h2;
    var h0 := [Header(SectionTitle, 2, 1)] + h1;
    assert "A" != SectionTitle && "Other" != SectionTitle;
    assert ScanFrom(h2, true, 2) == [];
    assert ScanFrom(h1, true, 2) == ["A"];
    assert h0 == [Header(SectionTitle, 2, 1), Header("A", 3, 2), Header("Other", 2, 3),
                  Header(SectionTitle, 2, 4), Header("B", 3, 5)];
  }

  /** Lines 30-47 of `gen_user_j.py`: the containment test that must pass
      before the scan, then the scan. */
  function DiscoverJourneys(headers: seq<Header>): (r: Result<seq<string>, ScanError>)
    ensures r.Err? <==> !HasJourneyHeader(headers)
  {
    if HasJourneyHeader(headers) then Ok(JourneyNames(headers)) else Err(NoJourneyHeader)
  }

  /** The containment test and the scan disagree: a document whose only
      matching header is "User Journeys Overview" passes the test and yields
      no journey rather than an error. */
  lemma OverviewHeaderYieldsNoJourneys()
    ensures DiscoverJourneys([Header("User Journeys Overview", 2, 1), Header("A", 3, 2)]) == Ok([])
  {
    var hs := [Header("User Journeys Overview", 2, 1), Header("A", 3, 2)];
    assert OccursAt(hs[0].text, SectionTitle, 0);
    NoSectionNoJourneys(hs, 0);
  }

  /** `name.replace(' ', '_')`. */
  function Slug(name: string): (s: string)
    ensures |s| == |name|
    ensures forall i | 0 <= i < |name| :: s[i] == (if name[i] == ' ' then '_' else name[i])
  {
    if name == [] then [] else [if name[0] == ' ' then '_' else name[0]] + Slug(name[1..])
  }

  /** The file `gen_user_j.py` asks the tool to write for a journey (line 54). */
  function JourneyPath(cwd: string, name: string): string {
    cwd + "/user_journeys/" + Slug(name) + ".md"
  }

  /** The functional-spec introduction `gen_user_j.py` asks for (line 148). */
  function IntroPath(cwd: string): string {
    cwd + "/functional_specs_introduction.md"
  }

  /** A slug has no space, and differs from the name only where the name had one. */
  lemma SlugHasNoSpace(name: string)
    ensures ' ' !in Slug(name)
    ensures (' ' !in name) ==> Slug(name) == name
  {
    var s := Slug(name);
    assert forall i | 0 <= i < |s| :: s[i] != ' ';
  }

  /** Two journey names can share a file: the second of them is then never
      generated by the polling script, because its file already exists. */
  lemma SlugCollision()
    ensures "Pay Bill" != "Pay_Bill" && Slug("Pay Bill") == Slug("Pay_Bill")
  {
    var slug := Slug("Pay Bill");
    assert slug[3] == '_';
    assert slug == "Pay_Bill";
    SlugHasNoSpace("Pay_Bill");
  }

  /** The journey "Journey A" is written to `user_journeys/Journey_A.md`. */
  lemma JourneyPathExample(cwd: string)
    ensures JourneyPath(cwd, "Journey A") == cwd + "/user_journeys/" + "Journey_A" + ".md"
  {
    var slug := Slug("Journey A");
    assert slug[7] == '_';
    assert slug == "Journey_A";
  }

  /** How many times the polling loop runs the tool when its oracle is at
      `start`: none when the file is already there; otherwise until the first
      run that writes the file, or until the oracle is used up. */
  function PollCalls(outcomes: seq<Invocation>, start: nat, present: bool): nat {
    if present || start >= |outcomes| then 0
    else
      var k := FirstWriting(outcomes, start);
      if k < |outcomes| then k + 1 - start else |outcomes| - start
  }

  /** A tool that writes the file on its third run is run exactly three
      times; one that never writes it is run until the oracle is used up. */
  lemma PollCallsExamples(failed: Invocation, written: Invocation)
    requires failed.writes.None? && written.writes.Some?
    ensures PollCalls([failed, failed, written, written], 0, false) == 3
    ensures PollCalls([failed, failed, failed], 0, false) == 3
    ensures PollCalls([written], 0, true) == 0
  {
    var o := [failed, failed, written, written];
    assert FirstWriting(o, 0) == 2 by {
      assert FirstWriting(o, 2) == 2;
      assert FirstWriting(o, 1) == FirstWriting(o, 2);
    }
    var f := [failed, failed, failed];
    assert FirstWriting(f, 0) == 3 by {
      assert FirstWriting(f, 2) == FirstWriting(f, 3);
      assert FirstWriting(f, 1) == FirstWriting(f, 2);
    }
  }

  /** Lines 139-142 (and 166-168) of `gen_user_j.py`: run the tool with the
      same prompt while the file it was asked to write does not exist. The
      tool's exit status is ignored. The source waits without bound; here the
      loop also stops once the oracle is used up. */
  method GenerateUntilExists(ws: Workspace, p: Prompt) returns (calls: nat)
    modifies ws
    ensures calls == PollCalls(ws.outcomes, |old(ws.prompts)|, p.SavePath() in old(ws.files))
    ensures ws.prompts == old(ws.prompts) + Runs(p, calls)
    ensures p.SavePath() in ws.files || |ws.prompts| >= |ws.outcomes|
    ensures var k := |old(ws.prompts)| + calls - 1;
            ws.files == if calls > 0 && k < |ws.outcomes| && ws.outcomes[k].writes.Some?
                        then old(ws.files)[p.SavePath() := ws.outcomes[k].writes.value]
                        else old(ws.files)
    ensures old(ws.files).Keys <= ws.files.Keys
    ensures forall q | q in ws.files && (q !in old(ws.files) || ws.files[q] != old(ws.files)[q]) :: q == p.SavePath()
  {
    var path := p.SavePath();
    var start := |ws.prompts|;
    var present := ws.Exists(path);
    calls := 0;
    if present || start >= |ws.outcomes| {
      return;
    }
    ghost var k := FirstWriting(ws.outcomes, start);
    while !ws.Exists(path) && |ws.prompts| < |ws.outcomes|
      invariant |ws.prompts| == start + calls <= |ws.outcomes|
      invariant ws.prompts == old(ws.prompts) + Runs(p, calls)
      invariant path !in ws.files ==> ws.files == old(ws.files) && start + calls <= k
      invariant path in ws.files ==>
                  calls > 0 && start + calls - 1 == k && k < |ws.outcomes| &&
                  ws.files == old(ws.files)[path := ws.outcomes[k].writes.value]
      decreases |ws.outcomes| - |ws.prompts|
    {
      ghost var before := ws.files;
      var _ := ws.RunGeminiPrompt(p);
      PollStep(before, ws.files, p, ws.outcomes, start, start + calls);
      calls := calls + 1;
    }
  }

  /** One run of the polling loop while the file is missing: it either
      leaves the files alone, before the first writing outcome, or it is that
      outcome and writes the file. */
  lemma PollStep(before: map<string, string>, after: map<string, string>, p: Prompt,
                 outcomes: seq<Invocation>, start: nat, i: nat)
    requires start <= i < |outcomes| && i <= FirstWriting(outcomes, start)
    requires p.SavePath() !in before && after == RunStep(before, p, outcomes, i)
    ensures p.SavePath() !in after ==> after == before && i + 1 <= FirstWriting(outcomes, start)
    ensures p.SavePath() in after ==>
              i == FirstWriting(outcomes, start) && after == before[p.SavePath() := outcomes[i].writes.value]
  {
  }

  /** The prompt `gen_user_j.py` builds for a journey names the same file the
      polling loop waits for. */
  function PollingPrompt(cwd: string, name: string): (p: Prompt)
    ensures p.SavePath() == JourneyPath(cwd, name)
  {
    DocumentJourney(name, JourneyPath(cwd, name))
  }

  /** The prompts the polling loops send for `names` in order, the j-th
      journey's prompt being sent `counts[j]` times in a row. */
  function PollingRuns(cwd: string, names: seq<string>, counts: seq<nat>): seq<Prompt>
    requires |counts| == |names|
    decreases |names|
  {
    if names == [] then []
    else PollingRuns(cwd, names[..|names| - 1], counts[..|counts| - 1])
         + Runs(PollingPrompt(cwd, names[|names| - 1]), counts[|counts| - 1])
  }

  /** Every prompt of the polling runs is some journey's polling prompt. */
  lemma {:induction false} PollingRunsMember(cwd: string, names: seq<string>, counts: seq<nat>, i: nat)
    requires |counts| == |names| && i < |PollingRuns(cwd, names, counts)|
    ensures exists n | n in names :: PollingRuns(cwd, names, counts)[i] == PollingPrompt(cwd, n)
    decreases |names|
  {
    var m := |names| - 1;
    var prefix := PollingRuns(cwd, names[..m], counts[..m]);
    if i < |prefix| {
      PollingRunsMember(cwd, names[..m], counts[..m], i);
      var n :| n in names[..m] && prefix[i] == PollingPrompt(cwd, n);
      assert n in names;
    } else {
      RunsAt(PollingPrompt(cwd, names[m]), counts[m], i - |prefix|);
    }
  }

  /** Polling one more journey appends its runs. */
  lemma PollingRunsStep(cwd: string, names: seq<string>, counts: seq<nat>, j: nat, c: nat)
    requires |counts| == j < |names|
    ensures PollingRuns(cwd, names[..j + 1], counts + [c])
            == PollingRuns(cwd, names[..j], counts) + Runs(PollingPrompt(cwd, names[j]), c)
  {
    assert names[..j + 1][..j] == names[..j] && (counts + [c])[..j] == counts;
  }

  /** Polling the j-th journey creates or changes at most its own file, so
      every file changed since the start is one of the first `j + 1`
      journeys' files. */
  lemma PolledFrameStep(files0: map<string, string>, before: map<string, string>, after: map<string, string>,
                        cwd: string, names: seq<string>, j: nat)
    requires j < |names|
    requires files0.Keys <= before.Keys
    requires forall q | q in before && (q !in files0 || before[q] != files0[q]) ::
               exists i | 0 <= i < j :: q == JourneyPath(cwd, names[i])
    requires before.Keys <= after.Keys
    requires forall q | q in after && (q !in before || after[q] != before[q]) :: q == JourneyPath(cwd, names[j])
    ensures files0.Keys <= after.Keys
    ensures forall q | q in after && (q !in files0 || after[q] != files0[q]) ::
              exists i | 0 <= i < j + 1 :: q == JourneyPath(cwd, names[i])
  {
    forall q | q in after && (q !in files0 || after[q] != files0[q])
      ensures exists i | 0 <= i < j + 1 :: q == JourneyPath(cwd, names[i])
    {
      if q != JourneyPath(cwd, names[j]) {
        assert q in before && before[q] == after[q];
        var i :| 0 <= i < j && q == JourneyPath(cwd, names[i]);
      } else {
        assert q == JourneyPath(cwd, names[j]);
      }
    }
  }

  /** Once the j-th journey's file exists, the first `j + 1` journeys' files
      all exist, none having been deleted. */
  lemma PolledPresentStep(before: map<string, string>, after: map<string, string>, cwd: string, names: seq<string>,
                          j: nat)
    requires j < |names| && before.Keys <= after.Keys
    requires forall i | 0 <= i < j :: JourneyPath(cwd, names[i]) in before
    requires JourneyPath(cwd, names[j]) in after
    ensures forall i | 0 <= i < j + 1 :: JourneyPath(cwd, names[i]) in after
  {
  }

  /** Lines 53-142 of `gen_user_j.py`: for every journey in order, its
      prompt is polled until its file exists. */
  method PollJourneys(ws: Workspace, cwd: string, names: seq<string>) returns (ghost runs: seq<nat>)
    modifies ws
    ensures |runs| == |names| && ws.prompts == old(ws.prompts) + PollingRuns(cwd, names, runs)
    ensures old(ws.files).Keys <= ws.files.Keys
    ensures forall p | p in ws.files && (p !in old(ws.files) || ws.files[p] != old(ws.files)[p]) ::
              exists i | 0 <= i < |names| :: p == JourneyPath(cwd, names[i])
    ensures |ws.prompts| < |ws.outcomes| ==> forall i | 0 <= i < |names| :: JourneyPath(cwd, names[i]) in ws.files
  {
    runs := [];
    for j := 0 to |names|
      invariant |runs| == j && ws.prompts == old(ws.prompts) + PollingRuns(cwd, names[..j], runs)
      invariant old(ws.files).Keys <= ws.files.Keys
      invariant forall p | p in ws.files && (p !in old(ws.files) || ws.files[p] != old(ws.files)[p]) ::
                  exists i | 0 <= i < j :: p == JourneyPath(cwd, names[i])
      invariant |ws.prompts| < |ws.outcomes| ==>
                  forall i | 0 <= i < j :: JourneyPath(cwd, names[i]) in ws.files
    {
      var p := PollingPrompt(cwd, names[j]);
      ghost var before, filesBefore := ws.prompts, ws.files;
      var calls := GenerateUntilExists(ws, p);
      PolledFrameStep(old(ws.files), filesBefore, ws.files, cwd, names, j);
      if |ws.prompts| < |ws.outcomes| {
        assert |before| < |ws.outcomes|;
        PolledPresentStep(filesBefore, ws.files, cwd, names, j);
      }
      PollingRunsStep(cwd, names, runs, j, calls);
      AppendAssoc(old(ws.prompts), PollingRuns(cwd, names[..j], runs), Runs(p, calls));
      runs := runs + [calls];
    }
    assert names[..|names|] == names;
  }

  /** `gen_user_j.py` from line 30 on: discover the journeys, then for each
      journey in order poll the tool until its file exists, then do the same
      for the functional-spec introduction. `runs` and `introRuns` say how
      many times each prompt was sent. */
  method DocumentJourneysUntilWritten(ws: Workspace, cwd: string, headers: seq<Header>)
    returns (r: Result<seq<string>, ScanError>, ghost runs: seq<nat>, ghost introRuns: nat)
    modifies ws
    ensures r == DiscoverJourneys(headers)
    ensures r.Err? ==> ws.files == old(ws.files) && ws.prompts == old(ws.prompts)
    ensures r.Ok? ==> |runs| == |r.value| &&
                      ws.prompts == old(ws.prompts) + PollingRuns(cwd, r.value, runs)
                                    + Runs(FunctionalSpecIntro(IntroPath(cwd)), introRuns)
    ensures old(ws.files).Keys <= ws.files.Keys
    ensures forall p | p in ws.files && (p !in old(ws.files) || ws.files[p] != old(ws.files)[p]) ::
              p == IntroPath(cwd) || exists n | n in JourneyNames(headers) :: p == JourneyPath(cwd, n)
    ensures r.Ok? && |ws.prompts| < |ws.outcomes| ==>
              (forall n | n in r.value :: JourneyPath(cwd, n) in ws.files) && IntroPath(cwd) in ws.files
  {
    runs, introRuns := [], 0;
    if !HasJourneyHeader(headers) {
      return Err(NoJourneyHeader), runs, introRuns;
    }
    var names := ScanJourneys(headers);
    runs := PollJourneys(ws, cwd, names);
    ghost var polled := ws.files;
    var intro := FunctionalSpecIntro(IntroPath(cwd));
    introRuns := GenerateUntilExists(ws, intro);
    r := Ok(names);
    forall p | p in ws.files && (p !in old(ws.files) || ws.files[p] != old(ws.files)[p])
      ensures p == IntroPath(cwd) || exists n | n in JourneyNames(headers) :: p == JourneyPath(cwd, n)
    {
      if p != IntroPath(cwd) {
        assert p in polled && polled[p] == ws.files[p];
        var i :| 0 <= i < |names| && p == JourneyPath(cwd, names[i]);
        assert names[i] in JourneyNames(headers);
      }
    }
  }

  /** The prompt `gen_user_journeys.py` builds for a journey: it asks for
      `{name}.md` in the working directory. */
  function OnceJourneyPrompt(name: string): Prompt {
    DocumentJourney(name, name + ".md")
  }

  const OnceIntroFile := "functional_specs_introduction.md"

  /** The journey prompts of `gen_user_journeys.py`, one per name, in order. */
  function OncePrompts(names: seq<string>): (r: seq<Prompt>)
    ensures |r| == |names|
    decreases |names|
  {
    if names == [] then [] else OncePrompts(names[..|names| - 1]) + [OnceJourneyPrompt(names[|names| - 1])]
  }

  /** The i-th journey prompt asks for the i-th journey. */
  lemma {:induction false} OncePromptsAt(names: seq<string>, i: nat)
    requires i < |names|
    ensures OncePrompts(names)[i] == OnceJourneyPrompt(names[i])
    decreases |names|
  {
    var m := |names| - 1;
    if i < m {
      OncePromptsAt(names[..m], i);
    }
  }

  /** What the runs of `gen_user_journeys.py` do to the files: they create or
      change only the journeys' `{name}.md` files and the introduction, delete
      nothing, and leave in each file the output of the last run asked to
      write it (run `k + i` for the i-th journey, run `k + |names|` for the
      introduction). */
  ghost predicate OnceRunsWrote(files: map<string, string>, names: seq<string>, outcomes: seq<Invocation>, k: nat,
                                after: map<string, string>)
  {
    && files.Keys <= after.Keys
    && (forall p | p in after && (p !in files || after[p] != files[p]) ::
          p == OnceIntroFile || exists n | n in names :: p == n + ".md")
    && (k + |names| < |outcomes| && outcomes[k + |names|].writes.Some? ==>
          OnceIntroFile in after && after[OnceIntroFile] == outcomes[k + |names|].writes.value)
    && (forall i | 0 <= i < |names| && k + i < |outcomes| && outcomes[k + i].writes.Some? &&
                   names[i] + ".md" != OnceIntroFile &&
                   (forall j | i < j < |names| :: names[j] != names[i]) ::
          names[i] + ".md" in after && after[names[i] + ".md"] == outcomes[k + i].writes.value)
  }

  /** The runs of `gen_user_journeys.py`, replayed, do what `OnceRunsWrote`
      says. */
  lemma OnceRunsFiles(files: map<string, string>, names: seq<string>, outcomes: seq<Invocation>, k: nat,
                      after: map<string, string>)
    requires after == RunStep(ApplyRuns(files, OncePrompts(names), outcomes, k),
                              FunctionalSpecIntro(OnceIntroFile), outcomes, k + |names|)
    ensures after == ApplyRuns(files, OncePrompts(names) + [FunctionalSpecIntro(OnceIntroFile)], outcomes, k)
    ensures OnceRunsWrote(files, names, outcomes, k, after)
  {
    var once := OncePrompts(names);
    var ps := once + [FunctionalSpecIntro(OnceIntroFile)];
    assert ps[..|ps| - 1] == once;
    OnceRunsFrame(files, names, outcomes, k);
    if k + |names| < |outcomes| && outcomes[k + |names|].writes.Some? {
      ApplyRunsWrites(files, ps, outcomes, k, |names|);
    }
    forall i | 0 <= i < |names| && k + i < |outcomes| && outcomes[k + i].writes.Some? &&
               names[i] + ".md" != OnceIntroFile &&
               (forall j | i < j < |names| :: names[j] != names[i])
      ensures names[i] + ".md" in after && after[names[i] + ".md"] == outcomes[k + i].writes.value
    {
      OnceRunsJourneyWrite(files, names, outcomes, k, i);
    }
  }

  /** Only the journeys' files and the introduction are created or changed. */
  lemma OnceRunsFrame(files: map<string, string>, names: seq<string>, outcomes: seq<Invocation>, k: nat)
    ensures var after := ApplyRuns(files, OncePrompts(names) + [FunctionalSpecIntro(OnceIntroFile)], outcomes, k);
            && files.Keys <= after.Keys
            && forall p | p in after && (p !in files || after[p] != files[p]) ::
                 p == OnceIntroFile || exists n | n in names :: p == n + ".md"
  {
    var once := OncePrompts(names);
    var ps := once + [FunctionalSpecIntro(OnceIntroFile)];
    var after := ApplyRuns(files, ps, outcomes, k);
    ApplyRunsFrame(files, ps, outcomes, k);
    forall p | p in after && (p !in files || after[p] != files[p])
      ensures p == OnceIntroFile || exists n | n in names :: p == n + ".md"
    {
      var i :| 0 <= i < |ps| && ps[i].SavePath() == p;
      if i < |names| {
        OncePromptsAt(names, i);
        assert ps[i] == once[i];
      }
    }
  }

  /** A journey whose name does not come again later, and whose file is not
      the introduction's, keeps the output of its own run. */
  lemma OnceRunsJourneyWrite(files: map<string, string>, names: seq<string>, outcomes: seq<Invocation>, k: nat, i: nat)
    requires i < |names| && k + i < |outcomes| && outcomes[k + i].writes.Some?
    requires names[i] + ".md" != OnceIntroFile
    requires forall j | i < j < |names| :: names[j] != names[i]
    ensures var after := ApplyRuns(files, OncePrompts(names) + [FunctionalSpecIntro(OnceIntroFile)], outcomes, k);
            names[i] + ".md" in after && after[names[i] + ".md"] == outcomes[k + i].writes.value
  {
    var once := OncePrompts(names);
    var ps := once + [FunctionalSpecIntro(OnceIntroFile)];
    OncePromptsAt(names, i);
    assert ps[i].SavePath() == names[i] + ".md";
    forall j | i < j < |ps|
      ensures ps[j].SavePath() != ps[i].SavePath()
    {
      if j < |names| {
        OncePromptsAt(names, j);
        assert ps[j] == once[j];
        assert (names[j] + ".md")[..|names[j]|] == names[j];
        assert (names[i] + ".md")[..|names[i]|] == names[i];
      }
    }
    ApplyRunsWrites(files, ps, outcomes, k, i);
  }

  /** `gen_user_journeys.py` from line 28 on: exactly one run of the tool per
      journey, in the order found, with no existence check and no retry, then
      exactly one run for the functional-spec introduction. */
  method DocumentJourneysOnce(ws: Workspace, headers: seq<Header>)
    returns (r: Result<seq<string>, ScanError>)
    modifies ws
    ensures r == DiscoverJourneys(headers)
    ensures r.Err? ==> ws.files == old(ws.files) && ws.prompts == old(ws.prompts)
    ensures r.Ok? ==>
              ws.prompts == old(ws.prompts) + OncePrompts(r.value) + [FunctionalSpecIntro(OnceIntroFile)]
    ensures ws.files == ApplyRuns(old(ws.files), ws.prompts[|old(ws.prompts)|..], ws.outcomes, |old(ws.prompts)|)
    ensures old(ws.files).Keys <= ws.files.Keys
    ensures r.Ok? ==> OnceRunsWrote(old(ws.files), r.value, ws.outcomes, |old(ws.prompts)|, ws.files)
  {
    var start := |ws.prompts|;
    if !HasJourneyHeader(headers) {
      assert ws.prompts[start..] == [];
      return Err(NoJourneyHeader);
    }
    var names := ScanJourneys(headers);
    RunOncePrompts(ws, names);
    var intro := FunctionalSpecIntro(OnceIntroFile);
    var _ := ws.RunGeminiPrompt(intro);
    r := Ok(names);
    OnceRunsFiles(old(ws.files), names, ws.outcomes, start, ws.files);
    assert ws.prompts[start..] == OncePrompts(names) + [intro];
  }

  /** The loop at lines 49-69 of `gen_user_journeys.py`: one run per journey,
      in order. */
  method RunOncePrompts(ws: Workspace, names: seq<string>)
    modifies ws
    ensures ws.prompts == old(ws.prompts) + OncePrompts(names)
    ensures ws.files == ApplyRuns(old(ws.files), OncePrompts(names), ws.outcomes, |old(ws.prompts)|)
  {
    var start := |ws.prompts|;
    for j := 0 to |names|
      invariant |ws.prompts| == start + j
      invariant ws.prompts == old(ws.prompts) + OncePrompts(names[..j])
      invariant ws.files == ApplyRuns(old(ws.files), OncePrompts(names[..j]), ws.outcomes, start)
    {
      OncePromptsStep(old(ws.files), names, j, ws.outcomes, start);
      AppendAssoc(old(ws.prompts), OncePrompts(names[..j]), [OnceJourneyPrompt(names[j])]);
      var _ := ws.RunGeminiPrompt(OnceJourneyPrompt(names[j]));
    }
    assert names[..|names|] == names;
  }

  /** One more journey prompt extends the prompts and the replayed runs by
      one step. */
  lemma OncePromptsStep(files: map<string, string>, names: seq<string>, j: nat, outcomes: seq<Invocation>, k: nat)
    requires j < |names|
    ensures OncePrompts(names[..j + 1]) == OncePrompts(names[..j]) + [OnceJourneyPrompt(names[j])]
    ensures ApplyRuns(files, OncePrompts(names[..j + 1]), outcomes, k)
            == RunStep(ApplyRuns(files, OncePrompts(names[..j]), outcomes, k), OnceJourneyPrompt(names[j]), outcomes, k + j)
  {
    assert names[..j + 1][..j] == names[..j];
  }
}
