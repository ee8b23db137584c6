/**
  The world the documentation scripts act on: the files of the working
  directory and the external AI command-line tool (`gemini -y -p <prompt>`).

  The tool is opaque. What it does on its k-th invocation is given in
  advance by an oracle, `outcomes[k]`: whether it exits with status 0, and
  whether (and with what contents) it writes the file the prompt asks it to
  save. The tool never deletes files.
*/
module Workspace {
  import opened Common

  /** What one run of the AI tool does. */
  datatype Invocation = Invocation(exitOk: bool, writes: Option<string>)

  /** The prompts the scripts hand to the AI tool. The prose of each prompt is
      fixed text around the fields kept here; `SavePath` is the file the prompt
      tells the tool to write. */
  datatype Prompt =
    | DocumentJourney(journey: string, savePath: string)
    | FunctionalSpecIntro(savePath: string)
  {
    function SavePath(): string {
      match this
      case DocumentJourney(_, p) => p
      case FunctionalSpecIntro(p) => p
    }
  }

  /** Contents of `path`, or "" when it does not exist: what appending to a
      file opened with mode 'a' starts from. */
  function ContentsOr(files: map<string, string>, path: string): string {
    if path in files then files[path] else ""
  }

  /** The index of the first outcome at or after `from` that writes its file,
      or `|outcomes|` when none does. */
  function FirstWriting(outcomes: seq<Invocation>, from: nat): (k: nat)
    requires from <= |outcomes|
    ensures from <= k <= |outcomes|
    ensures k < |outcomes| ==> outcomes[k].writes.Some?
    ensures forall i | from <= i < k :: outcomes[i].writes.None?
    decreases |outcomes| - from
  {
    if from == |outcomes| || outcomes[from].writes.Some? then from
    else FirstWriting(outcomes, from + 1)
  }

  /** The same prompt sent `n` times in a row. */
  function Runs(p: Prompt, n: nat): (r: seq<Prompt>)
    ensures |r| == n
  {
    if n == 0 then [] else Runs(p, n - 1) + [p]
  }

  /** Every one of the `n` runs sends `p`. */
  lemma {:induction false} RunsAt(p: Prompt, n: nat, i: nat)
    requires i < n
    ensures Runs(p, n)[i] == p
  {
    if i < n - 1 {
      RunsAt(p, n - 1, i);
    }
  }

  /** The file system after the tool's run number `i` on prompt `p`: the
      prompt's file holds what that run writes, if it writes anything. */
  function RunStep(files: map<string, string>, p: Prompt, outcomes: seq<Invocation>, i: nat): map<string, string> {
    if i < |outcomes| && outcomes[i].writes.Some? then files[p.SavePath() := outcomes[i].writes.value] else files
  }

  /** The file system after the tool has run on each of `ps` in turn, the
      first of them being run number `k`. */
  function ApplyRuns(files: map<string, string>, ps: seq<Prompt>, outcomes: seq<Invocation>, k: nat): map<string, string>
    decreases |ps|
  {
    if ps == [] then files
    else RunStep(ApplyRuns(files, ps[..|ps| - 1], outcomes, k), ps[|ps| - 1], outcomes, k + |ps| - 1)
  }

  /** Replaying two batches of runs in turn is replaying them together. */
  lemma {:induction false} ApplyRunsConcat(files: map<string, string>, a: seq<Prompt>, b: seq<Prompt>,
                                           outcomes: seq<Invocation>, k: nat)
    ensures ApplyRuns(files, a + b, outcomes, k) == ApplyRuns(ApplyRuns(files, a, outcomes, k), b, outcomes, k + |a|)
    decreases |b|
  {
    if b == [] {
      assert a + b == a;
    } else {
      var n := |b| - 1;
      ApplyRunsConcat(files, a, b[..n], outcomes, k);
      assert (a + b)[..|a + b| - 1] == a + b[..n];
    }
  }

  /** A sequence of runs never deletes a file, and every file it creates or
      changes is the save path of one of the prompts. */
  lemma {:induction false} ApplyRunsFrame(files: map<string, string>, ps: seq<Prompt>, outcomes: seq<Invocation>, k: nat)
    ensures files.Keys <= ApplyRuns(files, ps, outcomes, k).Keys
    ensures forall path | path in ApplyRuns(files, ps, outcomes, k) &&
                          (path !in files || ApplyRuns(files, ps, outcomes, k)[path] != files[path]) ::
              exists i | 0 <= i < |ps| :: ps[i].SavePath() == path
    decreases |ps|
  {
    if ps != [] {
      var n := |ps| - 1;
      ApplyRunsFrame(files, ps[..n], outcomes, k);
      forall path | path in ApplyRuns(files, ps, outcomes, k) &&
                    (path !in files || ApplyRuns(files, ps, outcomes, k)[path] != files[path])
        ensures exists i | 0 <= i < |ps| :: ps[i].SavePath() == path
      {
        if path != ps[n].SavePath() {
          var i :| 0 <= i < n && ps[..n][i].SavePath() == path;
          assert ps[i] == ps[..n][i];
        }
      }
    }
  }

  /** A file holds what the last run that wrote it wrote: when run `k + i`
      writes the file of prompt `i` and no later prompt names that file, the
      file ends up with exactly that run's text. */
  lemma {:induction false} ApplyRunsWrites(files: map<string, string>, ps: seq<Prompt>, outcomes: seq<Invocation>,
                                           k: nat, i: nat)
    requires i < |ps| && k + i < |outcomes| && outcomes[k + i].writes.Some?
    requires forall j | i < j < |ps| :: ps[j].SavePath() != ps[i].SavePath()
    ensures ps[i].SavePath() in ApplyRuns(files, ps, outcomes, k)
    ensures ApplyRuns(files, ps, outcomes, k)[ps[i].SavePath()] == outcomes[k + i].writes.value
    decreases |ps|
  {
    var n := |ps| - 1;
    if i < n {
      ApplyRunsWrites(files, ps[..n], outcomes, k, i);
      assert ps[..n][i] == ps[i];
    }
  }

  class Workspace {
    /** The file system: path to contents. */
    var files: map<string, string>
    /** Every prompt handed to the AI tool so far, in order. */
    var prompts: seq<Prompt>
    /** What the AI tool does on each successive invocation. */
    const outcomes: seq<Invocation>

    constructor (files0: map<string, string>, outcomes0: seq<Invocation>)
      ensures files == files0 && prompts == [] && outcomes == outcomes0
    {
      files := files0;
      prompts := [];
      outcomes := outcomes0;
    }

    /** `os.path.exists(path)`. */
    predicate Exists(path: string)
      reads this
    {
      path in files
    }

    /** Appending `text` to `path` through a handle opened with mode 'a'
        (which creates the file when it is missing). */
    method Append(path: string, text: string)
      modifies this
      ensures files == old(files)[path := ContentsOr(old(files), path) + text]
      ensures prompts == old(prompts)
    {
      files := files[path := ContentsOr(files, path) + text];
    }

    /** Writing `text` to `path` through a handle opened with mode 'w': the
        previous contents, if any, are discarded. */
    method Overwrite(path: string, text: string)
      modifies this
      ensures files == old(files)[path := text]
      ensures prompts == old(prompts)
    {
      files := files[path := text];
    }

    /** `run_gemini_prompt(prompt)`: one run of the AI tool. The result is
        whether the tool exited with status 0; it says nothing about whether
        the file was written. Once the oracle is used up the tool does nothing
        and reports failure. */
    method RunGeminiPrompt(p: Prompt) returns (ok: bool)
      modifies this
      ensures prompts == old(prompts) + [p]
      ensures |old(prompts)| < |outcomes| ==>
                var o := outcomes[|old(prompts)|];
                && ok == o.exitOk
                && files == if o.writes.Some? then old(files)[p.SavePath() := o.writes.value]
                            else old(files)
      ensures |old(prompts)| >= |outcomes| ==> !ok && files == old(files)
      ensures files == RunStep(old(files), p, outcomes, |old(prompts)|)
    {
      var k := |prompts|;
      prompts := prompts + [p];
      if k < |outcomes| {
        var o := outcomes[k];
        ok := o.exitOk;
        if o.writes.Some? {
          files := files[p.SavePath() := o.writes.value];
        }
      } else {
        ok := false;
      }
    }
  }
}
