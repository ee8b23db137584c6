/**
  `convert_taskmaster_to_md.py`: render the task file of the task-master
  tool as a Markdown task list in `./task_list.md`.

  The task file is taken already decoded: its top-level keys (tags), each
  mapping to an object whose "tasks" entry, when present, is the tag's task
  list. Task and subtask ids are integers and are rendered as Python's
  `str` renders them.
*/
module TaskList {
  import opened Common
  import opened PyInt
  import opened Workspace

  datatype Subtask = Subtask(id: int, title: string, description: string, details: string, testStrategy: string)

  datatype Task = Task(id: int, title: string, description: string, details: string, testStrategy: string,
                       subtasks: seq<Subtask>)

  /** The decoded task file: tag name to the tag's entries. */
  type Document = map<string, map<string, seq<Task>>>

  /** A `KeyError` raised by a dictionary lookup. */
  datatype LookupError = MissingKey(key: string)

  const MasterTag := "master"
  const TasksKey := "tasks"
  const TaskListOutput := "./task_list.md"
  const SubtasksHeading := "### Subtasks\n\n"

  /** Line 7: `tasks['master']['tasks']`. */
  function TaskListOf(doc: Document): (r: Result<seq<Task>, LookupError>)
    ensures r.Ok? <==> MasterTag in doc && TasksKey in doc[MasterTag]
    ensures r.Ok? ==> r.value == doc[MasterTag][TasksKey]
    ensures r.Err? ==> r.error == MissingKey(if MasterTag in doc then TasksKey else MasterTag)
  {
    if MasterTag !in doc then Err(MissingKey(MasterTag))
    else if TasksKey !in doc[MasterTag] then Err(MissingKey(TasksKey))
    else Ok(doc[MasterTag][TasksKey])
  }

  /** A paragraph: the text followed by a blank line. */
  function Paragraph(text: string): string {
    text + "\n\n"
  }

  /** The test-strategy paragraph, followed by two blank lines. */
  function StrategyLine(strategy: string): string {
    "**Test Strategy**: " + strategy + "\n\n\n"
  }

  function TaskHeading(t: Task): string {
    "## " + IntToString(t.id) + ". " + t.title + "\n\n"
  }

  function SubtaskHeading(taskId: int, st: Subtask): string {
    "#### " + IntToString(taskId) + "." + IntToString(st.id) + " " + st.title + "\n\n"
  }

  /** Lines 16-19: what is written for one subtask of task `taskId`. */
  function SubtaskBlock(taskId: int, st: Subtask): string {
    SubtaskHeading(taskId, st) + Paragraph(st.description) + Paragraph(st.details) + StrategyLine(st.testStrategy)
  }

  /** What is written for each subtask of task `taskId`. */
  function SubtaskRenderer(taskId: int): Subtask -> string {
    st => SubtaskBlock(taskId, st)
  }

  /** Line 15: the blocks of the subtasks, in list order. */
  function SubtaskBlocks(taskId: int, sts: seq<Subtask>): string {
    ConcatMap(SubtaskRenderer(taskId), sts)
  }

  /** Lines 10-14: what is written for a task before its subtasks. */
  function TaskIntro(t: Task): string {
    TaskHeading(t) + Paragraph(t.description) + Paragraph(t.details) + StrategyLine(t.testStrategy)
    + SubtasksHeading
  }

  /** Lines 10-19: what is written for one task. */
  function TaskBlock(t: Task): string {
    TaskIntro(t) + SubtaskBlocks(t.id, t.subtasks)
  }

  /** Line 9: the blocks of the tasks, in list order. */
  function TaskListText(tasks: seq<Task>): string {
    ConcatMap(TaskBlock, tasks)
  }

  /** Rendering a list of tasks distributes over concatenation. */
  lemma TaskListTextAppend(a: seq<Task>, b: seq<Task>)
    ensures TaskListText(a + b) == TaskListText(a) + TaskListText(b)
  {
    ConcatMapAppend(TaskBlock, a, b);
  }

  /** The i-th task's block appears in the list right after the blocks of
      the tasks before it, and the remaining tasks' blocks follow it. */
  lemma TaskBlockInOrder(tasks: seq<Task>, i: nat)
    requires i < |tasks|
    ensures TaskListText(tasks) == TaskListText(tasks[..i]) + TaskBlock(tasks[i]) + TaskListText(tasks[i + 1..])
  {
    ConcatMapAt(TaskBlock, tasks, i);
  }

  /** The j-th subtask's block appears right after the blocks of the
      subtasks before it, and the remaining subtasks' blocks follow it. */
  lemma SubtaskBlockInOrder(taskId: int, sts: seq<Subtask>, j: nat)
    requires j < |sts|
    ensures SubtaskBlocks(taskId, sts)
            == SubtaskBlocks(taskId, sts[..j]) + SubtaskBlock(taskId, sts[j]) + SubtaskBlocks(taskId, sts[j + 1..])
  {
    ConcatMapAt(SubtaskRenderer(taskId), sts, j);
  }

  /** Writing the parts of a task's introduction one after the other leaves
      the introduction after what was there. */
  lemma IntroWrites(before: string, t: Task)
    ensures before + TaskHeading(t) + Paragraph(t.description) + Paragraph(t.details)
            + StrategyLine(t.testStrategy) + SubtasksHeading == before + TaskIntro(t)
  {
    var a, b, c, d, e := TaskHeading(t), Paragraph(t.description), Paragraph(t.details),
                         StrategyLine(t.testStrategy), SubtasksHeading;
    AppendAssoc(before, a, b);
    AppendAssoc(before, a + b, c);
    AppendAssoc(before, a + b + c, d);
    AppendAssoc(before, a + b + c + d, e);
  }

  /** Writing the parts of a subtask's block one after the other leaves the
      block after what was there. */
  lemma SubtaskWrites(before: string, taskId: int, st: Subtask)
    ensures before + SubtaskHeading(taskId, st) + Paragraph(st.description) + Paragraph(st.details)
            + StrategyLine(st.testStrategy) == before + SubtaskBlock(taskId, st)
  {
    var a, b, c, d := SubtaskHeading(taskId, st), Paragraph(st.description), Paragraph(st.details),
                      StrategyLine(st.testStrategy);
    AppendAssoc(before, a, b);
    AppendAssoc(before, a + b, c);
    AppendAssoc(before, a + b + c, d);
  }

  /** Every task's block starts with its "## id. title" heading, and a
      task's subtasks come directly after its "### Subtasks" heading. */
  lemma TaskBlockShape(t: Task)
    ensures StartsWith(TaskBlock(t), TaskHeading(t))
    ensures EndsWith(TaskIntro(t), SubtasksHeading)
    ensures RemovePrefix(TaskBlock(t), TaskIntro(t)) == SubtaskBlocks(t.id, t.subtasks)
  {
    var h, b1, b2, b3, sh := TaskHeading(t), Paragraph(t.description), Paragraph(t.details),
                             StrategyLine(t.testStrategy), SubtasksHeading;
    var intro, subs := TaskIntro(t), SubtaskBlocks(t.id, t.subtasks);
    assert intro == h + b1 + b2 + b3 + sh;
    assert StartsWith(h, h);
    StartsWithExtend(h, h, b1);
    StartsWithExtend(h + b1, h, b2);
    StartsWithExtend(h + b1 + b2, h, b3);
    StartsWithExtend(h + b1 + b2 + b3, h, sh);
    StartsWithExtend(intro, h, subs);
    EndsWithAppended(h + b1 + b2 + b3, sh);
    assert StartsWith(intro, intro);
    StartsWithExtend(intro, intro, subs);
    var r := RemovePrefix(intro + subs, intro);
    assert r == (intro + r)[|intro|..];
  }

  /** The "### Subtasks" heading is written even for a task without
      subtasks, and is then the last thing written for it. */
  lemma NoSubtasksStillHeaded(t: Task)
    requires t.subtasks == []
    ensures EndsWith(TaskBlock(t), SubtasksHeading)
  {
    assert TaskBlock(t) == TaskIntro(t);
    TaskBlockShape(t);
  }

  /** Every subtask's heading names its task's id, then the subtask's id. */
  lemma SubtaskHeadingNamesTask(taskId: int, st: Subtask)
    ensures StartsWith(SubtaskBlock(taskId, st), "#### " + IntToString(taskId) + "." + IntToString(st.id) + " ")
  {
    var p := "#### " + IntToString(taskId) + "." + IntToString(st.id) + " ";
    assert SubtaskHeading(taskId, st) == p + (st.title + "\n\n");
    StartsWithExtend(SubtaskHeading(taskId, st), p,
                     Paragraph(st.description) + Paragraph(st.details) + StrategyLine(st.testStrategy));
    assert SubtaskBlock(taskId, st)
           == SubtaskHeading(taskId, st) + (Paragraph(st.description) + Paragraph(st.details) + StrategyLine(st.testStrategy));
  }

  /** A file opened with mode 'w': what has been written to it so far. The
      text reaches the workspace when the handle is closed. */
  class OutputFile {
    var text: string

    /** Opening for writing starts from nothing, whatever the file held. */
    constructor ()
      ensures text == ""
    {
      text := "";
    }

    method Write(s: string)
      modifies this
      ensures text == old(text) + s
    {
      text := text + s;
    }
  }

  /** Lines 10-14: the writes for a task before its subtasks. */
  method WriteTaskIntro(out: OutputFile, task: Task)
    modifies out
    ensures out.text == old(out.text) + TaskIntro(task)
  {
    ghost var before := out.text;
    out.Write(TaskHeading(task));
    out.Write(Paragraph(task.description));
    out.Write(Paragraph(task.details));
    out.Write(StrategyLine(task.testStrategy));
    out.Write(SubtasksHeading);
    IntroWrites(before, task);
  }

  /** Lines 16-19: the writes for one subtask of task `taskId`. */
  method WriteSubtask(out: OutputFile, taskId: int, subtask: Subtask)
    modifies out
    ensures out.text == old(out.text) + SubtaskBlock(taskId, subtask)
  {
    ghost var before := out.text;
    out.Write(SubtaskHeading(taskId, subtask));
    out.Write(Paragraph(subtask.description));
    out.Write(Paragraph(subtask.details));
    out.Write(StrategyLine(subtask.testStrategy));
    SubtaskWrites(before, taskId, subtask);
  }

  /** Lines 10-19: write one task, then its subtasks in list order. */
  method WriteTask(out: OutputFile, task: Task)
    modifies out
    ensures out.text == old(out.text) + TaskBlock(task)
  {
    ghost var before := out.text;
    WriteTaskIntro(out, task);
    ghost var intro := out.text;
    var subtasks := task.subtasks;
    assert SubtaskBlocks(task.id, subtasks[..0]) == "" by { assert subtasks[..0] == []; }
    assert intro + "" == intro;
    for j := 0 to |subtasks|
      invariant out.text == intro + SubtaskBlocks(task.id, subtasks[..j])
    {
      WriteSubtask(out, task.id, subtasks[j]);
      ConcatMapStep(SubtaskRenderer(task.id), subtasks, j);
      AppendAssoc(intro, SubtaskBlocks(task.id, subtasks[..j]), SubtaskBlock(task.id, subtasks[j]));
    }
    assert subtasks[..|subtasks|] == subtasks;
    AppendAssoc(before, TaskIntro(task), SubtaskBlocks(task.id, subtasks));
  }

  /** Lines 8-19: write every task, in list order, to a fresh output. */
  method WriteTasks(tasks: seq<Task>) returns (text: string)
    ensures text == TaskListText(tasks)
  {
    var out := new OutputFile();
    assert TaskListText(tasks[..0]) == "" by { assert tasks[..0] == []; }
    for i := 0 to |tasks|
      invariant out.text == TaskListText(tasks[..i])
    {
      WriteTask(out, tasks[i]);
      ConcatMapStep(TaskBlock, tasks, i);
    }
    assert tasks[..|tasks|] == tasks;
    text := out.text;
  }

  /** The main block: look up the task list, then write `./task_list.md`
      from scratch (discarding what it held) with each task and its subtasks
      in list order. A missing key stops the script before the output is
      opened. */
  method ConvertTaskList(ws: Workspace, doc: Document) returns (r: Option<LookupError>)
    modifies ws
    ensures r.Some? <==> TaskListOf(doc).Err?
    ensures r.Some? ==> r.value == TaskListOf(doc).error && ws.files == old(ws.files)
    ensures r.None? ==> ws.files == old(ws.files)[TaskListOutput := TaskListText(TaskListOf(doc).value)]
    ensures ws.prompts == old(ws.prompts)
  {
    var found := TaskListOf(doc);
    if found.Err? {
      return Some(found.error);
    }
    var text := WriteTasks(found.value);
    ws.Overwrite(TaskListOutput, text);
    r := None;
  }
}
