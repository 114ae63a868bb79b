/** The task list page: the in-memory filter on status and priority, the colour of
    the status cell, and the Edit button. */
module OurTasksPage {
  import opened Wrappers
  import opened Text
  import Routes

  /** A task as the list shows it. `id` is None when the service's value is not of
      JavaScript type `number`. */
  datatype Task = Task(
    id: Option<int>,
    title: string,
    description: string,
    status: string,
    priority: string,
    dueDate: string,
    assigneeId: Option<int>,
    projectId: Option<int>)

  /** The search form's choices; an empty or missing field means "any". */
  datatype Filters = Filters(status: Option<string>, priority: Option<string>)

  /** The filters the page starts with: both fields empty. */
  const InitialFilters: Filters := Filters(Some(""), Some(""))

  /** A filter field constrains only when truthy (present and not empty). */
  predicate Active(field: Option<string>) {
    field.Some? && field.value != ""
  }

  /** The `filteredTasks` callback: a task is dropped when an active field differs
      from the task's value (exact, case-sensitive string comparison). */
  predicate Keep(t: Task, f: Filters) {
    var matches := true;
    var matches := if Active(f.status) && t.status != f.status.value then false else matches;
    var matches := if Active(f.priority) && t.priority != f.priority.value then false else matches;
    matches
  }

  /** `tasks.filter(...)`: the tasks that pass, in their original order. */
  function Filter(tasks: seq<Task>, f: Filters): (r: seq<Task>)
    ensures |r| <= |tasks|
    ensures forall t :: t in r <==> t in tasks && Keep(t, f)
    ensures forall t :: multiset(r)[t] == if Keep(t, f) then multiset(tasks)[t] else 0
    decreases |tasks|
  {
    if |tasks| == 0 then []
    else
      var rest := Filter(tasks[1..], f);
      assert tasks == [tasks[0]] + tasks[1..];
      if Keep(tasks[0], f) then [tasks[0]] + rest else rest
  }

  /** `xs` is `ys` with some elements left out and the rest in their order. */
  ghost predicate IsSubsequence<T>(xs: seq<T>, ys: seq<T>)
    decreases |ys|
  {
    && |xs| <= |ys|
    && (|xs| == 0
        || (xs[0] == ys[0] && IsSubsequence(xs[1..], ys[1..]))
        || IsSubsequence(xs, ys[1..]))
  }

  /** The kept-when-and-only-when rule, spelled out field by field. */
  lemma KeepRule(t: Task, f: Filters)
    ensures Keep(t, f) <==>
              (!Active(f.status) || t.status == f.status.value)
              && (!Active(f.priority) || t.priority == f.priority.value)
  {
  }

  /** The result keeps the input's order: it is a subsequence of the input. */
  lemma {:induction false} FilterIsSubsequence(tasks: seq<Task>, f: Filters)
    ensures IsSubsequence(Filter(tasks, f), tasks)
    decreases |tasks|
  {
    if |tasks| > 0 {
      FilterIsSubsequence(tasks[1..], f);
      var r := Filter(tasks, f);
      if Keep(tasks[0], f) {
        assert r[1..] == Filter(tasks[1..], f);
      }
    }
  }

  /** With no active field every task passes and the list is returned unchanged; in
      particular the page's initial filters show the whole list. */
  lemma {:induction false} InactiveFiltersKeepAll(tasks: seq<Task>, f: Filters)
    requires !Active(f.status) && !Active(f.priority)
    ensures Filter(tasks, f) == tasks
    decreases |tasks|
  {
    if |tasks| > 0 {
      InactiveFiltersKeepAll(tasks[1..], f);
      assert tasks == [tasks[0]] + tasks[1..];
    }
  }

  /** The page's initial filters show the whole list. */
  lemma InitialFiltersKeepAll(tasks: seq<Task>)
    ensures Filter(tasks, InitialFilters) == tasks
  {
    InactiveFiltersKeepAll(tasks, InitialFilters);
  }

  /** Filtering by `g` and then by `h` is filtering once by any `f` that keeps exactly
      what both keep. */
  lemma {:induction false} FilterTwice(tasks: seq<Task>, g: Filters, h: Filters, f: Filters)
    requires forall t :: Keep(t, f) <==> Keep(t, g) && Keep(t, h)
    ensures Filter(Filter(tasks, g), h) == Filter(tasks, f)
    decreases |tasks|
  {
    if |tasks| > 0 {
      FilterTwice(tasks[1..], g, h, f);
      var t := tasks[0];
      if Keep(t, g) {
        assert Filter(tasks, g) == [t] + Filter(tasks[1..], g);
        assert ([t] + Filter(tasks[1..], g))[1..] == Filter(tasks[1..], g);
      }
    }
  }

  /** Applying the same filters twice changes nothing. */
  lemma FilterIdempotent(tasks: seq<Task>, f: Filters)
    ensures Filter(Filter(tasks, f), f) == Filter(tasks, f)
  {
    FilterTwice(tasks, f, f, f);
  }

  /** Filtering on both fields equals filtering on status and then priority, and equals
      filtering on priority and then status. */
  lemma FilterFieldsSeparately(tasks: seq<Task>, f: Filters)
    ensures Filter(Filter(tasks, Filters(f.status, None)), Filters(None, f.priority))
            == Filter(tasks, f)
    ensures Filter(Filter(tasks, Filters(None, f.priority)), Filters(f.status, None))
            == Filter(tasks, f)
  {
    FilterTwice(tasks, Filters(f.status, None), Filters(None, f.priority), f);
    FilterTwice(tasks, Filters(None, f.priority), Filters(f.status, None), f);
  }

  // ---------------------------------------------------------------- status cell

  datatype Colour = Red | Orange | Green | Gray

  /** The colour each known status is drawn in. */
  const StatusColours: map<string, Colour> :=
    map["to_do" := Red, "in_progress" := Orange, "done" := Green]

  /** The background of the status cell: the chain of `===` tests on the status. */
  function StatusColour(status: string): (c: Colour)
    ensures c == (if status in StatusColours then StatusColours[status] else Gray)
  {
    if status == "to_do" then Red
    else if status == "in_progress" then Orange
    else if status == "done" then Green
    else Gray
  }

  /** Gray marks exactly the statuses outside the enum; the three known statuses get
      three different colours. */
  lemma StatusColourMeaning(a: string, b: string)
    ensures StatusColour(a) == Gray <==> a !in {"to_do", "in_progress", "done"}
    ensures StatusColour(a) == StatusColour(b) && StatusColour(a) != Gray ==> a == b
  {
  }

  // ---------------------------------------------------------------- Edit button

  /** The Edit button is enabled exactly when the id is a number. */
  predicate EditEnabled(t: Task) {
    t.id.Some?
  }

  /** Where the Edit button navigates: `/update-task/${id}`; nothing when disabled. */
  function EditPath(t: Task): (p: Option<string>)
    ensures p.Some? <==> EditEnabled(t)
    ensures p.Some? ==> |p.value| > 13 && p.value[..13] == "/update-task/"
                        && ParseDecimal(p.value[13..]) == t.id
  {
    if t.id.Some? then
      var p := "/update-task/" + IntToString(t.id.value);
      assert p[13..] == IntToString(t.id.value);
      IntToStringRoundTrip(t.id.value);
      Some(p)
    else None
  }

  /** For a signed-in user the Edit button's target is the update page of that task. */
  lemma EditOpensUpdatePage(t: Task)
    requires EditEnabled(t)
    ensures Routes.Resolve(EditPath(t).value, true)
            == Routes.UpdateTask(IntToString(t.id.value))
  {
    IntToStringHasNoSlash(t.id.value);
    Routes.ParamPages(IntToString(t.id.value), true);
  }

  // ---------------------------------------------------------------- table rows

  /** The data columns of the table, as the header row names them. */
  datatype Column =
    | IdColumn | TitleColumn | DescriptionColumn | StatusColumn | PriorityColumn
    | DueDateColumn | AssigneeColumn | ProjectIdColumn

  /** The header row, without the trailing Actions column. */
  const Headers: seq<Column> :=
    [IdColumn, TitleColumn, DescriptionColumn, StatusColumn, PriorityColumn,
     DueDateColumn, AssigneeColumn, ProjectIdColumn]

  /** How JSX renders an optional number: its numeral, or nothing. */
  function NumberText(n: Option<int>): string {
    if n.Some? then IntToString(n.value) else ""
  }

  /** The text of column `c` for task `t`; `localeDate` stands for
      `new Date(d).toLocaleDateString()`. */
  function CellText(t: Task, c: Column, localeDate: string -> string): string {
    match c
    case IdColumn => NumberText(t.id)
    case TitleColumn => t.title
    case DescriptionColumn => t.description
    case StatusColumn => t.status
    case PriorityColumn => t.priority
    case DueDateColumn => if t.dueDate != "" then localeDate(t.dueDate) else ""
    case AssigneeColumn => NumberText(t.assigneeId)
    case ProjectIdColumn => NumberText(t.projectId)
  }

  /** The data cells of a row in the order the row template writes them: the project
      id comes before the assignee id, the reverse of the header row. */
  function RowAsWritten(t: Task, localeDate: string -> string): (r: seq<string>)
    ensures |r| == |Headers|
  {
    [NumberText(t.id), t.title, t.description, t.status, t.priority,
     CellText(t, DueDateColumn, localeDate), NumberText(t.projectId), NumberText(t.assigneeId)]
  }

  /** A task whose assignee and project differ shows its project id under the
      "Assignee" header. */
  lemma RowAsWrittenMislabels(localeDate: string -> string)
    ensures var t := Task(Some(7), "Write spec", "", "to_do", "high", "", Some(1), Some(2));
            && Headers[6] == AssigneeColumn
            && RowAsWritten(t, localeDate)[6] == "2"
            && CellText(t, Headers[6], localeDate) == "1"
  {
    assert IntToString(2) == "2" && IntToString(1) == "1";
  }

  /** The row template with the last two cells in header order: every cell then shows
      the field its header names. */
  function Row(t: Task, localeDate: string -> string): (r: seq<string>)
    ensures |r| == |Headers|
    ensures forall i :: 0 <= i < |Headers| ==> r[i] == CellText(t, Headers[i], localeDate)
  {
    [NumberText(t.id), t.title, t.description, t.status, t.priority,
     CellText(t, DueDateColumn, localeDate), NumberText(t.assigneeId), NumberText(t.projectId)]
  }

  /** The corrected row differs from the written one exactly in the two swapped cells. */
  lemma RowFixesOnlySwappedCells(t: Task, localeDate: string -> string)
    ensures forall i :: 0 <= i < 6 ==> Row(t, localeDate)[i] == RowAsWritten(t, localeDate)[i]
    ensures Row(t, localeDate)[6] == RowAsWritten(t, localeDate)[7]
    ensures Row(t, localeDate)[7] == RowAsWritten(t, localeDate)[6]
  {
  }
}
