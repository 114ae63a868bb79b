/** The create-task page: its default values and what its submit handler hands to the
    task service once the create schema has accepted the form. */
module CreateTaskPage {
  import opened Wrappers
  import opened Dates
  import opened TaskSchema

  /** The record passed to `createTask`: the form with its two dates turned into
      `Date` objects. `dueDate` is `undefined` (None) or a `Date`. */
  datatype SubmittedTask = SubmittedTask(
    title: Option<string>,
    startDate: DateValue,
    dueDate: Option<DateValue>,
    description: Option<string>,
    status: Option<string>,
    priority: Option<string>,
    assigneeId: Option<int>)

  /** `new Date(v)` where `v` may be `undefined` (which gives the Invalid Date). */
  function JsDate(v: Option<string>): DateValue {
    if v.Some? then ParseJsDate(v.value) else Invalid
  }

  /** The `taskToSubmit` object: every field of the form, with `start_date` replaced by
      `new Date(start_date)` and `due_date` by `new Date(due_date)` when it is truthy
      and `undefined` otherwise. */
  function Normalize(form: TaskForm): (t: SubmittedTask)
    ensures t.title == form.title && t.description == form.description
    ensures t.status == form.status && t.priority == form.priority
    ensures t.assigneeId == form.assigneeId
    ensures t.startDate.Valid? <==> form.startDate.Some? && IsValidDateString(form.startDate.value)
    ensures t.startDate.Valid? ==> ShowsAs(t.startDate, form.startDate.value)
    ensures t.dueDate.None? <==> !Filled(form.dueDate)
    ensures t.dueDate.Some? ==>
              (t.dueDate.value.Valid? <==> IsValidDateString(form.dueDate.value))
    ensures t.dueDate.Some? && t.dueDate.value.Valid? ==>
              ShowsAs(t.dueDate.value, form.dueDate.value)
  {
    SubmittedTask(
      form.title,
      JsDate(form.startDate),
      if Filled(form.dueDate) then Some(JsDate(form.dueDate)) else None,
      form.description,
      form.status,
      form.priority,
      form.assigneeId)
  }

  /** The task invariant of a submitted record: a due date, when present, is a real day
      no earlier than a real start day. */
  predicate DueNotBeforeStart(t: SubmittedTask) {
    match t.dueDate
    case None => true
    case Some(due) =>
      && due.Valid? && t.startDate.Valid?
      && IsCalendarDate(due.date) && IsCalendarDate(t.startDate.date)
      && DayNumber(due.date) >= DayNumber(t.startDate.date)
  }

  /** `handleSubmit(onSubmit)`: with schema errors the form shows them and nothing is
      sent; otherwise the normalised record goes to the task service. */
  function Submit(form: TaskForm, emptyMatch: bool): (r: Result<SubmittedTask, set<Field>>)
    ensures r.Err? <==> !Accepts(CreateSchema, form, emptyMatch)
    ensures r.Err? ==> r.error == Errors(CreateSchema, form, emptyMatch) && r.error != {}
    ensures r.Ok? ==> r.value == Normalize(form) && DueNotBeforeStart(r.value)
  {
    if Accepts(CreateSchema, form, emptyMatch) then
      assert FieldOk(CreateSchema, form, emptyMatch, DueDate);
      Ok(Normalize(form))
    else Err(Errors(CreateSchema, form, emptyMatch))
  }
}
