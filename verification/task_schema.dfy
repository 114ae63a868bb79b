/** The field rules of the two task forms. The create and update pages each declare a
    yup schema; they agree on title, dates, description and assignee, and differ on
    status and priority, where only the update schema checks membership of the enum. */
module TaskSchema {
  import opened Wrappers
  import opened Text
  import opened Dates

  datatype Schema = CreateSchema | UpdateSchema

  /** The form fields, named as in the page's error display. */
  datatype Field = Title | StartDate | DueDate | Description | Status | Priority | AssigneeId

  /** The values the form hands to the schema. A missing value is `undefined`; the
      assignee is the number the schema's `number()` cast produced. */
  datatype TaskForm = TaskForm(
    title: Option<string>,
    startDate: Option<string>,
    dueDate: Option<string>,
    description: Option<string>,
    status: Option<string>,
    priority: Option<string>,
    assigneeId: Option<int>)

  const StatusValues: set<string> := {"to_do", "in_progress", "done"}
  const PriorityValues: set<string> := {"low", "medium", "high"}

  /** JavaScript truthiness of an optional string, which is also what a string
      schema's `required()` accepts: present and not empty. */
  predicate Filled(v: Option<string>) {
    v.Some? && v.value != ""
  }

  /** `.matches(/^\d{4}-\d{2}-\d{2}$/)` on a present value. Whether the schema library
      lets the empty string through this rule is `emptyMatch`. */
  predicate MatchesDate(v: string, emptyMatch: bool) {
    IsDateString(v) || (emptyMatch && v == "")
  }

  /** `string().required().min(3).max(100)`. */
  predicate TitleOk(title: Option<string>) {
    Filled(title) && 3 <= |title.value| && |title.value| <= 100
  }

  /** `string().required().matches(date pattern)`. */
  predicate StartDateOk(start: Option<string>, emptyMatch: bool) {
    Filled(start) && MatchesDate(start.value, emptyMatch)
  }

  /** The `due_date-after-start_date` test: passes for a falsy due date, otherwise
      `new Date(due) >= new Date(start_date)`, where a missing start date is the
      Invalid Date. */
  predicate DueAfterStart(due: Option<string>, start: Option<string>) {
    !Filled(due) || (start.Some? && NotBefore(due.value, start.value))
  }

  /** `string().optional().matches(date pattern).test(due after start)`. */
  predicate DueDateOk(due: Option<string>, start: Option<string>, emptyMatch: bool) {
    (due.None? || MatchesDate(due.value, emptyMatch)) && DueAfterStart(due, start)
  }

  /** `string().optional().max(500)`. */
  predicate DescriptionOk(description: Option<string>) {
    description.None? || |description.value| <= 500
  }

  /** `mixed().required()`, plus `.oneOf(values)` in the update schema. */
  predicate ChoiceOk(schema: Schema, v: Option<string>, values: set<string>) {
    v.Some? && (schema == CreateSchema || v.value in values)
  }

  /** `number().min(1)`: an absent number passes. */
  predicate AssigneeOk(assignee: Option<int>) {
    assignee.None? || assignee.value >= 1
  }

  /** Whether field `f` passes its rule under `schema`. */
  predicate FieldOk(schema: Schema, form: TaskForm, emptyMatch: bool, f: Field) {
    match f
    case Title => TitleOk(form.title)
    case StartDate => StartDateOk(form.startDate, emptyMatch)
    case DueDate => DueDateOk(form.dueDate, form.startDate, emptyMatch)
    case Description => DescriptionOk(form.description)
    case Status => ChoiceOk(schema, form.status, StatusValues)
    case Priority => ChoiceOk(schema, form.priority, PriorityValues)
    case AssigneeId => AssigneeOk(form.assigneeId)
  }

  /** Every field is checked: the result names each field whose rule fails, all at once. */
  function Errors(schema: Schema, form: TaskForm, emptyMatch: bool): (r: set<Field>)
    ensures forall f :: f in r <==> !FieldOk(schema, form, emptyMatch, f)
  {
    (if FieldOk(schema, form, emptyMatch, Title) then {} else {Title})
    + (if FieldOk(schema, form, emptyMatch, StartDate) then {} else {StartDate})
    + (if FieldOk(schema, form, emptyMatch, DueDate) then {} else {DueDate})
    + (if FieldOk(schema, form, emptyMatch, Description) then {} else {Description})
    + (if FieldOk(schema, form, emptyMatch, Status) then {} else {Status})
    + (if FieldOk(schema, form, emptyMatch, Priority) then {} else {Priority})
    + (if FieldOk(schema, form, emptyMatch, AssigneeId) then {} else {AssigneeId})
  }

  predicate Accepts(schema: Schema, form: TaskForm, emptyMatch: bool) {
    Errors(schema, form, emptyMatch) == {}
  }

  /** The values both task pages start from: empty texts, status `to_do`, priority
      `medium`, no assignee. */
  const FormDefaults: TaskForm :=
    TaskForm(Some(""), Some(""), Some(""), Some(""), Some("to_do"), Some("medium"), None)

  /** The untouched form is rejected on title and start date under either schema; its
      empty due date is rejected exactly when the pattern rule refuses the empty string.
      Status and priority defaults are acceptable even to the update schema. */
  lemma DefaultsErrors(schema: Schema, emptyMatch: bool)
    ensures Errors(schema, FormDefaults, emptyMatch)
            == {Title, StartDate} + (if emptyMatch then {} else {DueDate})
  {
    var e := Errors(schema, FormDefaults, emptyMatch);
    assert "to_do" in StatusValues && "medium" in PriorityValues;
    assert forall f :: f in e <==> f == Title || f == StartDate || (!emptyMatch && f == DueDate);
  }

  // ---------------------------------------------------------------- per-field facts

  /** A title is accepted exactly when present with length between 3 and 100. */
  lemma TitleRule(title: Option<string>)
    ensures TitleOk(title) <==> title.Some? && 3 <= |title.value| <= 100
  {
  }

  /** A start date is accepted exactly when present and shaped `YYYY-MM-DD`; the
      empty-string allowance of the pattern rule never matters here. */
  lemma StartDateRule(start: Option<string>, emptyMatch: bool)
    ensures StartDateOk(start, emptyMatch) <==> start.Some? && IsDateString(start.value)
  {
  }

  /** The due-after-start test passes for an absent or empty due date; for any other due
      date it passes exactly when both dates are calendar days and the due date is the
      start day or later (equal days are accepted). */
  lemma DueAfterStartRule(due: Option<string>, start: Option<string>)
    ensures !Filled(due) ==> DueAfterStart(due, start)
    ensures Filled(due) ==>
              (DueAfterStart(due, start) <==>
                 && start.Some?
                 && IsValidDateString(due.value) && IsValidDateString(start.value)
                 && DateLe(ParseDate(start.value), ParseDate(due.value)))
  {
    if Filled(due) && start.Some? {
      NotBeforeMeansLater(due.value, start.value);
    }
  }

  /** A present due date fails whenever it does not match the pattern, and is accepted
      when it is a calendar day no earlier than the start date. */
  lemma DueDateRule(due: Option<string>, start: Option<string>, emptyMatch: bool)
    ensures due.None? ==> DueDateOk(due, start, emptyMatch)
    ensures due == Some("") ==> (DueDateOk(due, start, emptyMatch) <==> emptyMatch)
    ensures Filled(due) ==>
              (DueDateOk(due, start, emptyMatch) <==>
                 && start.Some?
                 && IsValidDateString(due.value) && IsValidDateString(start.value)
                 && DateLe(ParseDate(start.value), ParseDate(due.value)))
  {
    DueAfterStartRule(due, start);
  }

  /** The description may be absent; when present it holds at most 500 characters. */
  lemma DescriptionRule(description: Option<string>)
    ensures DescriptionOk(description) <==> description == None || |description.value| <= 500
  {
  }

  /** An assignee id may be absent; when present it is at least 1. */
  lemma AssigneeRule(assignee: Option<int>)
    ensures AssigneeOk(assignee) <==> forall n :: assignee == Some(n) ==> n >= 1
  {
  }

  /** Under the create schema status and priority are only required: any present
      value passes, including ones outside the enum. */
  lemma CreateChoiceRule(v: Option<string>, values: set<string>)
    ensures ChoiceOk(CreateSchema, v, values) <==> v.Some?
  {
  }

  /** Under the update schema status and priority must be one of the enum's values. */
  lemma UpdateChoiceRule(v: Option<string>, values: set<string>)
    ensures ChoiceOk(UpdateSchema, v, values) <==> v.Some? && v.value in values
  {
  }

  // ---------------------------------------------------------------- the two schemas

  /** The schemas share every rule except status and priority, and the update schema is
      the stricter one: it reports every error the create schema reports, and at most
      status and priority besides. */
  lemma UpdateIsStricter(form: TaskForm, emptyMatch: bool)
    ensures Errors(CreateSchema, form, emptyMatch) <= Errors(UpdateSchema, form, emptyMatch)
    ensures Errors(UpdateSchema, form, emptyMatch) - Errors(CreateSchema, form, emptyMatch)
              <= {Status, Priority}
    ensures form.status.Some? && form.status.value in StatusValues
            && form.priority.Some? && form.priority.value in PriorityValues ==>
              Errors(UpdateSchema, form, emptyMatch) == Errors(CreateSchema, form, emptyMatch)
  {
    var c := Errors(CreateSchema, form, emptyMatch);
    var u := Errors(UpdateSchema, form, emptyMatch);
    forall f | f in c ensures f in u {
    }
    forall f | f in u - c ensures f in {Status, Priority} {
    }
    if form.status.Some? && form.status.value in StatusValues
       && form.priority.Some? && form.priority.value in PriorityValues {
      forall f | f in u ensures f in c {
      }
    }
  }

  /** A form with a status outside the enum: the create schema accepts it, the update
      schema rejects it on status alone. */
  lemma StatusOutsideEnum()
    ensures var form := TaskForm(Some("Write spec"), Some("2024-03-10"), None, None,
                                 Some("blocked"), Some("high"), None);
            && Accepts(CreateSchema, form, false)
            && Errors(UpdateSchema, form, false) == {Status}
  {
    var form := TaskForm(Some("Write spec"), Some("2024-03-10"), None, None,
                         Some("blocked"), Some("high"), None);
    assert IsDateString("2024-03-10");
    assert "blocked" !in StatusValues && "high" in PriorityValues;
    assert TitleOk(form.title) && StartDateOk(form.startDate, false);
    assert DueDateOk(form.dueDate, form.startDate, false) && DescriptionOk(form.description);
    assert forall f :: f != Status ==> FieldOk(UpdateSchema, form, false, f);
    assert forall f :: FieldOk(CreateSchema, form, false, f);
    assert !FieldOk(UpdateSchema, form, false, Status);
  }

  // ---------------------------------------------------------------- scenarios

  /** A two-character title with otherwise good fields fails on the title alone. */
  lemma ShortTitleScenario(schema: Schema, emptyMatch: bool)
    ensures Errors(schema, TaskForm(Some("Ta"), Some("2024-01-01"), None, None,
                                    Some("to_do"), Some("low"), None), emptyMatch)
            == {Title}
  {
    var form := TaskForm(Some("Ta"), Some("2024-01-01"), None, None,
                         Some("to_do"), Some("low"), None);
    assert IsDateString("2024-01-01");
    var e := Errors(schema, form, emptyMatch);
    assert forall f :: f in e <==> f == Title;
  }

  /** The two dates of the scenario below, read field by field. */
  lemma ScenarioDates()
    ensures IsDateString("2024-03-10") && ParseDate("2024-03-10") == Date(2024, 3, 10)
    ensures IsDateString("2024-03-01") && ParseDate("2024-03-01") == Date(2024, 3, 1)
  {
    assert "2024-03-10"[..4] == "2024" && "2024-03-01"[..4] == "2024";
    assert "2024-03-10"[5..7] == "03" && "2024-03-01"[5..7] == "03";
    assert "2024-03-10"[8..] == "10" && "2024-03-01"[8..] == "01";
    assert "2024"[..3] == "202" && "202"[..2] == "20" && "20"[..1] == "2";
    assert DigitsValue("2") == 2;
    assert DigitsValue("20") == 20;
    assert DigitsValue("202") == 202;
    assert DigitsValue("2024") == 2024;
    assert "03"[..1] == "0" && "10"[..1] == "1" && "01"[..1] == "0";
    assert DigitsValue("03") == 3;
    assert DigitsValue("10") == 10;
    assert DigitsValue("01") == 1;
  }

  /** A due date nine days before the start date fails on the due date alone. */
  lemma DueBeforeStartScenario(schema: Schema, emptyMatch: bool)
    ensures Errors(schema, TaskForm(Some("Write spec"), Some("2024-03-10"), Some("2024-03-01"),
                                    None, Some("to_do"), Some("high"), None), emptyMatch)
            == {DueDate}
  {
    var form := TaskForm(Some("Write spec"), Some("2024-03-10"), Some("2024-03-01"),
                         None, Some("to_do"), Some("high"), None);
    ScenarioDates();
    DueAfterStartRule(form.dueDate, form.startDate);
    assert !DueDateOk(form.dueDate, form.startDate, emptyMatch);
    var e := Errors(schema, form, emptyMatch);
    assert forall f :: f in e <==> f == DueDate;
  }
}
