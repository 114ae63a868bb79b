/** The update-task page: how a task loaded from the task service pre-fills the form,
    and what the submit handler sends. */
module UpdateTaskPage {
  import opened Wrappers
  import opened Text
  import opened Dates
  import opened TaskSchema
  import Routes

  /** A task as the task service returns it; dates are ISO timestamps such as
      `2024-03-10T00:00:00.000Z`, and any field may be missing. */
  datatype StoredTask = StoredTask(
    title: Option<string>,
    startDate: Option<string>,
    dueDate: Option<string>,
    description: Option<string>,
    status: Option<string>,
    priority: Option<string>,
    assigneeId: Option<int>)

  /** The values `reset` puts into the form. The assignee box is a text input, so the
      id arrives as text. */
  datatype Prefill = Prefill(
    title: Option<string>,
    startDate: string,
    dueDate: string,
    description: Option<string>,
    status: Option<string>,
    priority: Option<string>,
    assigneeText: string)

  /** `v ? v.split('T')[0] : ''`: the date part of a stored timestamp. */
  function DatePrefill(v: Option<string>): (r: string)
    ensures 'T' !in r
    ensures !Filled(v) ==> r == ""
    ensures Filled(v) ==> r <= v.value
    ensures Filled(v) && 'T' !in v.value ==> r == v.value
    ensures Filled(v) && |r| < |v.value| ==> v.value[|r|] == 'T'
  {
    if Filled(v) then
      var r := SplitHead(v.value, 'T');
      if 'T' !in v.value then SplitHeadNoSep(v.value, 'T'); r else r
    else ""
  }

  /** Pre-filling twice gives what pre-filling once gives. */
  lemma DatePrefillIdempotent(v: Option<string>)
    ensures DatePrefill(Some(DatePrefill(v))) == DatePrefill(v)
  {
    if DatePrefill(v) != "" {
      SplitHeadIdempotent(v.value, 'T');
    }
  }

  /** The date part of a timestamp `YYYY-MM-DDT...` is exactly `YYYY-MM-DD`, so the
      pre-filled date passes the date pattern of the schema. */
  lemma DatePrefillOfTimestamp(date: string, time: string)
    requires IsDateString(date)
    ensures DatePrefill(Some(date + "T" + time)) == date
    ensures IsDateString(DatePrefill(Some(date + "T" + time)))
  {
    assert 'T' !in date by {
      forall i | 0 <= i < |date| ensures date[i] != 'T' {
        if i < 4 {
          assert date[..4][i] == date[i];
        } else if 5 <= i < 7 {
          assert date[5..7][i - 5] == date[i];
        } else if 8 <= i {
          assert date[8..][i - 8] == date[i];
        }
      }
    }
    SplitHeadOfJoin(date, 'T', time);
  }

  /** `assignee_id ? assignee_id.toString() : ''`: a missing id and the id 0 (falsy)
      both give the empty text. */
  function AssigneePrefill(id: Option<int>): (r: string)
    ensures r == "" <==> id.None? || id.value == 0
    ensures r != "" ==> ParseDecimal(r) == Some(id.value)
  {
    if id.Some? && id.value != 0 then
      IntToStringRoundTrip(id.value);
      IntToString(id.value)
    else ""
  }

  /** The argument of `reset` for a loaded task. */
  function PrefillFrom(t: StoredTask): (p: Prefill)
    ensures p.title == t.title && p.description == t.description
    ensures p.status == t.status && p.priority == t.priority
    ensures p.startDate == DatePrefill(t.startDate) && p.dueDate == DatePrefill(t.dueDate)
    ensures p.assigneeText == AssigneePrefill(t.assigneeId)
  {
    Prefill(t.title, DatePrefill(t.startDate), DatePrefill(t.dueDate), t.description,
            t.status, t.priority, AssigneePrefill(t.assigneeId))
  }

  /** `id ? parseInt(id) : 0`: the task id sent to the service. `parseInt` is the
      engine's reading of the leading integer, given as a parameter; None stands for
      NaN, which it gives when the text starts with no digits. */
  function RequestId(idParam: Option<string>, parseInt: string -> Option<int>): (n: Option<int>)
    ensures !Filled(idParam) ==> n == Some(0)
    ensures Filled(idParam) ==> n == parseInt(idParam.value)
  {
    if Filled(idParam) then parseInt(idParam.value) else Some(0)
  }

  /** `handleSubmit(onSubmit)`: with schema errors nothing is sent; otherwise the form
      values go to `updateTask` as they are (unlike the create page, the dates stay text). */
  function Submit(idParam: Option<string>, form: TaskForm, emptyMatch: bool,
                  parseInt: string -> Option<int>): (r: Result<(Option<int>, TaskForm), set<Field>>)
    ensures r.Err? <==> !Accepts(UpdateSchema, form, emptyMatch)
    ensures r.Err? ==> r.error == Errors(UpdateSchema, form, emptyMatch) && r.error != {}
    ensures r.Ok? ==> r.value == (RequestId(idParam, parseInt), form)
    ensures r.Ok? ==> form.status.Some? && form.status.value in StatusValues
    ensures r.Ok? ==> form.priority.Some? && form.priority.value in PriorityValues
  {
    if Accepts(UpdateSchema, form, emptyMatch) then
      assert FieldOk(UpdateSchema, form, emptyMatch, Status);
      assert FieldOk(UpdateSchema, form, emptyMatch, Priority);
      Ok((RequestId(idParam, parseInt), form))
    else Err(Errors(UpdateSchema, form, emptyMatch))
  }

  /** The page is only mounted by the `/update-task/:id` route, which always supplies a
      non-empty id, so the `: 0` fallback of the request id is never taken. */
  lemma RoutedRequestId(path: string, parseInt: string -> Option<int>)
    requires Routes.IsPathname(path)
    requires Routes.Resolve(path, true).UpdateTask?
    ensures RequestId(Some(Routes.Resolve(path, true).id), parseInt)
            == parseInt(Routes.Resolve(path, true).id)
  {
  }

  /** A route id without leading digits reaches the page, and the request then carries
      NaN rather than a task id: `/update-task/abc` asks the service for task NaN. */
  lemma NonNumericIdRequestsNaN(parseInt: string -> Option<int>)
    requires parseInt("abc") == None
    ensures Routes.Resolve("/update-task/abc", true) == Routes.UpdateTask("abc")
    ensures RequestId(Some(Routes.Resolve("/update-task/abc", true).id), parseInt) == None
  {
    var id := "abc";
    assert '/' !in id;
    Routes.ParamPages(id, true);
    assert "/update-task/" + id == "/update-task/abc";
  }
}
