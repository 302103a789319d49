/**
 * The "add task" form (client/src/Components/ToDoTask.jsx): its record,
 * the updates its inputs and its calendar make, and the normalisation
 * `handleSubmit` applies before the create request.
 */
module ToDoTask {
  import opened Js
  import opened Wrappers
  import opened Text
  import TaskStore

  /** `formData`; every field holds what an input or the calendar wrote. */
  datatype Form = Form(title: string, description: string, deadline: string, status: string)

  /** The form's first state. */
  const InitialForm: Form := Form("", "", "", TaskStore.DefaultStatus)

  /** The named inputs of the form. */
  datatype Field = TitleField | DescriptionField

  function Get(f: Form, name: Field): string
  {
    match name
    case TitleField => f.title
    case DescriptionField => f.description
  }

  /** `handleInputChange`: the named field takes the input's value. */
  function SetInput(f: Form, name: Field, value: string): (r: Form)
    ensures Get(r, name) == value
    ensures forall other :: other != name ==> Get(r, other) == Get(f, other)
    ensures r.deadline == f.deadline && r.status == f.status
  {
    match name
    case TitleField => f.(title := value)
    case DescriptionField => f.(description := value)
  }

  /** `handleDateSelect`: only the deadline changes. */
  function SetDeadline(f: Form, date: string): (r: Form)
    ensures r.deadline == date
    ensures forall name :: Get(r, name) == Get(f, name)
    ensures r.status == f.status
  {
    f.(deadline := date)
  }

  /** `handleSubmit`: no request for an empty title; otherwise the body of
      the create request, with title and description trimmed, an empty
      deadline sent as `null` and an empty status replaced by "To Do". */
  function Submit(f: Form): (r: Option<TaskStore.Body>)
    ensures r.None? <==> f.title == ""
    ensures r.Some? ==> r.value.title == Str(Trim(f.title))
    ensures r.Some? ==> r.value.description == Str(Trim(f.description))
    ensures r.Some? ==> r.value.deadline == (if f.deadline == "" then Null else Str(f.deadline))
    ensures r.Some? ==> r.value.status == Str(if f.status == "" then TaskStore.DefaultStatus else f.status)
    ensures r.Some? ==> r.value.duration.Undefined?
  {
    if f.title == "" then None
    else
      var description := if f.description != "" then Trim(f.description) else "";
      var deadline := Or(Str(f.deadline), Null);
      var status := Or(Str(f.status), Str(TaskStore.DefaultStatus));
      assert Trim("") == "" by { TrimEmptyIff(""); }
      Some(TaskStore.Body(Str(Trim(f.title)), Str(description), deadline, status, Undefined))
  }

  /** Submitting the untouched form sends nothing. */
  lemma InitialFormIsNotSent()
    ensures Submit(InitialForm).None?
    ensures InitialForm.status == "To Do"
  {
  }

  /** A title made only of white space passes the form's own check, is
      trimmed to "", and the server then answers "Title is required". */
  lemma WhiteSpaceTitleRejectedByServer(f: Form)
    requires f.title != "" && AllSpace(f.title)
    ensures Submit(f).Some?
    ensures TaskStore.CheckCreate(Submit(f).value) == TaskStore.Rejected(TaskStore.TitleRequired)
  {
    TrimEmptyIff(f.title);
  }

  /** A sent form is stored exactly when its title has a character that is
      not white space and its status is empty or one of the schema's; the
      stored document is then the normalised form. */
  lemma SubmitAcceptedIff(f: Form)
    requires f.title != ""
    ensures TaskStore.CheckCreate(Submit(f).value).Accepted? <==>
              !AllSpace(f.title) && (f.status == "" || f.status in TaskStore.StatusEnum)
    ensures TaskStore.CheckCreate(Submit(f).value).Accepted? ==>
              TaskStore.CheckCreate(Submit(f).value).todo ==
                TaskStore.Todo(Str(Trim(f.title)), Str(Trim(f.description)),
                               if f.deadline == "" then Null else Str(f.deadline),
                               Str(if f.status == "" then TaskStore.DefaultStatus else f.status))
  {
    TrimEmptyIff(f.title);
    var b := Submit(f).value;
    if !AllSpace(f.title) {
      TaskStore.CreateStatusRule(b);
    }
  }
}
