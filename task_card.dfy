/**
 * One card of the board (client/src/Components/TaskCard.jsx): the priority
 * label derived from the status it is given, the deadline text, the edit
 * form, and the bodies of the two update requests a card sends.
 */
module TaskCard {
  import opened Js
  import TaskStore
  import Calendar

  /** The label `getPriority` puts on a card. */
  datatype Priority = Low | High | Completed | NotSet
  {
    function Text(): string
    {
      match this
      case Low => "Low"
      case High => "High"
      case Completed => "Completed"
      case NotSet => "Not Set"
    }
  }

  /** `getPriority`: a switch with strict equality on the status prop. */
  function GetPriority(status: string): (p: Priority)
    ensures p == Low <==> status == "To Do"
    ensures p == High <==> status == "On Progress"
    ensures p == Completed <==> status == "Done"
    ensures p == NotSet <==> status !in TaskStore.StatusEnum
  {
    match status
    case "To Do" => Low
    case "On Progress" => High
    case "Done" => Completed
    case _ => NotSet
  }

  /** The four labels are different words, so the label tells the status. */
  lemma {:induction false} PriorityTextTellsStatus(s: string, t: string)
    requires s in TaskStore.StatusEnum && t in TaskStore.StatusEnum
    ensures GetPriority(s).Text() == GetPriority(t).Text() <==> s == t
  {
    var p, q := GetPriority(s), GetPriority(t);
    if p.Text() == q.Text() {
      assert p.Text()[0] == q.Text()[0];
      assert p.Text()[0] == 'L' <==> p == Low;
      assert q.Text()[0] == 'L' <==> q == Low;
      assert p.Text()[0] == 'H' <==> p == High;
      assert q.Text()[0] == 'H' <==> q == High;
    }
  }

  /** The test `/^\d{4}-\d{2}-\d{2}$/`: ten characters, `-` at indices 4
      and 7 and an ASCII digit everywhere else. */
  predicate IsIsoShape(s: string): (ok: bool)
    ensures ok <==> && |s| == 10 && s == s[..4] + "-" + s[5..7] + "-" + s[8..]
                    && AllDigits(s[..4]) && AllDigits(s[5..7]) && AllDigits(s[8..])
  {
    |s| == 10 && s[4] == '-' && s[7] == '-'
    && forall i :: 0 <= i < 10 && i != 4 && i != 7 ==> IsDigit(s[i])
  }

  /** `formatDate`. Whether `new Date(s)` is a valid date and what
      `toLocaleDateString('en-US', ...)` writes for it come from the host and
      are parameters. A number is never of ISO shape, since the digits of an
      integer contain no `-` after the first character. */
  function FormatDate(d: JsValue, isValidDate: string -> bool, toLocale: string -> string): (r: JsValue)
    ensures !Truthy(d) || d == Str("Not set") ==> r == Str("Not set")
    ensures r.Str? || r == d
    ensures r != d ==> (!Truthy(d) && r == Str("Not set")) || (d.Str? && IsIsoShape(d.s) && isValidDate(d.s) && r == Str(toLocale(d.s)))
    ensures Truthy(d) && !(d.Str? && IsIsoShape(d.s) && isValidDate(d.s)) ==> r == d
  {
    if !Truthy(d) || d == Str("Not set") then Str("Not set")
    else if d.Str? && IsIsoShape(d.s) && isValidDate(d.s) then Str(toLocale(d.s))
    else d
  }

  /** A string that is not ISO-shaped, or shaped but not a valid date, is
      shown as it is; and so the text shown for it is shown again unchanged. */
  lemma PlainDeadlineIsFixed(s: string, isValidDate: string -> bool, toLocale: string -> string)
    requires !(IsIsoShape(s) && isValidDate(s))
    ensures FormatDate(Str(s), isValidDate, toLocale) == (if s == "" then Str("Not set") else Str(s))
    ensures FormatDate(FormatDate(Str(s), isValidDate, toLocale), isValidDate, toLocale) == FormatDate(Str(s), isValidDate, toLocale)
  {
    assert !IsIsoShape("Not set");
  }

  /** A date picked in the calendar has the shape `formatDate` recognises
      exactly when its year has four digits; other years are shown raw. */
  lemma {:induction false} CalendarDateShapeIff(year: int, month0: int, day: int)
    requires 0 <= month0 <= 11 && 1 <= day <= 31
    ensures IsIsoShape(Calendar.FormatSelectedDate(year, month0, day)) <==> 1000 <= year <= 9999
  {
    var s := Calendar.FormatSelectedDate(year, month0, day);
    Calendar.FormatLengthIff(year, month0, day);
    if 1000 <= year <= 9999 {
      Calendar.FormatReadsBack(year, month0, day);
      forall i | 0 <= i < 10 && i != 4 && i != 7 ensures IsDigit(s[i]) {
        if i < 4 {
          assert s[..4][i] == s[i];
        } else if i < 7 {
          assert s[5..7][i - 5] == s[i];
        } else {
          assert s[8..][i - 8] == s[i];
        }
      }
    } else if -999 <= year <= -100 {
      assert s[0] == '-';
    }
  }

  /** The `editedTask` record of the edit form. */
  datatype EditForm = EditForm(title: JsValue, description: JsValue, deadline: JsValue)

  /** The named inputs of the edit form. */
  datatype Field = TitleField | DescriptionField

  function Get(f: EditForm, name: Field): JsValue
  {
    match name
    case TitleField => f.title
    case DescriptionField => f.description
  }

  /** `handleInputChange`: the named field takes the input's value. */
  function SetField(f: EditForm, name: Field, value: string): (r: EditForm)
    ensures Get(r, name) == Str(value)
    ensures forall other :: other != name ==> Get(r, other) == Get(f, other)
    ensures r.deadline == f.deadline
  {
    match name
    case TitleField => f.(title := Str(value))
    case DescriptionField => f.(description := Str(value))
  }

  /** `handleDateSelect`: only the deadline changes. */
  function SetDeadline(f: EditForm, date: string): (r: EditForm)
    ensures r.deadline == Str(date)
    ensures forall name :: Get(r, name) == Get(f, name)
  {
    f.(deadline := Str(date))
  }

  /** The card's state as far as editing goes. */
  datatype CardState = CardState(isEditing: bool, showMenu: bool, edited: EditForm)

  /** `handleEditClick`: the form starts again from the card's props,
      whatever was typed before; the menu closes. */
  function EditClick(title: JsValue, description: JsValue, deadline: JsValue): (r: CardState)
    ensures r.isEditing && !r.showMenu
    ensures r.edited == EditForm(title, description, deadline)
  {
    CardState(true, false, EditForm(title, description, deadline))
  }

  /** The request body of `handleSaveEdit`: the form's three fields. A field
      that is `undefined` is dropped by `JSON.stringify`, which `Undefined`
      already means. */
  function SaveEditBody(f: EditForm): (b: TaskStore.Body)
    ensures b.title == f.title && b.description == f.description && b.deadline == f.deadline
    ensures b.status.Undefined? && b.duration.Undefined?
  {
    TaskStore.Body(f.title, f.description, f.deadline, Undefined, Undefined)
  }

  /** Saving an edit never changes the stored status. */
  lemma SaveEditKeepsStatus(t: TaskStore.Todo, f: EditForm)
    ensures TaskStore.ApplyUpdate(t, SaveEditBody(f)).status == t.status
  {

  }

  /** The status menu's choices (`handleStatusChange` is called with one of
      these three literals). */
  function MenuStatuses(): (m: seq<string>)
    ensures forall s :: s in m <==> s in TaskStore.StatusEnum
    ensures "Timeout" !in m
    ensures forall i, j :: 0 <= i < j < |m| ==> m[i] != m[j]
  {
    ["To Do", "On Progress", "Done"]
  }

  /** The request body of `handleStatusChange`. */
  function StatusChangeBody(newStatus: string): (b: TaskStore.Body)
    ensures b.status == Str(newStatus)
    ensures b.title.Undefined? && b.description.Undefined? && b.deadline.Undefined? && b.duration.Undefined?
  {
    TaskStore.Body(Undefined, Undefined, Undefined, Str(newStatus), Undefined)
  }

  /** A status change sets the status to the chosen one and nothing else;
      every menu choice gets a priority label other than "Not Set". */
  lemma StatusChangeOnlySetsStatus(t: TaskStore.Todo, newStatus: string)
    requires newStatus in MenuStatuses()
    ensures TaskStore.ApplyUpdate(t, StatusChangeBody(newStatus)) == t.(status := Str(newStatus))
    ensures GetPriority(newStatus) != NotSet
  {

  }
}
