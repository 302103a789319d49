/**
 * One column of the board (client/src/Components/KanbanColumn.jsx): the
 * status it derives from its title and the props it gives each card.
 */
module KanbanColumn {
  import opened Js
  import ClientTask
  import TaskStore
  import TaskCard
  import KanbanBoard

  /** `getStatusFromTitle`: the three schema statuses name their own
      column; any other title, "Timeout" included, gives "". */
  function StatusFromTitle(title: string): (s: string)
    ensures title in TaskStore.StatusEnum ==> s == title
    ensures title !in TaskStore.StatusEnum ==> s == ""
  {
    match title
    case "To Do" => "To Do"
    case "On Progress" => "On Progress"
    case "Done" => "Done"
    case _ => ""
  }

  /** The props of one `TaskCard`. */
  datatype CardProps = CardProps(id: string, title: string, description: JsValue,
                                 deadline: JsValue, status: string)

  /** `tasks.map(...)`: every card keeps its id, title, description and
      deadline, and gets the column's status in place of its own. */
  function ColumnCardProps(title: string, cards: seq<ClientTask.Card>): (ps: seq<CardProps>)
    ensures |ps| == |cards|
    ensures forall i :: 0 <= i < |cards| ==>
              ps[i] == CardProps(cards[i].id, cards[i].title, cards[i].description,
                                 cards[i].deadline, StatusFromTitle(title))
  {
    seq(|cards|, i requires 0 <= i < |cards| =>
      CardProps(cards[i].id, cards[i].title, cards[i].description, cards[i].deadline, StatusFromTitle(title)))
  }

  /** The priority of every card in a column depends only on the column's
      title: it is "Not Set" for every card exactly when the title is not a
      schema status, so in the "Timeout" column a card shows "Not Set"
      whatever its own status is. */
  lemma ColumnPriority(title: string, cards: seq<ClientTask.Card>)
    ensures forall p :: p in ColumnCardProps(title, cards) ==>
              (TaskCard.GetPriority(p.status) == TaskCard.NotSet <==> title !in TaskStore.StatusEnum)
    ensures forall p :: p in ColumnCardProps(title, cards) ==>
              p.status in TaskStore.StatusEnum || p.status == ""
  {
    var ps := ColumnCardProps(title, cards);
    forall p | p in ps
      ensures TaskCard.GetPriority(p.status) == TaskCard.NotSet <==> title !in TaskStore.StatusEnum
    {
      var i :| 0 <= i < |ps| && ps[i] == p;
      assert p.status == StatusFromTitle(title);
    }
  }

  lemma TimeoutColumnShowsNotSet(cards: seq<ClientTask.Card>)
    ensures forall p :: p in ColumnCardProps("Timeout", cards) ==>
              TaskCard.GetPriority(p.status) == TaskCard.NotSet && p.status == ""
  {
    ColumnPriority("Timeout", cards);
  }

  /** A task without a deadline reaches its card as "Not set"; opening the
      card's edit form and saving it unchanged sends that text, so the
      server then stores "Not set" as the deadline. */
  lemma MissingDeadlineIsSavedAsNotSet(t: ClientTask.Task, title: string, stored: TaskStore.Todo)
    requires !Truthy(t.deadline)
    ensures var p := ColumnCardProps(title, KanbanBoard.MapToCards([t]))[0];
            var form := TaskCard.EditClick(Str(p.title), p.description, p.deadline).edited;
            TaskStore.ApplyUpdate(stored, TaskCard.SaveEditBody(form)).deadline == Str("Not set")
  {
  }
}
