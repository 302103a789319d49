/**
 * The server's `/todos` handlers over the document collection
 * (server/index.js): create, list, partial update and delete, each
 * answering with an HTTP status code.
 */
module TaskStore {
  import opened Js
  import opened Wrappers

  /** A document id (a Mongo ObjectId); the store hands out fresh ones. */
  type Id = nat

  /** The `enum` of the schema's `status` path. "Timeout" is not in it. */
  const StatusEnum: set<string> := {"To Do", "On Progress", "Done"}

  /** The status a create stores when the request gives none. */
  const DefaultStatus: string := "To Do"

  /** The fields of a request body the handlers destructure. `duration`
      stands for every other property a client may send; no handler reads it. */
  datatype Body = Body(title: JsValue, description: JsValue, deadline: JsValue,
                       status: JsValue, duration: JsValue)

  /** A stored todo document; `Undefined` is a path that is not set. */
  datatype Todo = Todo(title: JsValue, description: JsValue, deadline: JsValue, status: JsValue)

  datatype Doc = Doc(id: Id, todo: Todo)

  /** The HTTP responses of the four handlers. */
  datatype Reply =
    | Created(created: Doc)
    | Listed(docs: seq<Doc>)
    | Updated(updated: Doc)
    | NoContent
    | BadRequest(message: string)
    | NotFound(message: string)
    | ServerError
  {
    function Code(): (c: nat)
      ensures 200 <= c < 600
      ensures c < 300 <==> !(BadRequest? || NotFound? || ServerError?)
    {
      match this
      case Created(_) => 201
      case Listed(_) => 200
      case Updated(_) => 200
      case NoContent => 204
      case BadRequest(_) => 400
      case NotFound(_) => 404
      case ServerError => 500
    }
  }

  /** The document `new todoModel({...})` builds for a create request: the
      four fields, cast to strings, with a falsy status replaced by the default. */
  function NewTodo(b: Body): (t: Todo)
    ensures Truthy(t.status)
    ensures !Truthy(b.status) ==> t.status == Str(DefaultStatus)
    ensures b.status.Str? && Truthy(b.status) ==> t.status == b.status
    ensures Truthy(b.title) ==> Truthy(t.title)
    ensures t.title == CastString(b.title) && t.description == CastString(b.description)
    ensures t.deadline == CastString(b.deadline)
  {
    Todo(CastString(b.title), CastString(b.description), CastString(b.deadline),
         CastString(Or(b.status, Str(DefaultStatus))))
  }

  /** What `save()` checks against the schema: the title is required and
      the status belongs to the enum. */
  predicate SchemaValid(t: Todo): (ok: bool)
    ensures ok ==> Truthy(t.title) && Truthy(t.status)
    ensures ok ==> t.status != Str("Timeout")
  {
    t.title.Str? && t.title.s != "" && t.status.Str? && t.status.s in StatusEnum
  }

  datatype CreateError = TitleRequired | SchemaViolation

  datatype CreateOutcome = Accepted(todo: Todo) | Rejected(error: CreateError)

  /** The decision of the create handler: a falsy title is refused before
      anything is built; otherwise the built document is saved if the
      schema accepts it. */
  function CheckCreate(b: Body): (r: CreateOutcome)
    ensures r == Rejected(TitleRequired) <==> !Truthy(b.title)
    ensures r.Accepted? <==> Truthy(b.title) && SchemaValid(NewTodo(b))
    ensures r.Accepted? ==> r.todo == NewTodo(b) && SchemaValid(r.todo)
  {
    if !Truthy(b.title) then Rejected(TitleRequired)
    else if SchemaValid(NewTodo(b)) then Accepted(NewTodo(b))
    else Rejected(SchemaViolation)
  }

  /** A number can never be cast to one of the enum's names: its decimal
      form starts with a digit or a minus sign. */
  lemma NumberIsNoStatus(n: int)
    ensures IntToString(n) !in StatusEnum
  {
    var s := IntToString(n);
    assert s[0] == '-' || IsDigit(s[0]);
    assert forall e :: e in StatusEnum ==> e[0] in {'T', 'O', 'D'};
  }

  /** With a title, create accepts a request exactly when its status is
      absent or falsy (then "To Do" is stored) or names a value of the enum
      (then that value is stored). */
  lemma {:induction false} CreateStatusRule(b: Body)
    requires Truthy(b.title)
    ensures !Truthy(b.status) ==> CheckCreate(b).Accepted? && CheckCreate(b).todo.status == Str("To Do")
    ensures CheckCreate(b).Accepted? <==> !Truthy(b.status) || (b.status.Str? && b.status.s in StatusEnum)
    ensures CheckCreate(b).Accepted? ==> CheckCreate(b).todo.title == CastString(b.title)
    ensures b.status.Str? && b.status.s in StatusEnum ==> CheckCreate(b).todo.status == b.status
  {
    var t := NewTodo(b);
    assert t.title.Str? && t.title.s != "" by {
      match b.title
      case Num(n) => assert t.title == Str(IntToString(n));
      case Bool(v) => assert t.title == Str("true");
      case _ =>
    }
    if b.status.Num? && b.status.n != 0 {
      NumberIsNoStatus(b.status.n);
    }
  }

  /** A create request for the status "Timeout" fails validation: it is
      answered with 500 and nothing is stored. */
  lemma TimeoutIsRejectedOnCreate(b: Body)
    requires Truthy(b.title) && b.status == Str("Timeout")
    ensures CheckCreate(b) == Rejected(SchemaViolation)
  {
    CreateStatusRule(b);
  }

  /** `updateData` of the update handler: each of the four fields that is
      not `undefined` in the body, and nothing else. */
  datatype Patch = Patch(title: Option<JsValue>, description: Option<JsValue>,
                         deadline: Option<JsValue>, status: Option<JsValue>)

  function SetPath(current: JsValue, given: Option<JsValue>): (r: JsValue)
    ensures given.None? ==> r == current
    ensures given.Some? ==> r == CastString(given.value)
  {
    match given
    case None => current
    case Some(v) => CastString(v)
  }

  /** `findByIdAndUpdate` with a patch: every path the patch names is set
      (cast to a string; `null` stays `null`), every other path is kept. */
  function ApplyPatch(t: Todo, p: Patch): (r: Todo)
    ensures r.title == (if p.title.Some? then CastString(p.title.value) else t.title)
    ensures r.description == (if p.description.Some? then CastString(p.description.value) else t.description)
    ensures r.deadline == (if p.deadline.Some? then CastString(p.deadline.value) else t.deadline)
    ensures r.status == (if p.status.Some? then CastString(p.status.value) else t.status)
    ensures p == Patch(None, None, None, None) ==> r == t
  {
    Todo(SetPath(t.title, p.title), SetPath(t.description, p.description),
         SetPath(t.deadline, p.deadline), SetPath(t.status, p.status))
  }

  function Present(v: JsValue): Option<JsValue>
  {
    if v.Undefined? then None else Some(v)
  }

  /** The document an update request leaves behind: exactly the fields that
      are not `undefined` are copied (so a `null` is copied too), every other
      field is kept. */
  function ApplyUpdate(t: Todo, b: Body): (r: Todo)
    ensures r.title == if b.title.Undefined? then t.title else CastString(b.title)
    ensures r.description == if b.description.Undefined? then t.description else CastString(b.description)
    ensures r.deadline == if b.deadline.Undefined? then t.deadline else CastString(b.deadline)
    ensures r.status == if b.status.Undefined? then t.status else CastString(b.status)
    ensures b.status == Null ==> r.status == Null
  {
    ApplyPatch(t, Patch(Present(b.title), Present(b.description),
                        Present(b.deadline), Present(b.status)))
  }

  /** A body whose four fields are all `undefined` (for example one that
      carries only `duration`) changes nothing. */
  lemma UpdateIgnoresOtherFields(t: Todo, b: Body)
    requires b.title.Undefined? && b.description.Undefined? && b.deadline.Undefined? && b.status.Undefined?
    ensures ApplyUpdate(t, b) == t
  {
  }

  /** Sending the same update twice has the effect of sending it once. */
  lemma UpdateIdempotent(t: Todo, b: Body)
    ensures ApplyUpdate(ApplyUpdate(t, b), b) == ApplyUpdate(t, b)
  {
  }

  /** The sequence without any occurrence of `x`, order kept. */
  function Remove(s: seq<Id>, x: Id): (r: seq<Id>)
    ensures forall y :: y in r <==> y in s && y != x
    ensures Distinct(s) ==> Distinct(r)
  {
    if s == [] then []
    else
      var rest := Remove(s[1..], x);
      assert Distinct(s) ==> Distinct(s[1..]) && s[0] !in s[1..];
      if s[0] == x then rest else [s[0]] + rest
  }

  predicate Distinct(s: seq<Id>)
  {
    forall i, j :: 0 <= i < j < |s| ==> s[i] != s[j]
  }

  /** Appending an id that is not yet present keeps a list distinct. */
  lemma DistinctSnoc(s: seq<Id>, x: Id)
    requires Distinct(s) && x !in s
    ensures Distinct(s + [x])
    ensures forall y :: y in s + [x] <==> y in s || y == x
  {
    forall i, j | 0 <= i < j < |s + [x]| ensures (s + [x])[i] != (s + [x])[j] {
      if j == |s| {
        assert (s + [x])[i] == s[i];
      } else {
        assert (s + [x])[i] == s[i] && (s + [x])[j] == s[j];
      }
    }
  }

  function Elements(s: seq<Id>): set<Id>
  {
    set x | x in s
  }

  /** A sequence without repetitions has as many elements as its set. */
  lemma {:induction false} DistinctCardinality(s: seq<Id>)
    requires Distinct(s)
    ensures |Elements(s)| == |s|
  {
    if s != [] {
      var tail := s[1..];
      assert Distinct(tail);
      DistinctCardinality(tail);
      assert Elements(s) == Elements(tail) + {s[0]};
    } else {
      assert Elements(s) == {};
    }
  }

  /** The collection: documents by id, and the order `find()` lists them in. */
  class Store {
    var docs: map<Id, Todo>
    var order: seq<Id>

    ghost predicate Valid()
      reads this
    {
      Distinct(order) && forall id :: id in docs <==> id in order
    }

    constructor ()
      ensures Valid() && docs == map[] && order == []
    {
      docs := map[];
      order := [];
    }

    /** POST /todos with `freshId` as the id the database assigns. */
    method Create(b: Body, freshId: Id) returns (r: Reply)
      requires Valid() && freshId !in docs
      modifies this
      ensures Valid()
      ensures CheckCreate(b).Accepted? ==>
                r == Created(Doc(freshId, CheckCreate(b).todo)) && r.Code() == 201
                && docs == old(docs)[freshId := CheckCreate(b).todo] && order == old(order) + [freshId]
      ensures CheckCreate(b) == Rejected(TitleRequired) ==>
                r == BadRequest("Title is required") && r.Code() == 400
                && docs == old(docs) && order == old(order)
      ensures CheckCreate(b) == Rejected(SchemaViolation) ==>
                r == ServerError && r.Code() == 500 && docs == old(docs) && order == old(order)
    {
      if !Truthy(b.title) {
        return BadRequest("Title is required");
      }
      var todo := NewTodo(b);
      if !SchemaValid(todo) {
        return ServerError;
      }
      DistinctSnoc(order, freshId);
      docs := docs[freshId := todo];
      order := order + [freshId];
      r := Created(Doc(freshId, todo));
    }

    /** GET /todos: every stored document, each once. */
    method GetAll() returns (r: Reply)
      requires Valid()
      ensures r.Listed? && r.Code() == 200
      ensures |r.docs| == |docs|
      ensures forall i :: 0 <= i < |r.docs| ==> r.docs[i].id in docs && docs[r.docs[i].id] == r.docs[i].todo
      ensures forall id :: id in docs ==> exists i :: 0 <= i < |r.docs| && r.docs[i].id == id
      ensures forall i, j :: 0 <= i < j < |r.docs| ==> r.docs[i].id != r.docs[j].id
    {
      var ids, stored := order, docs;
      var list := seq(|ids|, i requires 0 <= i < |ids| && ids[i] in stored => Doc(ids[i], stored[ids[i]]));
      DistinctCardinality(order);
      assert docs.Keys == Elements(order);
      forall id | id in docs ensures exists i :: 0 <= i < |list| && list[i].id == id {
        var i :| 0 <= i < |order| && order[i] == id;
        assert list[i].id == id;
      }
      r := Listed(list);
    }

    /** PUT /todos/:id. */
    method Update(id: Id, b: Body) returns (r: Reply)
      requires Valid()
      modifies this
      ensures Valid() && order == old(order)
      ensures id !in old(docs) ==> r == NotFound("Todo not found") && r.Code() == 404 && docs == old(docs)
      ensures id in old(docs) ==>
                docs == old(docs)[id := ApplyUpdate(old(docs)[id], b)]
                && r == Updated(Doc(id, docs[id])) && r.Code() == 200
    {
      var updateData := Patch(None, None, None, None);
      if !b.title.Undefined? { updateData := updateData.(title := Some(b.title)); }
      if !b.description.Undefined? { updateData := updateData.(description := Some(b.description)); }
      if !b.deadline.Undefined? { updateData := updateData.(deadline := Some(b.deadline)); }
      if !b.status.Undefined? { updateData := updateData.(status := Some(b.status)); }
      if id !in docs {
        return NotFound("Todo not found");
      }
      var updated := ApplyPatch(docs[id], updateData);
      docs := docs[id := updated];
      r := Updated(Doc(id, updated));
    }

    /** DELETE /todos/:id: 204 whether or not the id was stored. */
    method Delete(id: Id) returns (r: Reply)
      requires Valid()
      modifies this
      ensures Valid()
      ensures r == NoContent && r.Code() == 204
      ensures id !in docs && docs == old(docs) - {id} && order == Remove(old(order), id)
    {
      docs := docs - {id};
      order := Remove(order, id);
      r := NoContent;
    }
  }
}
