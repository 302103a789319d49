/**
 * The task objects the client works with (client/src/services/api.js
 * returns the server's documents as JSON).
 */
module ClientTask {
  import opened Js

  /** A task as `fetchTasks` delivers it. `id` is the document's `_id`.
      The title is a string (the search calls `toLowerCase` on it); the
      other fields may be missing, `null` or any scalar JSON value (`Js.JsValue`
      has no arrays or objects). */
  datatype Task = Task(id: string, title: string, description: JsValue, deadline: JsValue,
                       status: JsValue, duration: JsValue, startedAt: JsValue)

  /** The record `mapTasksToColumnFormat` hands to a column. */
  datatype Card = Card(id: string, title: string, description: JsValue, deadline: JsValue,
                       duration: JsValue, startedAt: JsValue, status: JsValue)
}
