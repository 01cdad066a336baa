/** The request and response schemas of the task routes. */
module Schemas {
  import opened Outcomes
  import Models

  /** `Literal["High", "Medium", "Low"]`. */
  datatype Priority = High | Medium | Low

  function PriorityName(p: Priority): string
  {
    match p
    case High => "High"
    case Medium => "Medium"
    case Low => "Low"
  }

  /** Validation of a request's `priority` string against the literal. */
  function ParsePriority(s: string): (r: Option<Priority>)
    ensures r.Some? <==> s == "High" || s == "Medium" || s == "Low"
    ensures r.Some? ==> PriorityName(r.value) == s
  {
    if s == "High" then Some(High)
    else if s == "Medium" then Some(Medium)
    else if s == "Low" then Some(Low)
    else None
  }

  /** The three names are distinct, so the literal and its name determine each other. */
  lemma PriorityRoundTrip(p: Priority)
    ensures ParsePriority(PriorityName(p)) == Some(p)
  {
  }

  predicate IsPriorityName(s: string) { ParsePriority(s).Some? }

  /** The body of `POST /tasks`: no `completed` field. */
  datatype TodoCreate = TodoCreate(title: string, priority: Priority)

  /** The body of `PUT /tasks/{id}`: `completed` is required. */
  datatype TodoUpdate = TodoUpdate(title: string, priority: Priority, completed: bool)

  /** The response projection of a todo: no owner and no deletion flag. */
  datatype TodoResponse = TodoResponse(id: nat, title: string, priority: string, completed: bool)

  function ToResponse(t: Models.Todo): (r: TodoResponse)
    ensures r.id == t.id && r.title == t.title && r.priority == t.priority && r.completed == t.completed
  {
    TodoResponse(t.id, t.title, t.priority, t.completed)
  }
}
