/** The data model of the in-memory task service: a task record, the table
    that maps task ids to tasks, the responses a handler can give, and the
    table every server process starts with. */
module Tasks {

  /** The outcome of decoding a request body: `None` when the body is not a
      well-formed task. */
  datatype Option<+T> = None | Some(value: T)

  /** One task record. `applications` is the list of tools the task needs. */
  datatype Task = Task(
    id: string,
    description: string,
    note: string,
    applications: seq<string>,
    name: string)

  /** The store: task id to task. */
  type Table = map<string, Task>

  /** What a handler answers, with the HTTP status it stands for. */
  datatype Response =
    | Listed(all: Table)   // 200, the whole table
    | Ok(task: Task)       // 200, one task
    | Created(task: Task)  // 201, the task just stored
    | NoContent            // 204, empty body
    | BadRequest           // 400, the body did not decode
    | NotFound             // 404, no task under the id

  /** The HTTP status code that a response is written with. */
  function StatusCode(r: Response): (code: int)
    ensures (200 <= code < 300) <==> !(r.BadRequest? || r.NotFound?)
    ensures r.BadRequest? <==> code == 400
    ensures r.NotFound? <==> code == 404
    ensures r.Created? <==> code == 201
    ensures r.NoContent? <==> code == 204
    ensures r.Listed? || r.Ok? <==> code == 200
  {
    match r
    case Listed(_) => 200
    case Ok(_) => 200
    case Created(_) => 201
    case NoContent => 204
    case BadRequest => 400
    case NotFound => 404
  }

  /** Two tasks carry the same content: every field but the id agrees. */
  predicate SameContent(a: Task, b: Task) {
    && a.description == b.description
    && a.note == b.note
    && a.applications == b.applications
    && a.name == b.name
  }

  /** The store invariant: every key is non-empty and is the id of the task
      stored under it. Ids are therefore unique across the table. */
  ghost predicate KeyedById(m: Table) {
    forall k :: k in m ==> k != "" && m[k].id == k
  }

  /** The table a fresh process starts with: two tasks, under "1" and "2". */
  function Seed(): (m: Table)
    ensures m.Keys == {"1", "2"}
    ensures KeyedById(m)
  {
    map[
      "1" := Task(
        "1",
        "Сделать финальное задание темы REST API",
        "Если сегодня сделаю, то завтра будет свободный день. Ура!",
        ["VS Code", "Terminal", "git"],
        ""),
      "2" := Task(
        "2",
        "Протестировать финальное задание с помощью Postmen",
        "Лучше это делать в процессе разработки, каждый раз, когда запускаешь сервер и проверяешь хендлер",
        ["VS Code", "Terminal", "git", "Postman"],
        "")
    ]
  }
}
