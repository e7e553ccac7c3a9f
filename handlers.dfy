/** What each of the five handlers does to the table, as functions from the
    table before a request to the response and the table after it, and the
    properties of runs of requests. The class in module Store performs the
    same steps in place; its methods are proved equal to these functions. */
module Handlers {
  import opened Tasks

  /** The response to one request and the table it leaves behind. */
  datatype Step = Step(response: Response, tasks: Table)

  /** `m'` agrees with `m` on every key other than `k`: the same keys are
      present and they hold the same tasks. */
  ghost predicate SameExcept(m: Table, m': Table, k: string) {
    forall x :: x != k ==> (x in m <==> x in m') && (x in m ==> m'[x] == m[x])
  }

  /** GET /tasks/{id}: the stored task, or NotFound. */
  function Get(m: Table, id: string): (r: Response)
    ensures r.Ok? <==> id in m
    ensures r.Ok? ==> r.task == m[id]
    ensures !r.Ok? ==> r == NotFound
  {
    if id in m then Ok(m[id]) else NotFound
  }

  /** POST /tasks with the decoded body and the id the server generated.
      Whatever id the body carried is replaced by `newId`; the task is then
      stored under `newId`, as a map assignment does. */
  function Create(m: Table, body: Option<Task>, newId: string): (s: Step)
    ensures body.None? ==> s == Step(BadRequest, m)
    ensures body.Some? ==>
      && s.response.Created?
      && newId in s.tasks
      && s.response.task == s.tasks[newId]
      && s.response.task.id == newId
      && SameContent(s.response.task, body.value)
      && s.tasks.Keys == m.Keys + {newId}
      && SameExcept(m, s.tasks, newId)
  {
    match body
    case None => Step(BadRequest, m)
    case Some(t) =>
      var stored := t.(id := newId);
      Step(Created(stored), m[newId := stored])
  }

  /** PUT /tasks/{id}: the body is decoded before the id is looked up, so a
      malformed body is a BadRequest even for an absent id. On success the
      whole stored task is replaced, with its id forced to the path id. */
  function Update(m: Table, id: string, body: Option<Task>): (s: Step)
    ensures body.None? ==> s == Step(BadRequest, m)
    ensures body.Some? && id !in m ==> s == Step(NotFound, m)
    ensures body.Some? && id in m ==>
      && s.response.Ok?
      && s.tasks.Keys == m.Keys
      && s.tasks[id] == s.response.task
      && s.response.task.id == id
      && SameContent(s.response.task, body.value)
      && SameExcept(m, s.tasks, id)
  {
    match body
    case None => Step(BadRequest, m)
    case Some(t) =>
      if id !in m then Step(NotFound, m)
      else
        var stored := t.(id := id);
        Step(Ok(stored), m[id := stored])
  }

  /** DELETE /tasks/{id}: NotFound for an absent id, otherwise the entry is
      removed and the answer has no body. */
  function Delete(m: Table, id: string): (s: Step)
    ensures id !in m ==> s == Step(NotFound, m)
    ensures id in m ==>
      && s.response == NoContent
      && s.tasks.Keys == m.Keys - {id}
      && SameExcept(m, s.tasks, id)
  {
    if id !in m then Step(NotFound, m) else Step(NoContent, m - {id})
  }

  /** The five routes. A create request carries the id the server generated
      for it. */
  datatype Request =
    | ListAll
    | GetOne(id: string)
    | CreateOne(body: Option<Task>, newId: string)
    | UpdateOne(id: string, body: Option<Task>)
    | DeleteOne(id: string)

  /** Generated ids are never empty. */
  predicate ValidRequest(req: Request) {
    req.CreateOne? ==> req.newId != ""
  }

  /** Dispatch of one request to its handler, handled as one atomic step. */
  function Apply(m: Table, req: Request): (s: Step)
    ensures (req.ListAll? || req.GetOne?) ==> s.tasks == m
    ensures req.ListAll? ==> s.response == Listed(m)
    ensures s.response.BadRequest? || s.response.NotFound? ==> s.tasks == m
    ensures KeyedById(m) && ValidRequest(req) ==> KeyedById(s.tasks)
  {
    match req
    case ListAll => Step(Listed(m), m)
    case GetOne(id) => Step(Get(m, id), m)
    case CreateOne(body, newId) => Create(m, body, newId)
    case UpdateOne(id, body) => Update(m, id, body)
    case DeleteOne(id) => Delete(m, id)
  }

  /** The table after serving `reqs` one after the other, starting from `m`. */
  function Final(m: Table, reqs: seq<Request>): Table
    decreases |reqs|
  {
    if reqs == [] then m else Final(Apply(m, reqs[0]).tasks, reqs[1..])
  }

  /** The store invariant holds after any sequence of requests. */
  lemma {:induction false} FinalKeyedById(m: Table, reqs: seq<Request>)
    requires KeyedById(m)
    requires forall i :: 0 <= i < |reqs| ==> ValidRequest(reqs[i])
    ensures KeyedById(Final(m, reqs))
    decreases |reqs|
  {
    if reqs != [] {
      assert ValidRequest(reqs[0]);
      FinalKeyedById(Apply(m, reqs[0]).tasks, reqs[1..]);
    }
  }

  // ---------------------------------------------------------------------
  // A reference definition that looks at one key only.

  /** What the table holds under `k`. */
  function Cell(m: Table, k: string): Option<Task> {
    if k in m then Some(m[k]) else None
  }

  /** The effect of one request on the entry for `k`, knowing only that
      entry: a create under `k` or an update of a present `k` writes it, a
      delete of `k` clears it, and every other request leaves it alone. */
  function CellStep(c: Option<Task>, k: string, req: Request): Option<Task> {
    match req
    case CreateOne(Some(t), newId) =>
      if newId == k then Some(t.(id := k)) else c
    case UpdateOne(id, Some(t)) =>
      if id == k && c.Some? then Some(t.(id := k)) else c
    case DeleteOne(id) =>
      if id == k then None else c
    case _ => c
  }

  /** The entry for `k` after `reqs`, computed from that entry alone. */
  function CellRun(c: Option<Task>, k: string, reqs: seq<Request>): Option<Task>
    decreases |reqs|
  {
    if reqs == [] then c else CellRun(CellStep(c, k, reqs[0]), k, reqs[1..])
  }

  /** One request changes an entry exactly as CellStep says. */
  lemma ApplyIsLocal(m: Table, req: Request, k: string)
    ensures Cell(Apply(m, req).tasks, k) == CellStep(Cell(m, k), k, req)
  {
  }

  /** After any sequence of requests, the entry under each key is its last
      successful write (or absent after a later delete): the listing holds
      exactly the surviving tasks, each as last written, and requests on
      other keys never disturb it. */
  lemma {:induction false} FinalIsLocal(m: Table, reqs: seq<Request>, k: string)
    ensures Cell(Final(m, reqs), k) == CellRun(Cell(m, k), k, reqs)
    decreases |reqs|
  {
    if reqs != [] {
      ApplyIsLocal(m, reqs[0], k);
      FinalIsLocal(Apply(m, reqs[0]).tasks, reqs[1..], k);
    }
  }

  /** Whether a request may write the entry for `k`: a create under `k`, or
      an update or delete whose path id is `k`. Lists and gets only read. */
  predicate WritesTo(req: Request, k: string) {
    match req
    case ListAll => false
    case GetOne(_) => false
    case CreateOne(_, newId) => newId == k
    case UpdateOne(id, _) => id == k
    case DeleteOne(id) => id == k
  }

  /** The single-key reference keeps an entry that no request writes. */
  lemma {:induction false} CellRunUnwritten(c: Option<Task>, k: string, reqs: seq<Request>)
    requires forall i :: 0 <= i < |reqs| ==> !WritesTo(reqs[i], k)
    ensures CellRun(c, k, reqs) == c
    decreases |reqs|
  {
    if reqs != [] {
      assert !WritesTo(reqs[0], k);
      CellRunUnwritten(CellStep(c, k, reqs[0]), k, reqs[1..]);
    }
  }

  /** Requests that never write `k` leave its entry as it was, however many
      other keys they create, update, delete or read. */
  lemma UntouchedKeyKeepsValue(m: Table, reqs: seq<Request>, k: string)
    requires forall i :: 0 <= i < |reqs| ==> !WritesTo(reqs[i], k)
    ensures Cell(Final(m, reqs), k) == Cell(m, k)
  {
    FinalIsLocal(m, reqs, k);
    CellRunUnwritten(Cell(m, k), k, reqs);
  }

  // ---------------------------------------------------------------------
  // Properties of single handlers and short sequences.

  /** A created task is what a following get returns. */
  lemma CreateThenGet(m: Table, t: Task, newId: string)
    ensures var s := Create(m, Some(t), newId);
      Get(s.tasks, newId) == Ok(s.response.task) && SameContent(s.response.task, t)
  {
  }

  /** A generated id that is fresh and non-empty keeps the invariant, makes
      the table one larger and differs from the id of every other task. */
  lemma CreateFreshId(m: Table, t: Task, newId: string)
    requires KeyedById(m)
    requires newId != "" && newId !in m
    ensures var s := Create(m, Some(t), newId);
      && KeyedById(s.tasks)
      && |s.tasks| == |m| + 1
      && s.response.task.id != ""
      && forall k :: k in s.tasks && k != newId ==> s.tasks[k].id != s.response.task.id
  {
  }

  /** After a successful delete the id is gone, whatever the table was. */
  lemma DeleteThenGet(m: Table, id: string)
    ensures Get(Delete(m, id).tasks, id) == NotFound
  {
  }

  /** Deleting an id twice: the second attempt is NotFound. */
  lemma DeleteTwice(m: Table, id: string)
    ensures Delete(Delete(m, id).tasks, id).response == NotFound
  {
  }

  /** An update with a well-formed body answers with the path id, whatever id
      the body carried, and a get afterwards returns that same task. */
  lemma UpdateThenGet(m: Table, id: string, t: Task)
    requires id in m
    ensures var s := Update(m, id, Some(t));
      s.response.Ok? && s.response.task.id == id && Get(s.tasks, id) == s.response
  {
  }

  /** On a freshly started store: a get of "1" returns the first seeded task,
      an update of the absent id "999" is NotFound, and a get of "1" after
      deleting "1" is NotFound. */
  lemma FreshStoreScenarios()
    ensures Get(Seed(), "1").Ok?
    ensures Get(Seed(), "1").task.description == "Сделать финальное задание темы REST API"
    ensures Update(Seed(), "999", Some(Seed()["1"])).response == NotFound
    ensures Get(Delete(Seed(), "1").tasks, "1") == NotFound
  {
  }
}
