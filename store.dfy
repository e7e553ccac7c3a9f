/** The task store as the server holds it: one table that the handlers read
    and change in place. Each method does what its handler does, step by
    step, and is proved to give the response and leave the table that the
    matching function of module Handlers describes. */
module Store {
  import opened Tasks
  import Handlers

  class TaskStore {
    var tasks: Table

    /** The store invariant: every task is stored under its own id. */
    ghost predicate Valid()
      reads this
    {
      KeyedById(tasks)
    }

    /** A started process holds the two seeded tasks. */
    constructor ()
      ensures Valid()
      ensures tasks == Seed()
    {
      tasks := Seed();
    }

    /** GET /tasks: the whole table, read only. */
    method GetTasks() returns (r: Response)
      requires Valid()
      ensures r == Listed(tasks)
      ensures forall k :: k in r.all ==> r.all[k].id == k
    {
      r := Listed(tasks);
    }

    /** GET /tasks/{id}: read only. */
    method GetTask(id: string) returns (r: Response)
      requires Valid()
      ensures r == Handlers.Get(tasks, id)
      ensures r.Ok? ==> r.task.id == id
    {
      if id !in tasks {
        return NotFound;
      }
      var task := tasks[id];
      r := Ok(task);
    }

    /** POST /tasks. `newId` stands for the random id the server generates;
        it is non-empty and not yet a key. */
    method CreateTask(body: Option<Task>, newId: string) returns (r: Response)
      requires Valid()
      requires newId != "" && newId !in tasks
      modifies this
      ensures Valid()
      ensures Handlers.Step(r, tasks) == Handlers.Create(old(tasks), body, newId)
      ensures body.None? ==> r == BadRequest && tasks == old(tasks)
      ensures body.Some? ==> r.Created? && tasks == old(tasks)[newId := r.task]
      ensures body.Some? ==> |tasks| == |old(tasks)| + 1
    {
      if body.None? {
        return BadRequest;
      }
      var newTask := body.value;
      newTask := newTask.(id := newId);
      tasks := tasks[newTask.id := newTask];
      Handlers.CreateFreshId(old(tasks), body.value, newId);
      r := Created(newTask);
    }

    /** PUT /tasks/{id}. */
    method UpdateTask(id: string, body: Option<Task>) returns (r: Response)
      requires Valid()
      modifies this
      ensures Valid()
      ensures Handlers.Step(r, tasks) == Handlers.Update(old(tasks), id, body)
      ensures r.BadRequest? || r.NotFound? ==> tasks == old(tasks)
      ensures r.Ok? ==> r.task.id == id && tasks == old(tasks)[id := r.task]
    {
      if body.None? {
        return BadRequest;
      }
      if id !in tasks {
        return NotFound;
      }
      var updatedTask := body.value;
      updatedTask := updatedTask.(id := id);
      tasks := tasks[id := updatedTask];
      r := Ok(updatedTask);
    }

    /** DELETE /tasks/{id}. */
    method DeleteTask(id: string) returns (r: Response)
      requires Valid()
      modifies this
      ensures Valid()
      ensures Handlers.Step(r, tasks) == Handlers.Delete(old(tasks), id)
      ensures r.NotFound? ==> tasks == old(tasks)
      ensures r.NoContent? ==> tasks == old(tasks) - {id} && id !in tasks
    {
      if id !in tasks {
        return NotFound;
      }
      tasks := tasks - {id};
      r := NoContent;
    }

    /** The router: one request, sent to the handler for its route. */
    method Serve(req: Handlers.Request) returns (r: Response)
      requires Valid()
      requires req.CreateOne? ==> req.newId != "" && req.newId !in tasks
      modifies this
      ensures Valid()
      ensures Handlers.Step(r, tasks) == Handlers.Apply(old(tasks), req)
    {
      match req
      case ListAll => r := GetTasks();
      case GetOne(id) => r := GetTask(id);
      case CreateOne(body, newId) => r := CreateTask(body, newId);
      case UpdateOne(id, body) => r := UpdateTask(id, body);
      case DeleteOne(id) => r := DeleteTask(id);
    }
  }
}
