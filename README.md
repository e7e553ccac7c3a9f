# In-memory task store

A model of a small REST service that keeps tasks in memory. The service holds
one table from task id to task. Every process starts with two seeded tasks,
under "1" and "2". Five handlers serve the routes:

- `GET /tasks` lists the whole table.
- `GET /tasks/{id}` returns one task or 404.
- `POST /tasks` decodes a task and replaces its id with a freshly generated one. It stores the task and answers 201.
- `PUT /tasks/{id}` decodes a task, then checks that the id exists. It replaces the stored task, with the id forced to the path id.
- `DELETE /tasks/{id}` removes an existing task and answers 204.

The project has three modules:

- `Tasks` (tasks.dfy) holds the data model. It defines the task record, the table, the responses and their status codes, the seeded table, and the store invariant `KeyedById`. The invariant says every key is non-empty and is the id of the task stored under it.
- `Handlers` (handlers.dfy) gives each handler as a function from the table before a request to the response and the table after it. `Apply` dispatches one request, and `Final` runs a sequence of requests. Its lemmas state the properties of single handlers and of whole runs. Among them, `CellStep`/`CellRun` is a reference definition that follows a single key. `FinalIsLocal` proves that after any run, each key holds exactly what that reference gives: its last successful write, or nothing after a delete.
- `Store` (store.dfy) is the store as the server holds it: a class with a `map` field that the handler methods update in place. Each method is proved to return the response and leave the table that the matching `Handlers` function describes. Each method also keeps the invariant.

The request body is given as an `Option<Task>`, where `None` means the body did not decode. The generated id is a parameter of the create operation. The class method requires that this id is non-empty and not already a key, which is what the random UUID generator is relied on for. The pure `Handlers.Create` accepts any id and overwrites, as the map assignment in the source does.

## Model

| member | source | states |
|---|---|---|
| `Tasks.StatusCode` | precode.go:49-137 | 200 means Listed or Ok, the default status of list, get and a successful update. 201 means Created and 204 means NoContent. 400 means BadRequest and 404 means NotFound. Exactly the success responses are in the 2xx range. |
| `Tasks.Seed` | precode.go:21-43 | The start table has exactly the keys "1" and "2", and it satisfies the store invariant (each key is non-empty and equals its task's id). |
| `Handlers.Get` | precode.go:62-81 | The result is Ok exactly when the id is a key, and then it carries the stored task. Otherwise it is NotFound. |
| `Handlers.Create` | precode.go:84-97 | A malformed body gives BadRequest and leaves the table unchanged. Otherwise the result is Created with the stored task. That task's id is the generated id, whatever the body carried, and its other fields are the body's. The keys become the old keys plus the new id, and no other entry changes. |
| `Handlers.Update` | precode.go:100-126 | A malformed body gives BadRequest with the table unchanged, even for an absent id. A well-formed body with an absent id gives NotFound with the table unchanged. Otherwise the result is Ok with a task that carries the path id and the body's other fields. That task is stored under the path id, the key set is unchanged, and no other entry changes. |
| `Handlers.Delete` | precode.go:129-137 | An absent id gives NotFound with the table unchanged. A present id gives NoContent, removes exactly that key and leaves all other entries unchanged. |
| `Handlers.Apply` | precode.go:144-149 | List and get do not change the table, and list returns the whole table. Any BadRequest or NotFound leaves the table unchanged. Every request keeps the store invariant, provided a generated id is non-empty. |
| `Handlers.FinalKeyedById` | precode.go:92-116 | The store invariant holds after any sequence of requests whose generated ids are non-empty. |
| `Handlers.ApplyIsLocal` | precode.go:84-137 | One request changes the entry under any key exactly as the single-key reference `CellStep` says. |
| `Handlers.FinalIsLocal` | precode.go:49-137 | After any sequence of requests, the entry under each key is the one the single-key reference computes from that key's requests alone. So the listing holds exactly the surviving tasks, each as last written. |
| `Handlers.UntouchedKeyKeepsValue` | precode.go:94-135 | A run of requests that never writes a key leaves that key's entry as it was. Such a run may still read that key. It follows from `FinalIsLocal` and `CellRunUnwritten`. |
| `Handlers.CellRunUnwritten` | precode.go:94-135 | The single-key reference leaves an entry unchanged when none of the requests creates, updates or deletes that key. |
| `Handlers.CreateThenGet` | precode.go:91-96 | A get right after a create returns the created task, with the body's content. |
| `Handlers.CreateFreshId` | precode.go:91-94 | With a fresh non-empty generated id, create keeps the invariant and grows the table by one. The new id is non-empty and differs from every other task's id. |
| `Handlers.DeleteThenGet` | precode.go:130-135 | A get after a delete of the same id is NotFound. |
| `Handlers.DeleteTwice` | precode.go:130-135 | A second delete of the same id is NotFound. |
| `Handlers.UpdateThenGet` | precode.go:108-116 | An update of a present id answers with a task whose id is the path id. A following get returns that same task. |
| `Handlers.FreshStoreScenarios` | precode.go:21-43 | On a fresh store, get "1" returns the first seeded task with its description, and update "999" is NotFound. A get of "1" after deleting "1" is NotFound. |
| `Store.TaskStore.constructor` | precode.go:21-43 | The new store holds the seeded table and satisfies the invariant. |
| `Store.TaskStore.GetTasks` | precode.go:49-59 | Returns the whole table without changing it. Every listed task's id is its key. |
| `Store.TaskStore.GetTask` | precode.go:62-81 | Read only. Returns what `Handlers.Get` gives, and a found task carries the requested id. |
| `Store.TaskStore.CreateTask` | precode.go:84-97 | The response and new table are those of `Handlers.Create`, and the invariant is kept. A malformed body leaves the table unchanged. Otherwise the table is the old one plus the new id, one entry larger. |
| `Store.TaskStore.UpdateTask` | precode.go:100-126 | The response and new table are those of `Handlers.Update`, and the invariant is kept. On failure the table is unchanged. On success only the path id's entry is replaced, with a task carrying the path id. |
| `Store.TaskStore.DeleteTask` | precode.go:129-137 | The response and new table are those of `Handlers.Delete`, and the invariant is kept. On success exactly the id is removed. |
| `Store.TaskStore.Serve` | precode.go:144-149 | Serving one request in place gives the response and table of `Handlers.Apply`, and the invariant is kept. |

## Left out

- JSON encoding and decoding are not modelled. Decoding is a parameter: an `Option<Task>` body, where `None` means malformed. The 500 responses for a failed encode are not modelled. Field defaults for missing JSON keys, unknown keys and the nil-versus-empty `applications` list belong to the decoder.
- UUID generation is not modelled. The generated id is a parameter, and `Store.TaskStore.CreateTask` requires it to be non-empty and fresh. Global uniqueness of random ids is not proved.
- Response headers, the text of error messages, route registration with the router library and server start-up (`main`) are left out. They are I/O plumbing. `Serve` stands for the dispatch only.
- Concurrency is left out. The source reads and writes the shared map without synchronisation. The model treats each request as one atomic step and a run as a sequence of such steps.
