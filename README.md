# Eventos-API event registry, modelled in Dafny

This project models the core of a small FastAPI service that manages calendar
events (`app.py`). The service keeps every event in a module-level dictionary
`database: Dict[int, Event]`. Four route handlers work on it:

- `create_event` stores an event under the id `len(database) + 1`;
- `list_events` returns the whole dictionary;
- `update_event` replaces a stored event wholesale, or answers 404;
- `delete_event` removes a stored event, or answers 404.

On every successful request that changes the registry, `save_to_txt` truncates
the file `dados.txt` and writes one seven-line text block for the event
concerned. Create and update write after storing the event; delete writes the
block of the event first and then removes it.

Files:

- `events.dfy`: module `Events`, the `Event` record with its six text attributes.
- `decimal.dfy`: module `Decimal`, how Python's f-strings render an `int`, and a
  parser that inverts it in both directions.
- `mirror.dfy`: module `Mirror`, the text block `save_to_txt` writes
  (`RecordText`), and a parser `ParseRecord`. A lemma shows that a string parses
  to `(id, e)` exactly when it is the block of `e` under `id` and no attribute
  of `e` contains a line break.
- `table.dfy`: module `Table`, the registry as a value (`map<int, Event>`) and
  the transition each handler makes (`AfterCreate`, `AfterUpdate`,
  `AfterDelete`). It also defines histories of requests (`Run`, `RunIds`) and
  lemmas on when a create receives a fresh id and when it overwrites a stored
  event.
- `registry.dfy`: module `Registry`, the class `Registry`. Its fields
  `database` and `file` are changed in place by methods that follow the
  handlers line by line. Each method's postcondition ties the new state to
  the transitions of `Table` and the file to `RecordText`.
- `counted_table.dfy`: module `CountedTable`, the corrected id policy. Ids come
  from a counter, so they are never reused (see Findings).
- `wrappers.dfy`: `Option` and `Result`.

Errors are values. A missing id is `Table.Error.NotFound` in the value model. In
the class it is the reply `HttpError(404, "Evento não encontrado")`, in place of
the `HTTPException` the handlers raise.

Two behaviours of the code are modelled exactly as written:

- `save_to_txt` writes only the one record it is given (app.py:24-38), so the
  file never holds the whole registry;
- `create_event` uses `len(database) + 1` as the id (app.py:54), which reuses
  ids after a delete. `CountedTable` models the alternative policy, where ids
  come from a counter and are never reused.

On delete, the record written to the file is the one about to be removed. The
comment at app.py:113 says this is intended, so it is modelled as written and
not reported as a defect.

## Model

| member | source | states |
|---|---|---|
| `Decimal.DecimalText` | app.py:31 | the id written into the block is non-empty and contains no line break |
| `Decimal.ParseDecimalText` | app.py:31 | parsing the rendered id gives back the same integer, negative ids included |
| `Decimal.DecimalTextOfParse` | app.py:31 | every string the parser accepts is the rendering of the integer it yields, so the rendering is canonical |
| `Mirror.SplitJoinLines` | app.py:31-38 | splitting text written line by line gives back the lines, as long as none holds a line break |
| `Mirror.JoinSplitLines` | app.py:31-38 | any text that is empty or ends in a line break is the lines it splits into, rejoined |
| `Mirror.RecordTextIsSevenLinesAndBlank` | app.py:24-38 | the block is `Evento ID`, `Title`, `Description`, `Date`, `Time`, `Location` and `Cost` lines in that order, each ending in a line break, then one blank line |
| `Mirror.ParseRecordText` | app.py:31-38 | a block read back yields the id and the event it was written from, when no attribute contains a line break |
| `Mirror.RecordTextOfParse` | app.py:31-38 | whatever the block parser accepts is exactly the block of the id and event it returns |
| `Mirror.ParseRecordIff` | app.py:31-38 | a string parses to `(id, e)` if and only if it is the block of `e` under `id` and `e` is single-line, so the block holds one record and determines it |
| `Table.AfterCreate` | app.py:54-55 | after create the keys are the old keys plus `len + 1`, that key holds the new event, every other entry is unchanged |
| `Table.AfterUpdate` | app.py:89-91 | update fails with not-found exactly when the id is absent; otherwise the key set is unchanged, the id holds the new event (whole replacement) and every other entry is unchanged |
| `Table.AfterDelete` | app.py:110-118 | delete fails with not-found exactly when the id is absent; otherwise exactly that key is removed, the size drops by one and every other entry is unchanged |
| `Table.CreateGrowsIff` | app.py:54-55 | a create grows the registry by one if and only if `len + 1` is unused; otherwise it overwrites that entry and the keys and size stay the same |
| `Table.CreateFreshOnDense` | app.py:54-55 | when the keys are exactly 1..n, create picks n + 1, which is unused, and the keys become 1..n + 1 |
| `Table.NoDeleteHistoryIsDense` | app.py:54-55 | in any history of creates and updates without deletes, keys 1..n become 1..n + (number of creates) |
| `Table.NoDeleteHistoryIds` | app.py:54-55 | in such a history the creates are answered with n + 1, n + 2, ... in order |
| `Table.DeleteThenCreate` | app.py:54-55 | after deleting an id from keys 1..n, the next create picks n; it is fresh if and only if the deleted id was n, and otherwise the event under n is replaced and the size does not grow |
| `Table.DeletedIsNotFound` | app.py:110-118 | after a delete succeeds, updating or deleting the same id again is not-found |
| `Table.ReuseAfterDelete` | app.py:54-55 | create, create, delete 1, create answers ids 1, 2, 2 and leaves only the last event, under id 2 |
| `Registry.Registry.constructor` | app.py:21 | the registry starts empty; the file keeps its earlier content |
| `Registry.Registry.Write` | app.py:31-38 | one `file.write` appends its text to whatever the file holds |
| `Registry.Registry.SaveToTxt` | app.py:24-38 | after truncating and appending, the file holds exactly the block of the one event passed, and nothing else changes |
| `Registry.Registry.CreateEvent` | app.py:54-57 | replies with the success message, id `len + 1` and the event; the registry becomes `AfterCreate` of the old one; the file holds that event's block |
| `Registry.Registry.ListEvents` | app.py:71 | returns the whole registry and changes nothing |
| `Registry.Registry.UpdateEvent` | app.py:89-93 | on an absent id, replies 404 and changes neither registry nor file; otherwise replies with the success message, the registry becomes `AfterUpdate` of the old one and the file holds the new event's block |
| `Registry.Registry.DeleteEvent` | app.py:110-119 | on an absent id, replies 404 and changes neither registry nor file; otherwise the file holds the block of the event being removed and the registry becomes `AfterDelete` of the old one |
| `Registry.OverwriteTrace` | app.py:54-55 | driving the handlers with create, create, delete 1, create yields ids 1, 2, 2 and a registry holding only the third event |
| `CountedTable.CountedCreate` | app.py:54-55 | with a counter, a create always uses an unused id, grows the registry by one and keeps every stored event |
| `CountedTable.CountedRun` | app.py:54-55 | the counter invariant (every stored id is below the counter) holds after any history, and the counter never goes back |
| `CountedTable.CountedIdsIncrease` | app.py:54-55 | with a counter, the ids of any history strictly increase and none was in use at its start |
| `CountedTable.CreateAfterAnyHistoryIsFresh` | app.py:54-55 | with a counter, after any history the next create is fresh and loses nothing |
| `CountedTable.CountedReuseHistory` | app.py:54-55 | with a counter, create, create, delete 1, create keeps the second event and stores the third under id 3 |
| `CountedTable.CountedReuseIds` | app.py:54-55 | with a counter, that history is answered with ids 1, 2, 3 |

## Findings

| source | as written | input that shows it | evidently intended | confidence | as-written member | corrected member |
|---|---|---|---|---|---|---|
| app.py:54-55 | the new id is `len(database) + 1` and the event is stored under it without checking whether the key is in use | create a, create b, delete 1, create c: the third create is answered with id 2 and replaces b, which was never deleted | every create gets an id not in use, so stored events are never overwritten | high; not executed | `Registry.OverwriteTrace` | `CountedTable.CountedIdsIncrease` |

The class `Registry` keeps the as-written policy, because it models the program
as it is. The corrected policy lives in `CountedTable`. It keeps a counter next
to the table and reuses the update and delete transitions of `Table` unchanged.
From a registry whose keys are 1..n (for example after creates and updates
only), deleting any id other than n makes the next create overwrite the event
under n (`Table.DeleteThenCreate`). In general a create overwrites exactly when
`len + 1` is in use (`Table.CreateGrowsIff`).

## Left out

- FastAPI routing, `JSONResponse` and `HTTPException` as a control-flow mechanism. Replies are values.
- Pydantic validation of request bodies. Events are taken to be well-formed records of six strings.
- File-system behaviour of `open`, the write calls and their failures. The file `dados.txt` is the field `Registry.file`, holding the text it would contain.
- The order of entries when the dictionary is serialised to JSON by `list_events`. A Dafny `map` has no order.
- Concurrency: requests are assumed to be served one at a time.
- The application title and description (app.py:6-9), which affect only the generated API documentation.
- Title lookup and the HTML home and form pages are not part of this model; `app.py` does not contain them.
