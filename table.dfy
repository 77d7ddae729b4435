/**
 * The registry `database` (app.py:21) as a value, and what each handler does
 * to it: create (app.py:54-55), update (app.py:89-91) and delete
 * (app.py:110-118).  Lemmas state when a create receives a fresh id and when
 * it overwrites a stored event.
 */
module Table {
  import opened Wrappers
  import opened Events

  type Table = map<int, Event>

  /** The only failure of the handlers: the id is not in the registry (HTTP 404). */
  datatype Error = NotFound

  /** The id `create_event` assigns: the number of stored events plus one. */
  function CreateId(db: Table): (id: int)
    ensures id >= 1
  {
    |db| + 1
  }

  /** The registry after `create_event(e)`: `e` is stored under `CreateId(db)`,
      replacing whatever was stored there. */
  function AfterCreate(db: Table, e: Event): (r: Table)
    ensures r.Keys == db.Keys + {CreateId(db)}
    ensures r[CreateId(db)] == e
    ensures forall k :: k in db && k != CreateId(db) ==> r[k] == db[k]
  {
    db[CreateId(db) := e]
  }

  /** The registry after `update_event(id, e)`: not-found when `id` is absent,
      otherwise the entry is replaced wholesale and nothing else changes. */
  function AfterUpdate(db: Table, id: int, e: Event): (r: Result<Table, Error>)
    ensures r.Failure? <==> id !in db
    ensures r.Failure? ==> r.error == NotFound
    ensures r.Success? ==> r.value.Keys == db.Keys && r.value[id] == e
    ensures r.Success? ==> forall k :: k in db && k != id ==> r.value[k] == db[k]
  {
    if id !in db then Failure(NotFound) else Success(db[id := e])
  }

  /** The registry after `delete_event(id)`: not-found when `id` is absent,
      otherwise exactly that key is removed and every other entry is kept. */
  function AfterDelete(db: Table, id: int): (r: Result<Table, Error>)
    ensures r.Failure? <==> id !in db
    ensures r.Failure? ==> r.error == NotFound
    ensures r.Success? ==> r.value.Keys == db.Keys - {id} && |r.value| == |db| - 1
    ensures r.Success? ==> forall k :: k in r.value ==> r.value[k] == db[k]
  {
    if id !in db then Failure(NotFound)
    else
      var r := db - {id};
      assert r.Keys == db.Keys - {id};
      Success(r)
  }

  /** One request to the registry. */
  datatype Op = Create(event: Event) | Update(id: int, event: Event) | Delete(id: int)

  /** The registry after one request; a not-found request leaves it as it was. */
  function Step(db: Table, op: Op): Table
  {
    match op
    case Create(e) => AfterCreate(db, e)
    case Update(id, e) => AfterUpdate(db, id, e).GetOr(db)
    case Delete(id) => AfterDelete(db, id).GetOr(db)
  }

  /** The registry after a sequence of requests, served one at a time. */
  function Run(db: Table, ops: seq<Op>): Table
    decreases |ops|
  {
    if ops == [] then db else Run(Step(db, ops[0]), ops[1..])
  }

  /** The ids the creates of a history are answered with, in order. */
  function RunIds(db: Table, ops: seq<Op>): seq<int>
    decreases |ops|
  {
    if ops == [] then []
    else (if ops[0].Create? then [CreateId(db)] else []) + RunIds(Step(db, ops[0]), ops[1..])
  }

  function CreateCount(ops: seq<Op>): nat
  {
    if ops == [] then 0 else (if ops[0].Create? then 1 else 0) + CreateCount(ops[1..])
  }

  predicate NoDeletes(ops: seq<Op>)
  {
    forall i :: 0 <= i < |ops| ==> !ops[i].Delete?
  }

  /** The keys are exactly the ids 1..n. */
  ghost predicate KeysUpTo(db: Table, n: nat)
  {
    forall k :: k in db <==> 1 <= k <= n
  }

  /** The ids 1..n as a set. */
  function Dense(n: nat): (s: set<int>)
    ensures forall k :: k in s <==> 1 <= k <= n
    ensures |s| == n
  {
    if n == 0 then {} else Dense(n - 1) + {n}
  }

  /** Keys 1..n means exactly n stored events. */
  lemma KeysUpToSize(db: Table, n: nat)
    requires KeysUpTo(db, n)
    ensures |db| == n
  {
    assert db.Keys == Dense(n);
  }

  /** A create grows the registry exactly when the id it picks is unused; otherwise it
      replaces the event stored under that id and the registry keeps its size and keys. */
  lemma CreateGrowsIff(db: Table, e: Event)
    ensures CreateId(db) !in db <==> |AfterCreate(db, e)| == |db| + 1
    ensures CreateId(db) in db ==> AfterCreate(db, e).Keys == db.Keys && |AfterCreate(db, e)| == |db|
  {
  }

  /** While the keys are exactly 1..n, create picks n + 1, which is unused, and the keys
      become 1..n + 1. */
  lemma CreateFreshOnDense(db: Table, n: nat, e: Event)
    requires KeysUpTo(db, n)
    ensures CreateId(db) == n + 1 && CreateId(db) !in db
    ensures KeysUpTo(AfterCreate(db, e), n + 1)
  {
    KeysUpToSize(db, n);
  }

  /** A create or an update keeps the keys of the form 1..n; only a create extends them. */
  lemma StepKeepsDense(db: Table, n: nat, op: Op)
    requires KeysUpTo(db, n) && !op.Delete?
    ensures KeysUpTo(Step(db, op), if op.Create? then n + 1 else n)
  {
    if op.Create? {
      CreateFreshOnDense(db, n, op.event);
    }
  }

  lemma NoDeletesTail(ops: seq<Op>)
    requires ops != [] && NoDeletes(ops)
    ensures !ops[0].Delete? && NoDeletes(ops[1..])
  {
  }

  /** Updates keep the key set, so creates and updates alone keep the keys at 1..n. */
  lemma {:induction false} NoDeleteHistoryIsDense(db: Table, n: nat, ops: seq<Op>)
    requires KeysUpTo(db, n) && NoDeletes(ops)
    ensures KeysUpTo(Run(db, ops), n + CreateCount(ops))
    decreases |ops|
  {
    if ops != [] {
      NoDeletesTail(ops);
      var next := Step(db, ops[0]);
      if ops[0].Create? {
        StepKeepsDense(db, n, ops[0]);
        NoDeleteHistoryIsDense(next, n + 1, ops[1..]);
        assert CreateCount(ops) == 1 + CreateCount(ops[1..]);
      } else {
        StepKeepsDense(db, n, ops[0]);
        NoDeleteHistoryIsDense(next, n, ops[1..]);
        assert CreateCount(ops) == CreateCount(ops[1..]);
      }
    }
  }

  /** Without deletes, creates starting from keys 1..n are answered with n + 1, n + 2, ...
      in order: every create of such a history receives a fresh id. */
  lemma {:induction false} NoDeleteHistoryIds(db: Table, n: nat, ops: seq<Op>)
    requires KeysUpTo(db, n) && NoDeletes(ops)
    ensures var ids := RunIds(db, ops);
      |ids| == CreateCount(ops) && forall i :: 0 <= i < |ids| ==> ids[i] == n + 1 + i
    decreases |ops|
  {
    if ops != [] {
      NoDeletesTail(ops);
      var next := Step(db, ops[0]);
      var rest := RunIds(next, ops[1..]);
      StepKeepsDense(db, n, ops[0]);
      if ops[0].Create? {
        NoDeleteHistoryIds(next, n + 1, ops[1..]);
        CreateFreshOnDense(db, n, ops[0].event);
        assert RunIds(db, ops) == [n + 1] + rest;
      } else {
        NoDeleteHistoryIds(next, n, ops[1..]);
        assert RunIds(db, ops) == rest;
      }
    }
  }

  /** After deleting `id` from keys 1..n, the next create picks n, which is fresh only
      when `id` was n itself; for any other id the event stored under n is overwritten. */
  lemma DeleteThenCreate(db: Table, n: nat, id: int, e: Event)
    requires KeysUpTo(db, n) && id in db
    ensures var d := AfterDelete(db, id).value;
      && CreateId(d) == n
      && (CreateId(d) in d <==> id != n)
      && (id != n ==> |AfterCreate(d, e)| == |d| && AfterCreate(d, e)[n] == e)
      && (id == n ==> KeysUpTo(AfterCreate(d, e), n))
  {
    KeysUpToSize(db, n);
    var d := AfterDelete(db, id).value;
    CreateGrowsIff(d, e);
  }

  /** Once `id` is deleted, updating or deleting it again is not-found. */
  lemma DeletedIsNotFound(db: Table, id: int, e: Event)
    requires id in db
    ensures AfterDelete(db, id).Success?
    ensures AfterUpdate(AfterDelete(db, id).value, id, e) == Failure(NotFound)
    ensures AfterDelete(AfterDelete(db, id).value, id) == Failure(NotFound)
  {
  }

  lemma SizeOne(k: int, e: Event)
    ensures |map[k := e]| == 1
  {
  }

  lemma CreateOnSizeOne(k: int, was: Event, e: Event)
    ensures AfterCreate(map[k := was], e) == map[k := was][2 := e]
  {
  }

  lemma CreateOnEmpty(e: Event)
    ensures AfterCreate(map[], e) == map[1 := e]
  {
  }

  lemma DeleteFirstOfTwo(a: Event, b: Event)
    ensures AfterDelete(map[1 := a, 2 := b], 1) == Success(map[2 := b])
  {
    assert map[1 := a, 2 := b] - {1} == map[2 := b];
  }

  /** The smallest history that loses data: create, create, delete 1, create. The last
      create is given id 2 again and replaces the second event. */
  lemma ReuseAfterDelete(a: Event, b: Event, c: Event)
    ensures Run(map[], [Create(a), Create(b), Delete(1), Create(c)]) == map[2 := c]
    ensures RunIds(map[], [Create(a), Create(b), Delete(1), Create(c)]) == [1, 2, 2]
  {
    var ops := [Create(a), Create(b), Delete(1), Create(c)];
    CreateOnEmpty(a);
    CreateOnSizeOne(1, a, b);
    DeleteFirstOfTwo(a, b);
    CreateOnSizeOne(2, b, c);
    assert map[2 := b][2 := c] == map[2 := c];
    calc {
      Run(map[], ops);
      Run(map[1 := a], ops[1..]);
      { assert ops[1..][0] == ops[1] && ops[1..][1..] == ops[2..]; }
      Run(map[1 := a, 2 := b], ops[2..]);
      { assert ops[2..][0] == ops[2] && ops[2..][1..] == ops[3..]; }
      Run(map[2 := b], ops[3..]);
      { assert ops[3..][0] == ops[3] && ops[3..][1..] == []; }
      Run(map[2 := c], []);
    }
    SizeOne(1, a);
    SizeOne(2, b);
    calc {
      RunIds(map[], ops);
      [1] + RunIds(map[1 := a], ops[1..]);
      { assert ops[1..][0] == ops[1] && ops[1..][1..] == ops[2..]; }
      [1] + ([2] + RunIds(map[1 := a, 2 := b], ops[2..]));
      { assert ops[2..][0] == ops[2] && ops[2..][1..] == ops[3..]; }
      [1] + ([2] + RunIds(map[2 := b], ops[3..]));
      { assert ops[3..][0] == ops[3] && ops[3..][1..] == []; }
      [1] + ([2] + ([2] + RunIds(map[2 := c], [])));
    }
  }
}
