/**
 * The registry with ids drawn from a counter instead of `len(database) + 1`:
 * the policy under which a create can never overwrite a stored event.  Update
 * and delete are the same transitions as in module Table.
 */
module CountedTable {
  import opened Events
  import opened Table

  /** The events and the next id to hand out. */
  datatype State = State(db: Table, next: int)

  /** Every stored id is below the counter, and the counter starts at 1. */
  ghost predicate Valid(s: State)
  {
    s.next >= 1 && forall k :: k in s.db ==> 1 <= k < s.next
  }

  const Initial := State(map[], 1)

  /** A create under the counter policy: `e` is stored under the counter, which then advances. */
  function CountedCreate(s: State, e: Event): (r: (State, int))
    requires Valid(s)
    ensures Valid(r.0)
    ensures r.1 !in s.db && r.0.db.Keys == s.db.Keys + {r.1} && r.0.db[r.1] == e
    ensures forall k :: k in s.db ==> r.0.db[k] == s.db[k]
    ensures |r.0.db| == |s.db| + 1
  {
    (State(s.db[s.next := e], s.next + 1), s.next)
  }

  function CountedStep(s: State, op: Op): (r: State)
    requires Valid(s)
    ensures Valid(r)
  {
    match op
    case Create(e) => CountedCreate(s, e).0
    case Update(id, e) => State(AfterUpdate(s.db, id, e).GetOr(s.db), s.next)
    case Delete(id) => State(AfterDelete(s.db, id).GetOr(s.db), s.next)
  }

  function CountedRun(s: State, ops: seq<Op>): (r: State)
    requires Valid(s)
    ensures Valid(r) && r.next >= s.next
    decreases |ops|
  {
    if ops == [] then s else CountedRun(CountedStep(s, ops[0]), ops[1..])
  }

  /** The ids the creates of a history are answered with, in order. */
  function CountedIds(s: State, ops: seq<Op>): seq<int>
    requires Valid(s)
    decreases |ops|
  {
    if ops == [] then []
    else (if ops[0].Create? then [s.next] else []) + CountedIds(CountedStep(s, ops[0]), ops[1..])
  }

  predicate AllAtLeast(ids: seq<int>, lo: int)
  {
    forall i :: 0 <= i < |ids| ==> ids[i] >= lo
  }

  predicate StrictlyIncreasing(ids: seq<int>)
  {
    forall i, j :: 0 <= i < j < |ids| ==> ids[i] < ids[j]
  }

  lemma PrependSmaller(x: int, rest: seq<int>)
    requires AllAtLeast(rest, x + 1) && StrictlyIncreasing(rest)
    ensures AllAtLeast([x] + rest, x) && StrictlyIncreasing([x] + rest)
  {
  }

  /** Ids are never handed out twice: over any history of creates, updates and deletes they
      strictly increase, and none of them was in use when the history began. */
  lemma {:induction false} CountedIdsIncrease(s: State, ops: seq<Op>)
    requires Valid(s)
    ensures AllAtLeast(CountedIds(s, ops), s.next) && StrictlyIncreasing(CountedIds(s, ops))
    ensures forall i :: 0 <= i < |CountedIds(s, ops)| ==> CountedIds(s, ops)[i] !in s.db
    decreases |ops|
  {
    if ops != [] {
      var next := CountedStep(s, ops[0]);
      CountedIdsIncrease(next, ops[1..]);
      var rest := CountedIds(next, ops[1..]);
      if ops[0].Create? {
        assert next.next == s.next + 1;
        assert CountedIds(s, ops) == [s.next] + rest;
        PrependSmaller(s.next, rest);
      } else {
        assert next.next == s.next;
        assert CountedIds(s, ops) == rest;
      }
    }
  }

  /** After any history, the next create stores its event under an unused id, grows the
      registry by one and keeps every stored event. */
  lemma CreateAfterAnyHistoryIsFresh(ops: seq<Op>, e: Event)
    ensures var s := CountedRun(Initial, ops);
      var (s', id) := CountedCreate(s, e);
      && id !in s.db
      && |s'.db| == |s.db| + 1
      && forall k :: k in s.db ==> s'.db[k] == s.db[k]
  {
  }

  lemma CountedReuseSteps(a: Event, b: Event, c: Event)
    ensures CountedStep(Initial, Create(a)) == State(map[1 := a], 2)
    ensures CountedStep(State(map[1 := a], 2), Create(b)) == State(map[1 := a, 2 := b], 3)
    ensures CountedStep(State(map[1 := a, 2 := b], 3), Delete(1)) == State(map[2 := b], 3)
    ensures CountedStep(State(map[2 := b], 3), Create(c)) == State(map[2 := b, 3 := c], 4)
  {
  }

  /** The history that loses data under `len + 1` ids keeps all surviving events here:
      the second event stays under id 2 and the third is stored under id 3. */
  lemma CountedReuseHistory(a: Event, b: Event, c: Event)
    ensures CountedRun(Initial, [Create(a), Create(b), Delete(1), Create(c)]) == State(map[2 := b, 3 := c], 4)
  {
    var ops := [Create(a), Create(b), Delete(1), Create(c)];
    CountedReuseSteps(a, b, c);
    assert ops[1..][0] == ops[1] && ops[1..][1..] == ops[2..];
    assert ops[2..][0] == ops[2] && ops[2..][1..] == ops[3..];
    assert ops[3..][0] == ops[3] && ops[3..][1..] == [];
    calc {
      CountedRun(Initial, ops);
      CountedRun(State(map[1 := a], 2), ops[1..]);
      CountedRun(State(map[1 := a, 2 := b], 3), ops[2..]);
      CountedRun(State(map[2 := b], 3), ops[3..]);
      CountedRun(State(map[2 := b, 3 := c], 4), []);
    }
  }

  /** In that history the creates are answered with 1, 2 and 3: no id is given twice. */
  lemma CountedReuseIds(a: Event, b: Event, c: Event)
    ensures CountedIds(Initial, [Create(a), Create(b), Delete(1), Create(c)]) == [1, 2, 3]
  {
    var ops := [Create(a), Create(b), Delete(1), Create(c)];
    CountedReuseSteps(a, b, c);
    assert ops[1..][0] == ops[1] && ops[1..][1..] == ops[2..];
    assert ops[2..][0] == ops[2] && ops[2..][1..] == ops[3..];
    assert ops[3..][0] == ops[3] && ops[3..][1..] == [];
    calc {
      CountedIds(Initial, ops);
      [1] + CountedIds(State(map[1 := a], 2), ops[1..]);
      [1] + ([2] + CountedIds(State(map[1 := a, 2 := b], 3), ops[2..]));
      [1] + ([2] + CountedIds(State(map[2 := b], 3), ops[3..]));
      [1] + ([2] + ([3] + CountedIds(State(map[2 := b, 3 := c], 4), [])));
    }
  }
}
