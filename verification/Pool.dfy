/** transport/h1pool/client.go: the pool of shared clients, scanned with sync.Map.Range in no fixed order. */
module Pool {
  import opened Stream

  type Id = string

  /** What the scans look at: the creation time and whether the transport is connected. */
  datatype Member = Member(createdAt: int, connected: bool)

  type Members = map<Id, Member>

  const MAX_SHARED: nat := 5
  const HEALTHY: int := 300

  predicate Positive(pool: Members) {
    forall k :: k in pool ==> pool[k].createdAt > 0
  }

  /** Any two shared clients were created at least 300 seconds apart. */
  predicate Spaced(pool: Members) {
    forall a, b :: a in pool && b in pool && a != b ==>
      pool[a].createdAt + HEALTHY <= pool[b].createdAt || pool[b].createdAt + HEALTHY <= pool[a].createdAt
  }

  predicate Oldest(pool: Members, id: Id) {
    id in pool && forall k :: k in pool ==> pool[id].createdAt <= pool[k].createdAt
  }

  predicate NewestConnected(pool: Members, id: Id) {
    id in pool && pool[id].connected &&
    forall k :: k in pool && pool[k].connected ==> pool[k].createdAt <= pool[id].createdAt
  }

  /** An order in which Range may visit the pool: every key once. */
  predicate Visits(order: seq<Id>, pool: Members) {
    (forall i, j :: 0 <= i < j < |order| ==> order[i] != order[j]) &&
    (forall i :: 0 <= i < |order| ==> order[i] in pool) &&
    (forall k :: k in pool ==> k in order)
  }

  // ---------------------------------------------------------------- the two scans, as folds over an order

  /** queryClientInfo after visiting the order: the oldest time seen (0 for none) and whose it is. */
  function OldestSeen(pool: Members, order: seq<Id>): (int, Id)
    requires forall i :: 0 <= i < |order| ==> order[i] in pool
  {
    if order == [] then (0, "")
    else
      var (oldest, oldestId) := OldestSeen(pool, order[..|order| - 1]);
      var k := order[|order| - 1];
      if oldest == 0 || oldest > pool[k].createdAt then (pool[k].createdAt, k) else (oldest, oldestId)
  }

  /** getAvailableSharedClient after visiting the order: the latest connected time and the choice. */
  function Picked(pool: Members, order: seq<Id>): (int, Option<Id>)
    requires forall i :: 0 <= i < |order| ==> order[i] in pool
  {
    if order == [] then (0, None)
    else
      var (latest, sc) := Picked(pool, order[..|order| - 1]);
      var k := order[|order| - 1];
      if latest == 0 || latest < pool[k].createdAt then
        if pool[k].connected then (pool[k].createdAt, Some(k))
        else if sc == None then (latest, Some(k))
        else (latest, sc)
      else (latest, sc)
  }

  lemma {:induction false} OldestSeenIsOldest(pool: Members, order: seq<Id>)
    requires Positive(pool) && order != [] && forall i :: 0 <= i < |order| ==> order[i] in pool
    ensures var (oldest, id) := OldestSeen(pool, order);
            id in order && id in pool && oldest == pool[id].createdAt &&
            forall i :: 0 <= i < |order| ==> oldest <= pool[order[i]].createdAt
  {
    if |order| > 1 {
      var front := order[..|order| - 1];
      OldestSeenIsOldest(pool, front);
      assert forall i :: 0 <= i < |front| ==> front[i] == order[i];
    } else {
      assert OldestSeen(pool, order[..0]) == (0, "");
    }
  }

  /** Among spaced clients the oldest is unique, so no visiting order changes who takes itself for the oldest. */
  lemma OldestIsUnique(pool: Members, order: seq<Id>, id: Id)
    requires Positive(pool) && Spaced(pool) && Visits(order, pool) && pool != map[]
    ensures OldestSeen(pool, order).1 == id <==> Oldest(pool, id)
  {
    var k :| k in pool;
    assert k in order;
    OldestSeenIsOldest(pool, order);
    var oldest := OldestSeen(pool, order).1;
    assert Oldest(pool, oldest) by {
      forall k | k in pool ensures pool[oldest].createdAt <= pool[k].createdAt {
        assert k in order;
      }
    }
  }

  lemma {:induction false} PickedSoFar(pool: Members, order: seq<Id>)
    requires Positive(pool) && order != [] && forall i :: 0 <= i < |order| ==> order[i] in pool
    ensures var (latest, sc) := Picked(pool, order);
            && sc.Some? && sc.value in order && sc.value in pool
            && (latest == 0 ==> sc.value == order[0] && forall i :: 0 <= i < |order| ==> !pool[order[i]].connected)
            && (latest != 0 ==> latest == pool[sc.value].createdAt && pool[sc.value].connected)
            && (forall i :: 0 <= i < |order| && pool[order[i]].connected ==> pool[order[i]].createdAt <= latest)
  {
    if |order| > 1 {
      var front := order[..|order| - 1];
      PickedSoFar(pool, front);
      assert forall i :: 0 <= i < |front| ==> front[i] == order[i];
    } else {
      assert Picked(pool, order[..0]) == (0, None);
    }
  }

  /** With a connected client in the pool, a newest connected one is picked. */
  lemma PickedIsNewest(pool: Members, order: seq<Id>, k: Id)
    requires Positive(pool) && Visits(order, pool) && k in pool && pool[k].connected
    ensures Picked(pool, order).1.Some? && NewestConnected(pool, Picked(pool, order).1.value)
  {
    assert k in order;
    PickedSoFar(pool, order);
    var sc := Picked(pool, order).1.value;
    forall j | j in pool && pool[j].connected ensures pool[j].createdAt <= pool[sc].createdAt {
      assert j in order;
    }
  }

  /** Without one, the first client visited is picked. */
  lemma PickedIsFirst(pool: Members, order: seq<Id>)
    requires Positive(pool) && Visits(order, pool) && order != []
    requires forall k :: k in pool ==> !pool[k].connected
    ensures Picked(pool, order).1 == Some(order[0])
  {
    PickedSoFar(pool, order);
  }

  /**
   * Exactly when the choice does not depend on the visiting order: some client is connected, or there is at
   * most one client.
   */
  lemma ChoiceIsDetermined(pool: Members)
    requires Positive(pool) && Spaced(pool)
    ensures (forall o1, o2 | Visits(o1, pool) && Visits(o2, pool) :: Picked(pool, o1).1 == Picked(pool, o2).1)
       <==> (exists k :: k in pool && pool[k].connected) || (forall a, b :: a in pool && b in pool ==> a == b)
  {
    if k :| k in pool && pool[k].connected {
      forall o1, o2 | Visits(o1, pool) && Visits(o2, pool) ensures Picked(pool, o1).1 == Picked(pool, o2).1 {
        PickedIsNewest(pool, o1, k);
        PickedIsNewest(pool, o2, k);
      }
    } else if a, b :| a in pool && b in pool && a != b {
      var o1 := StartingWith(pool, a);
      var o2 := StartingWith(pool, b);
      PickedIsFirst(pool, o1);
      PickedIsFirst(pool, o2);
    } else {
      forall o1, o2 | Visits(o1, pool) && Visits(o2, pool) ensures Picked(pool, o1).1 == Picked(pool, o2).1 {
        AloneOrNone(pool, o1);
        AloneOrNone(pool, o2);
      }
    }
  }

  lemma AloneOrNone(pool: Members, order: seq<Id>)
    requires Visits(order, pool) && forall a, b :: a in pool && b in pool ==> a == b
    ensures order == [] <==> pool == map[]
    ensures forall k :: k in pool ==> order == [k]
  {
    if |order| > 1 {
      TwoVisited(pool, order);
    }
    forall k | k in pool ensures order == [k] {
      assert k in order;
    }
    if order != [] {
      assert order[0] in pool;
    } else {
      assert pool.Keys == {};
    }
  }

  lemma TwoVisited(pool: Members, order: seq<Id>)
    requires Visits(order, pool) && |order| > 1
    ensures order[0] in pool && order[1] in pool && order[0] != order[1]
  {
  }

  lemma {:induction false} OrderOf(keys: set<Id>) returns (order: seq<Id>)
    ensures forall i, j :: 0 <= i < j < |order| ==> order[i] != order[j]
    ensures forall k :: k in order <==> k in keys
  {
    if keys == {} {
      order := [];
    } else {
      var k :| k in keys;
      var rest := OrderOf(keys - {k});
      order := [k] + rest;
      assert forall i :: 0 <= i < |rest| ==> rest[i] in rest;
      assert forall j :: j in order <==> j == k || j in rest;
    }
  }

  lemma StartingWith(pool: Members, a: Id) returns (order: seq<Id>)
    requires a in pool
    ensures Visits(order, pool) && order != [] && order[0] == a
  {
    var rest := OrderOf(pool.Keys - {a});
    order := [a] + rest;
    assert forall i :: 0 <= i < |rest| ==> rest[i] in rest;
    assert forall j :: j in order <==> j == a || j in rest;
  }

  // ---------------------------------------------------------------- the object

  lemma OneMoreMember(pool: Members, id: Id, createdAt: int, now: int)
    requires Positive(pool) && Spaced(pool) && |pool| < MAX_SHARED && 0 < now <= createdAt
    requires forall k :: k in pool ==> pool[k].createdAt <= now - HEALTHY
    ensures var more := pool[id := Member(createdAt, false)]; Positive(more) && Spaced(more) && |more| <= MAX_SHARED
  {
    var more := pool[id := Member(createdAt, false)];
    assert more.Keys == pool.Keys + {id};
    assert |more.Keys| <= |pool.Keys| + 1;
    assert |pool| == |pool.Keys| && |more| == |more.Keys|;
  }

  class SharedClients {
    var pool: Members

    constructor ()
      ensures pool == map[]
    {
      pool := map[];
    }

    ghost predicate Valid()
      reads this
    {
      Positive(pool) && Spaced(pool) && |pool| <= MAX_SHARED
    }

    /** The Range loop of queryClientInfo; the order visited is whatever Range chose. */
    method QueryClientInfo(id: Id) returns (isOldest: bool, total: nat, ghost order: seq<Id>)
      requires Positive(pool) && id != ""
      ensures Visits(order, pool) && total == |pool| && isOldest == (OldestSeen(pool, order).1 == id)
      ensures Spaced(pool) ==> isOldest == Oldest(pool, id)
    {
      var todo := pool.Keys;
      var oldest, oldestId := 0, "";
      total, order := 0, [];
      while todo != {}
        invariant todo <= pool.Keys && total + |todo| == |pool|
        invariant forall k :: k in pool ==> (k in todo <==> k !in order)
        invariant forall i, j :: 0 <= i < j < |order| ==> order[i] != order[j]
        invariant forall i :: 0 <= i < |order| ==> order[i] in pool
        invariant (oldest, oldestId) == OldestSeen(pool, order)
        decreases todo
      {
        var k :| k in todo;
        todo, total := todo - {k}, total + 1;
        if oldest == 0 || oldest > pool[k].createdAt {
          oldest, oldestId := pool[k].createdAt, k;
        }
        assert (order + [k])[..|order|] == order;
        order := order + [k];
      }
      isOldest := oldestId == id;
      if Spaced(pool) && pool != map[] {
        OldestIsUnique(pool, order, id);
      }
    }

    /** The Range loop of getAvailableSharedClient. */
    method GetAvailable() returns (r: Option<Id>, ghost order: seq<Id>)
      requires Positive(pool)
      ensures Visits(order, pool) && r == Picked(pool, order).1
      ensures r == None <==> pool == map[]
      ensures forall k :: k in pool && pool[k].connected ==> r.Some? && NewestConnected(pool, r.value)
    {
      var todo := pool.Keys;
      var latest := 0;
      r, order := None, [];
      while todo != {}
        invariant todo <= pool.Keys
        invariant forall k :: k in pool ==> (k in todo <==> k !in order)
        invariant forall i, j :: 0 <= i < j < |order| ==> order[i] != order[j]
        invariant forall i :: 0 <= i < |order| ==> order[i] in pool
        invariant (latest, r) == Picked(pool, order)
        decreases todo
      {
        var k :| k in todo;
        todo := todo - {k};
        if latest == 0 || latest < pool[k].createdAt {
          if pool[k].connected {
            latest, r := pool[k].createdAt, Some(k);
          } else if r == None {
            r := Some(k);
          }
        }
        assert (order + [k])[..|order|] == order;
        order := order + [k];
      }
      if order != [] {
        PickedSoFar(pool, order);
      }
      forall k | k in pool && pool[k].connected ensures r.Some? && NewestConnected(pool, r.value) {
        PickedIsNewest(pool, order, k);
      }
    }

    /**
     * tryAddNewSharedClient under its lock: `now` is read before the scan, createdAt when the client is made.
     * A client is added exactly when there are fewer than five and none was created in the last 300 seconds.
     */
    method TryAdd(now: int, createdAt: int, id: Id) returns (added: bool)
      requires Valid() && 0 < now <= createdAt
      requires forall k :: k in pool ==> pool[k].createdAt <= now
      modifies this
      ensures Valid()
      ensures added == (|old(pool)| < MAX_SHARED &&
                        forall k :: k in old(pool) ==> old(pool)[k].createdAt <= now - HEALTHY)
      ensures pool == if added then old(pool)[id := Member(createdAt, false)] else old(pool)
    {
      var todo := pool.Keys;
      var total, healthyCount := 0, 0;
      while todo != {}
        invariant todo <= pool.Keys && total + |todo| == |pool| && healthyCount >= 0
        invariant healthyCount == 0 <==> forall k :: k in pool && k !in todo ==> pool[k].createdAt <= now - HEALTHY
        decreases todo
      {
        var k :| k in todo;
        todo, total := todo - {k}, total + 1;
        if pool[k].createdAt > now - HEALTHY {
          healthyCount := healthyCount + 1;
        }
      }
      added := total < MAX_SHARED && healthyCount == 0;
      if added {
        OneMoreMember(pool, id, createdAt, now);
        pool := pool[id := Member(createdAt, false)];
      }
    }

    /** A shared client's goroutine ends. */
    method Remove(id: Id)
      requires Valid()
      modifies this
      ensures Valid() && pool == old(pool) - {id}
    {
      assert (pool - {id}).Keys == pool.Keys - {id};
      pool := pool - {id};
    }

    /** Connecting or losing the transport changes no creation time. */
    method SetConnected(id: Id, connected: bool)
      requires Valid() && id in pool
      modifies this
      ensures Valid() && pool == old(pool)[id := old(pool)[id].(connected := connected)]
    {
      assert pool[id := pool[id].(connected := connected)].Keys == pool.Keys;
      pool := pool[id := pool[id].(connected := connected)];
    }
  }
}
