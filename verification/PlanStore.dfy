/**
  The plans of deep searches: each is kept for a quarter of an hour at most, and at most eight of them. Times are
  nanoseconds; the map is gone through in any order.
 */
module PlanStore {
  import opened Text
  import Decimal

  type Id = string

  const SECOND := 1_000_000_000
  const PLAN_TTL := 15 * 60 * SECOND
  const PLAN_MAX: nat := 8

  datatype Plan = Plan(created: int, query: string)

  type Plans = map<Id, Plan>

  // ----- ids -----------------------------------------------------------------------------------------------

  function Number(n: int): string {
    if n < 0 then "-" + Decimal.Digits(-n) else Decimal.Digits(n)
  }

  /** The id of the n-th plan, put at a time. */
  function IdOf(now: int, n: nat): (id: Id)
    ensures id != ""
  {
    ("p_" + Number(now / SECOND)) + ("_" + Decimal.Digits(n))
  }

  /** The digits a text ends in. */
  function LastDigits(s: string): string {
    if s == "" || !Decimal.IsDigit(s[|s| - 1]) then "" else LastDigits(s[..|s| - 1]) + [s[|s| - 1]]
  }

  /** The number an id was made with. */
  function NumberIn(id: Id): int { Decimal.ValueOf(LastDigits(id)) }

  lemma {:induction false} LastDigitsOf(a: string, d: string)
    requires forall k :: 0 <= k < |d| ==> Decimal.IsDigit(d[k])
    ensures LastDigits(a + ("_" + d)) == d
  {
    var s := a + ("_" + d);
    if d != "" {
      var n := |d| - 1;
      assert s[..|s| - 1] == a + ("_" + d[..n]) && s[|s| - 1] == d[n];
      LastDigitsOf(a, d[..n]);
      assert d == d[..n] + [d[n]];
    }
  }

  /** An id tells its number, so no two plans get the same one. */
  lemma {:induction false} IdTellsNumber(now: int, n: nat)
    ensures NumberIn(IdOf(now, n)) == n
  {
    LastDigitsOf("p_" + Number(now / SECOND), Decimal.Digits(n));
    Decimal.ReadDigits(n);
  }

  /** The seconds and the number, written without leading zeros. */
  lemma {:induction false} IdIs(now: nat, n: nat, seconds: string, d: string)
    requires Decimal.Written(seconds) && Decimal.ValueOf(seconds) == now / 1_000_000_000
    requires Decimal.Written(d) && Decimal.ValueOf(d) == n
    ensures IdOf(now, n) == ("p_" + seconds) + ("_" + d)
  {
    Decimal.WrittenDigits(seconds);
    Decimal.WrittenDigits(d);
  }

  // ----- the store -----------------------------------------------------------------------------------------

  predicate Expired(p: Plan, now: int) { now - p.created > PLAN_TTL }

  /** What is left when the expired plans are gone. */
  function Unexpired(plans: Plans, now: int): Plans {
    map id | id in plans && !Expired(plans[id], now) :: plans[id]
  }

  /** Some plans of a store are left, and none that is gone is newer than one that is left. */
  ghost predicate KeepsNewest(before: Plans, after: Plans) {
    && (forall id :: id in after ==> id in before && after[id] == before[id])
    && forall gone, kept :: gone in before && gone !in after && kept in after ==>
      before[gone].created <= after[kept].created
  }

  /** What a new plan is put with: what has not expired, and of that the newest when it is too many. */
  ghost predicate MadeRoom(before: Plans, now: int, after: Plans) {
    && KeepsNewest(Unexpired(before, now), after)
    && (|Unexpired(before, now)| < PLAN_MAX ==> after == Unexpired(before, now))
    && (after != Unexpired(before, now) ==> |after| == PLAN_MAX - 1)
  }

  /** The loop that deletes what has expired. */
  method DeleteExpired(plans: Plans, now: int) returns (r: Plans)
    ensures r == Unexpired(plans, now)
  {
    r := plans;
    var todo := plans.Keys;
    while todo != {}
      invariant todo <= plans.Keys
      invariant forall id :: id in r <==> id in plans && (id in todo || !Expired(plans[id], now))
      invariant forall id :: id in r ==> r[id] == plans[id]
      decreases todo
    {
      var id :| id in todo;
      todo := todo - {id};
      if Expired(plans[id], now) { r := r - {id}; }
    }
  }

  /** The search for the oldest plan; "" is no plan's id. */
  method Oldest(plans: Plans) returns (oldest: Id)
    requires |plans| > 0 && "" !in plans
    ensures oldest in plans && forall id :: id in plans ==> plans[oldest].created <= plans[id].created
  {
    oldest := "";
    var todo := plans.Keys;
    while todo != {}
      invariant todo <= plans.Keys
      invariant oldest == "" <==> todo == plans.Keys
      invariant oldest != "" ==> oldest in plans
      invariant oldest != "" ==> forall id :: id in plans && id !in todo ==> plans[oldest].created <= plans[id].created
      decreases todo
    {
      var id :| id in todo;
      todo := todo - {id};
      if oldest == "" || plans[id].created < plans[oldest].created { oldest := id; }
    }
    assert |plans.Keys| == |plans| > 0;
  }

  /** Evicts the oldest until there is room for one more. */
  method MakeRoom(plans: Plans) returns (r: Plans)
    requires "" !in plans
    ensures KeepsNewest(plans, r) && |r| < PLAN_MAX
    ensures |plans| < PLAN_MAX ==> r == plans
    ensures r != plans ==> |r| == PLAN_MAX - 1
  {
    r := plans;
    while |r| >= PLAN_MAX
      invariant KeepsNewest(plans, r) && (r != plans ==> |r| >= PLAN_MAX - 1) && (|plans| < PLAN_MAX ==> r == plans)
      decreases |r|
    {
      var oldest := Oldest(r);
      var next := r - {oldest};
      assert next.Keys == r.Keys - {oldest};
      assert |next.Keys| == |next| && |r.Keys| == |r|;
      EvictOldest(plans, r, oldest, next);
      r := next;
    }
  }

  lemma {:induction false} EvictOldest(plans: Plans, r: Plans, oldest: Id, next: Plans)
    requires KeepsNewest(plans, r) && oldest in r && next == r - {oldest}
    requires forall id :: id in r ==> r[oldest].created <= r[id].created
    ensures KeepsNewest(plans, next)
  {
    forall gone, kept | gone in plans && gone !in next && kept in next
      ensures plans[gone].created <= next[kept].created
    {
      if gone in r { assert gone == oldest; }
    }
  }

  /** The plans a new one is put with. */
  method RoomIn(plans: Plans, now: int) returns (r: Plans)
    requires "" !in plans
    ensures MadeRoom(plans, now, r) && |r| < PLAN_MAX && r.Keys <= plans.Keys
  {
    var unexpired := DeleteExpired(plans, now);
    r := MakeRoom(unexpired);
  }

  class Store {
    var count: nat
    var plans: Plans
    ghost var given: set<Id>

    ghost predicate Valid()
      reads this
    {
      |plans| <= 8 && plans.Keys <= given && forall id :: id in given ==> id != "" && NumberIn(id) <= count
    }

    constructor ()
      ensures Valid() && plans == map[] && given == {}
    {
      count, plans, given := 0, map[], {};
    }

    /**
      Keeps the plan under an id never given before, throws out what has expired, and then, only when there would
      be more than eight, the oldest: never one that is newer than one it keeps.
     */
    method Put(query: string, now: int) returns (id: Id)
      requires Valid()
      modifies this
      ensures Valid() && id !in old(given) && given == old(given) + {id}
      ensures id == IdOf(now, count) && id in plans && plans[id] == Plan(now, query)
      ensures MadeRoom(old(plans), now, plans - {id}) && |plans| == |plans - {id}| + 1
    {
      var room := RoomIn(plans, now);
      id := NextId(now, count + 1);
      var after := room[id := Plan(now, query)];
      PutOne(room, id, after);
      count, given, plans := count + 1, given + {id}, after;
    }

    /** Never a plan older than the limit; one that is, goes. */
    method Get(id: Id, now: int) returns (r: Option<Plan>)
      requires Valid()
      modifies this`plans
      ensures Valid()
      ensures r == if id in old(plans) && !Expired(old(plans)[id], now) then Some(old(plans)[id]) else None
      ensures r.Some? <==> id in old(plans) && now - old(plans)[id].created <= 900_000_000_000
      ensures plans == if id in old(plans) && Expired(old(plans)[id], now) then old(plans) - {id} else old(plans)
    {
      if id !in plans { return None; }
      if Expired(plans[id], now) {
        Dropped(plans, id);
        plans := plans - {id};
        return None;
      }
      r := Some(plans[id]);
    }

    method Drop(id: Id)
      requires Valid()
      modifies this`plans
      ensures Valid() && plans == old(plans) - {id}
    {
      Dropped(plans, id);
      plans := plans - {id};
    }
  }

  lemma {:induction false} Dropped(plans: Plans, id: Id)
    ensures |plans - {id}| <= |plans|
  {
    assert (plans - {id}).Keys == plans.Keys - {id};
    assert |plans.Keys - {id}| <= |plans.Keys|;
  }

  lemma {:induction false} PutOne(room: Plans, id: Id, after: Plans)
    requires id !in room && id in after && after == room[id := after[id]]
    ensures |after| == |room| + 1 && after - {id} == room && after.Keys == room.Keys + {id}
  {
    assert after.Keys == room.Keys + {id};
  }

  method NextId(now: int, n: nat) returns (id: Id)
    ensures id == IdOf(now, n) && id != "" && NumberIn(id) == n
  {
    id := IdOf(now, n);
    IdTellsNumber(now, n);
  }
}
