/**
  The layout of the toolbar and of the context menu: a container of items, dividers and other elements, the
  layout last applied to it, and the operations that arrange it. A group is the run of children between two
  dividers; a container is the list of its groups, so divider i stands behind group i.
 */
module ChromeLayout {
  import opened Text

  type Id = string

  datatype Kid = Item(id: Id) | Other(tag: Id)

  type Group = seq<Kid>

  datatype Layout = Layout(order: seq<Id>, hidden: seq<Id>)

  const DEFAULT := Layout([], [])

  // ----- groups --------------------------------------------------------------------------------------------

  function ItemsOf(g: Group): seq<Id> {
    if g == [] then [] else (if g[0].Item? then [g[0].id] else []) + ItemsOf(g[1..])
  }

  function OthersOf(g: Group): Group {
    if g == [] then [] else (if g[0].Item? then [] else [g[0]]) + OthersOf(g[1..])
  }

  function AsItems(ids: seq<Id>): (g: Group)
    ensures |g| == |ids| && forall k :: 0 <= k < |g| ==> g[k] == Item(ids[k])
  {
    if ids == [] then [] else [Item(ids[0])] + AsItems(ids[1..])
  }

  /** The item ids of every group. */
  function Lists(groups: seq<Group>): (lists: seq<seq<Id>>)
    ensures |lists| == |groups| && forall i :: 0 <= i < |groups| ==> lists[i] == ItemsOf(groups[i])
  {
    if groups == [] then [] else [ItemsOf(groups[0])] + Lists(groups[1..])
  }

  function Join(lists: seq<seq<Id>>): seq<Id> {
    if lists == [] then [] else lists[0] + Join(lists[1..])
  }

  function Flat(groups: seq<Group>): seq<Id> { Join(Lists(groups)) }

  predicate NoDuplicates(ids: seq<Id>) {
    forall i, j :: 0 <= i < j < |ids| ==> ids[i] != ids[j]
  }

  // ----- rank and order ------------------------------------------------------------------------------------

  /** The ids that are not there yet, each once, behind those that are. */
  function AddNew(ids: seq<Id>, more: seq<Id>): (r: seq<Id>)
    ensures ids <= r && (forall id :: id in r <==> id in ids || id in more)
    ensures NoDuplicates(ids) ==> NoDuplicates(r)
    decreases |more|
  {
    if more == [] then ids
    else AddNew(if more[0] in ids then ids else ids + [more[0]], more[1..])
  }

  /** Every id in the order it is ranked: the saved order first, then the default order. */
  function Ranked(defaults: seq<Id>, order: seq<Id>): (r: seq<Id>)
    ensures NoDuplicates(r) && forall id :: id in r <==> id in order || id in defaults
  {
    AddNew(AddNew([], order), defaults)
  }

  /** The rank of an id; one that is not ranked comes last. */
  function Rank(ranked: seq<Id>, id: Id): (n: nat)
    ensures n <= |ranked| && (n < |ranked| <==> id in ranked) && (n < |ranked| ==> ranked[n] == id)
  {
    if ranked == [] || ranked[0] == id then 0 else 1 + Rank(ranked[1..], id)
  }

  predicate InOrder(ranked: seq<Id>, ids: seq<Id>) {
    forall i, j :: 0 <= i < j < |ids| ==> Rank(ranked, ids[i]) <= Rank(ranked, ids[j])
  }

  /** Puts an id before the first one that ranks behind it. */
  function Insert(ranked: seq<Id>, id: Id, ids: seq<Id>): (r: seq<Id>)
    ensures multiset(r) == multiset{id} + multiset(ids)
  {
    if ids == [] then [id]
    else if Rank(ranked, id) <= Rank(ranked, ids[0]) then
      assert ids == [ids[0]] + ids[1..];
      [id] + ids
    else
      assert ids == [ids[0]] + ids[1..];
      [ids[0]] + Insert(ranked, id, ids[1..])
  }

  /** The stable sort by rank. */
  function Sort(ranked: seq<Id>, ids: seq<Id>): (r: seq<Id>)
    ensures multiset(r) == multiset(ids)
  {
    if ids == [] then []
    else
      assert ids == [ids[0]] + ids[1..];
      Insert(ranked, ids[0], Sort(ranked, ids[1..]))
  }

  lemma {:induction false} InsertOrdered(ranked: seq<Id>, id: Id, ids: seq<Id>)
    requires InOrder(ranked, ids)
    ensures InOrder(ranked, Insert(ranked, id, ids))
  {
    var r := Insert(ranked, id, ids);
    if ids != [] && Rank(ranked, id) > Rank(ranked, ids[0]) {
      var rest := Insert(ranked, id, ids[1..]);
      InsertOrdered(ranked, id, ids[1..]);
      forall k | 0 <= k < |rest| ensures Rank(ranked, ids[0]) <= Rank(ranked, rest[k]) {
        assert rest[k] in multiset(rest);
        assert rest[k] == id || rest[k] in ids[1..];
      }
      OrderedCons(ranked, ids[0], rest);
    }
  }

  lemma {:induction false} OrderedCons(ranked: seq<Id>, first: Id, rest: seq<Id>)
    requires InOrder(ranked, rest) && forall k :: 0 <= k < |rest| ==> Rank(ranked, first) <= Rank(ranked, rest[k])
    ensures InOrder(ranked, [first] + rest)
  {
  }

  lemma {:induction false} SortOrdered(ranked: seq<Id>, ids: seq<Id>)
    ensures InOrder(ranked, Sort(ranked, ids))
  {
    if ids != [] {
      SortOrdered(ranked, ids[1..]);
      InsertOrdered(ranked, ids[0], Sort(ranked, ids[1..]));
    }
  }

  /** Ranked ids have one order only. */
  lemma {:induction false} OneOrder(ranked: seq<Id>, a: seq<Id>, b: seq<Id>)
    requires InOrder(ranked, a) && InOrder(ranked, b) && multiset(a) == multiset(b)
    requires forall id :: id in a ==> id in ranked
    ensures a == b
    decreases |a|
  {
    assert |a| == |multiset(a)| == |multiset(b)| == |b|;
    if a != [] {
      assert a[0] in multiset(b) && b[0] in multiset(a);
      assert Rank(ranked, a[0]) == Rank(ranked, b[0]);
      assert a[0] == b[0];
      assert a == [a[0]] + a[1..] && b == [b[0]] + b[1..];
      assert multiset(a[1..]) == multiset(a) - multiset{a[0]};
      assert multiset(b[1..]) == multiset(b) - multiset{b[0]};
      OneOrder(ranked, a[1..], b[1..]);
    }
  }

  /** However the ids of a group stood before, sorting puts them in the same order. */
  lemma {:induction false} SortForgets(ranked: seq<Id>, a: seq<Id>, b: seq<Id>)
    requires multiset(a) == multiset(b) && forall id :: id in a ==> id in ranked
    ensures Sort(ranked, a) == Sort(ranked, b)
  {
    SortOrdered(ranked, a);
    SortOrdered(ranked, b);
    forall id | id in Sort(ranked, a) ensures id in ranked { assert id in multiset(a); }
    OneOrder(ranked, Sort(ranked, a), Sort(ranked, b));
  }

  lemma {:induction false} SortKeepsOrder(ranked: seq<Id>, ids: seq<Id>)
    requires InOrder(ranked, ids) && forall id :: id in ids ==> id in ranked
    ensures Sort(ranked, ids) == ids
  {
    SortOrdered(ranked, ids);
    OneOrder(ranked, ids, Sort(ranked, ids));
  }

  /** The map the code builds has the rank of every id. */
  method BuildRank(defaults: seq<Id>, order: seq<Id>) returns (rank: map<Id, nat>)
    ensures forall id :: id in rank <==> id in Ranked(defaults, order)
    ensures forall id :: id in rank ==> rank[id] == Rank(Ranked(defaults, order), id)
  {
    rank := map[];
    ghost var ids: seq<Id> := [];
    for i := 0 to |order|
      invariant Numbers(rank, ids) && AddNew(ids, order[i..]) == AddNew([], order)
    {
      assert order[i..][1..] == order[i + 1..];
      if order[i] !in rank {
        NumberNext(rank, ids, order[i]);
        rank, ids := rank[order[i] := |rank|], ids + [order[i]];
      }
    }
    ghost var first := ids;
    for i := 0 to |defaults|
      invariant Numbers(rank, ids) && AddNew(ids, defaults[i..]) == AddNew(first, defaults)
    {
      assert defaults[i..][1..] == defaults[i + 1..];
      if defaults[i] !in rank {
        NumberNext(rank, ids, defaults[i]);
        rank, ids := rank[defaults[i] := |rank|], ids + [defaults[i]];
      }
    }
  }

  /** A map numbers the ids of a list from zero. */
  ghost predicate Numbers(rank: map<Id, nat>, ids: seq<Id>) {
    && |rank| == |ids| && NoDuplicates(ids)
    && (forall id :: id in rank <==> id in ids) && forall id :: id in rank ==> rank[id] == Rank(ids, id)
  }

  lemma {:induction false} NumberNext(rank: map<Id, nat>, ids: seq<Id>, id: Id)
    requires Numbers(rank, ids) && id !in ids
    ensures Numbers(rank[id := |rank|], ids + [id])
  {
    forall x | x in rank ensures Rank(ids + [id], x) == Rank(ids, x) { RankOfMore(ids, id, x); }
    RankOfMore(ids, id, id);
  }

  lemma {:induction false} RankOfMore(ids: seq<Id>, id: Id, x: Id)
    ensures Rank(ids + [id], x) == if x in ids then Rank(ids, x) else if x == id then |ids| else |ids| + 1
  {
    if ids != [] && ids[0] != x {
      assert (ids + [id])[1..] == ids[1..] + [id];
      RankOfMore(ids[1..], id, x);
    }
  }

  // ----- a list of ids in groups ---------------------------------------------------------------------------

  lemma {:induction false} CountOnce(ids: seq<Id>, x: Id)
    requires NoDuplicates(ids)
    ensures multiset(ids)[x] <= 1
  {
    if ids != [] {
      assert ids == [ids[0]] + ids[1..];
      CountOnce(ids[1..], x);
      if ids[0] == x { assert x !in ids[1..]; }
    }
  }

  lemma {:induction false} CountTwice(ids: seq<Id>, i: nat, j: nat)
    requires i < j < |ids| && ids[i] == ids[j]
    ensures multiset(ids)[ids[i]] >= 2
  {
    var a, b := ids[..j], ids[j..];
    assert ids == a + b && a[i] == ids[i] && b[0] == ids[j];
    assert a[i] in multiset(a) && b[0] in multiset(b);
  }

  lemma {:induction false} NoDuplicatesIn(a: seq<Id>, b: seq<Id>)
    requires NoDuplicates(a) && multiset(a) == multiset(b)
    ensures NoDuplicates(b)
  {
    forall i, j | 0 <= i < j < |b| ensures b[i] != b[j] {
      CountOnce(a, b[i]);
      if b[i] == b[j] { CountTwice(b, i, j); }
    }
  }

  ghost predicate SameIds(a: seq<seq<Id>>, b: seq<seq<Id>>) {
    |a| == |b| && forall i :: 0 <= i < |a| ==> multiset(a[i]) == multiset(b[i])
  }

  lemma {:induction false} JoinSameIds(a: seq<seq<Id>>, b: seq<seq<Id>>)
    requires SameIds(a, b)
    ensures multiset(Join(a)) == multiset(Join(b))
  {
    if a != [] { JoinSameIds(a[1..], b[1..]); }
  }

  /** Where a list stands in the joined ids. */
  lemma {:induction false} JoinAt(lists: seq<seq<Id>>, i: nat) returns (at: nat)
    requires i < |lists|
    ensures at + |lists[i]| <= |Join(lists)| && Join(lists)[at..at + |lists[i]|] == lists[i]
  {
    if i == 0 {
      at := 0;
      assert Join(lists)[0..|lists[0]|] == lists[0];
    } else {
      var rest := JoinAt(lists[1..], i - 1);
      at := |lists[0]| + rest;
      assert Join(lists)[at..at + |lists[i]|] == Join(lists[1..])[rest..rest + |lists[i]|];
    }
  }

  lemma {:induction false} RankIsIndex(ids: seq<Id>, i: nat)
    requires NoDuplicates(ids) && i < |ids|
    ensures Rank(ids, ids[i]) == i
  {
    var r := Rank(ids, ids[i]);
    assert ids[i] in ids;
    assert r < |ids| && ids[r] == ids[i];
  }

  /** Ids added behind do not change the rank of those before. */
  lemma {:induction false} RankInPrefix(ids: seq<Id>, more: seq<Id>, i: nat)
    requires NoDuplicates(more) && ids <= more && i < |ids|
    ensures Rank(more, ids[i]) == i
  {
    assert more[i] == ids[i];
    RankIsIndex(more, i);
  }

  lemma {:induction false} AddNewAll(ids: seq<Id>, more: seq<Id>)
    requires NoDuplicates(ids + more)
    ensures AddNew(ids, more) == ids + more
    decreases |more|
  {
    if more == [] {
      assert ids + more == ids;
    } else {
      assert (ids + more)[|ids|] == more[0];
      forall k | 0 <= k < |ids| ensures ids[k] != more[0] { assert (ids + more)[k] == ids[k]; }
      assert (ids + [more[0]]) + more[1..] == ids + more;
      AddNewAll(ids + [more[0]], more[1..]);
    }
  }

  /** An order made of lists without duplicates puts each list as it is. */
  lemma {:induction false} OrderOfLists(defaults: seq<Id>, lists: seq<seq<Id>>, i: nat)
    requires NoDuplicates(Join(lists)) && i < |lists|
    ensures InOrder(Ranked(defaults, Join(lists)), lists[i])
    ensures forall id :: id in lists[i] ==> id in Ranked(defaults, Join(lists))
  {
    var order, g := Join(lists), lists[i];
    assert order <= Ranked(defaults, order) by {
      AddNewAll([], order);
      assert [] + order == order;
    }
    var at := JoinAt(lists, i);
    PartInOrder(order, Ranked(defaults, order), at, g);
  }

  lemma {:induction false} PartInOrder(order: seq<Id>, ranked: seq<Id>, at: nat, g: seq<Id>)
    requires NoDuplicates(ranked) && order <= ranked && at + |g| <= |order| && order[at..at + |g|] == g
    ensures InOrder(ranked, g) && forall id :: id in g ==> id in ranked
  {
    forall k | 0 <= k < |g| ensures Rank(ranked, g[k]) == at + k && g[k] in ranked {
      assert order[at..at + |g|][k] == order[at + k];
      RankInPrefix(order, ranked, at + k);
    }
  }

  /** Sorting any rearrangement of a list by such an order gives the list. */
  lemma {:induction false} SortGivesList(defaults: seq<Id>, lists: seq<seq<Id>>, i: nat, ids: seq<Id>)
    requires NoDuplicates(Join(lists)) && i < |lists| && multiset(ids) == multiset(lists[i])
    ensures Sort(Ranked(defaults, Join(lists)), ids) == lists[i]
  {
    OrderOfLists(defaults, lists, i);
    var ranked := Ranked(defaults, Join(lists));
    SortForgets(ranked, lists[i], ids);
    SortKeepsOrder(ranked, lists[i]);
  }

  /** Without a saved order the ids stand as they do by default. */
  lemma {:induction false} DefaultOrder(lists: seq<seq<Id>>, i: nat, ids: seq<Id>)
    requires NoDuplicates(Join(lists)) && i < |lists| && multiset(ids) == multiset(lists[i])
    ensures Sort(Ranked(Join(lists), []), ids) == lists[i]
  {
    var d := Join(lists);
    AddNewAll([], d);
    assert [] + d == d;
    SelfRanked(d);
    SortGivesList(d, lists, i, ids);
  }

  lemma {:induction false} SelfRanked(d: seq<Id>)
    requires NoDuplicates(d) && AddNew([], d) == d
    ensures Ranked(d, []) == d && Ranked(d, d) == d
  {
    NothingNew(d, d);
  }

  lemma {:induction false} NothingNew(ids: seq<Id>, more: seq<Id>)
    requires forall id :: id in more ==> id in ids
    ensures AddNew(ids, more) == ids
    decreases |more|
  {
    if more != [] {
      assert more[0] in ids;
      NothingNew(ids, more[1..]);
    }
  }

  // ----- rearranging a group -------------------------------------------------------------------------------

  /** The kids that are not among the items taken out. */
  function Left(g: Group, gone: seq<Id>): Group {
    if g == [] then [] else (if g[0].Item? && g[0].id in gone then [] else [g[0]]) + Left(g[1..], gone)
  }

  /** A group as the arranging leaves it: untouched when it is in order, else its items behind everything else. */
  function Arranged(g: Group, sorted: seq<Id>): Group {
    if sorted == ItemsOf(g) then g else OthersOf(g) + AsItems(sorted)
  }

  lemma {:induction false} LeftOfJoin(a: Group, b: Group, gone: seq<Id>)
    ensures Left(a + b, gone) == Left(a, gone) + Left(b, gone)
  {
    if a == [] {
      assert a + b == b;
    } else {
      var head: Group := if a[0].Item? && a[0].id in gone then [] else [a[0]];
      LeftOfJoin(a[1..], b, gone);
      assert Left(a + b, gone) == head + Left(a[1..] + b, gone) by { assert (a + b)[1..] == a[1..] + b; }
      AppendStep(head, Left(a[1..], gone), Left(b, gone));
    }
  }

  lemma {:induction false} LeftMore(g: Group, gone: seq<Id>, id: Id)
    ensures Left(Left(g, gone), [id]) == Left(g, gone + [id])
  {
    if g != [] {
      LeftMore(g[1..], gone, id);
      var rest := Left(g[1..], gone);
      assert ([g[0]] + rest)[1..] == rest && [] + rest == rest;
    }
  }

  lemma {:induction false} LeftOfItems(ids: seq<Id>, id: Id)
    requires id !in ids
    ensures Left(AsItems(ids), [id]) == AsItems(ids)
  {
    if ids != [] { LeftOfItems(ids[1..], id); }
  }

  lemma {:induction false} NothingGone(g: Group)
    ensures Left(g, []) == g
  {
    if g != [] { NothingGone(g[1..]); }
  }

  lemma {:induction false} AllGone(g: Group, gone: seq<Id>)
    requires forall id :: id in ItemsOf(g) ==> id in gone
    ensures Left(g, gone) == OthersOf(g)
  {
    if g != [] { AllGone(g[1..], gone); }
  }

  lemma {:induction false} AsItemsMore(ids: seq<Id>, id: Id)
    ensures AsItems(ids + [id]) == AsItems(ids) + [Item(id)]
  {
  }

  lemma {:induction false} PlaceStep(g: Group, done: seq<Id>, id: Id)
    requires id !in done
    ensures Left(Left(g, done) + AsItems(done), [id]) + [Item(id)] == Left(g, done + [id]) + AsItems(done + [id])
  {
    LeftOfJoin(Left(g, done), AsItems(done), [id]);
    LeftMore(g, done, id);
    LeftOfItems(done, id);
    AsItemsMore(done, id);
    AppendStep(Left(g, done + [id]), AsItems(done), [Item(id)]);
  }

  /** Each item in turn is moved to the end of its group, that is, before the divider behind it. */
  method PlaceItems(g: Group, sorted: seq<Id>) returns (out: Group)
    requires NoDuplicates(sorted) && multiset(sorted) == multiset(ItemsOf(g))
    ensures out == Arranged(g, sorted)
  {
    if sorted == ItemsOf(g) { return g; }
    out := g;
    NothingGone(g);
    for k := 0 to |sorted|
      invariant out == Left(g, sorted[..k]) + AsItems(sorted[..k])
    {
      NextPlaced(g, sorted, k);
      out := Left(out, [sorted[k]]) + [Item(sorted[k])];
    }
    AllPlaced(g, sorted);
  }

  lemma {:induction false} NextPlaced(g: Group, sorted: seq<Id>, k: nat)
    requires NoDuplicates(sorted) && k < |sorted|
    ensures Left(Left(g, sorted[..k]) + AsItems(sorted[..k]), [sorted[k]]) + [Item(sorted[k])]
         == Left(g, sorted[..k + 1]) + AsItems(sorted[..k + 1])
  {
    assert sorted[..k + 1] == sorted[..k] + [sorted[k]];
    PlaceStep(g, sorted[..k], sorted[k]);
  }

  lemma {:induction false} AllPlaced(g: Group, sorted: seq<Id>)
    requires multiset(sorted) == multiset(ItemsOf(g))
    ensures Left(g, sorted[..|sorted|]) + AsItems(sorted[..|sorted|]) == OthersOf(g) + AsItems(sorted)
  {
    assert sorted[..|sorted|] == sorted;
    forall id | id in ItemsOf(g) ensures id in sorted { assert id in multiset(sorted); }
    AllGone(g, sorted);
  }

  lemma {:induction false} PartsOfJoin(a: Group, b: Group)
    ensures ItemsOf(a + b) == ItemsOf(a) + ItemsOf(b) && OthersOf(a + b) == OthersOf(a) + OthersOf(b)
  {
    if a == [] {
      assert a + b == b;
    } else {
      assert (a + b)[1..] == a[1..] + b;
      PartsOfJoin(a[1..], b);
    }
  }

  lemma {:induction false} PartsOfItems(ids: seq<Id>)
    ensures ItemsOf(AsItems(ids)) == ids && OthersOf(AsItems(ids)) == []
  {
    if ids != [] { PartsOfItems(ids[1..]); }
  }

  lemma {:induction false} PartsOfOthers(g: Group)
    ensures ItemsOf(OthersOf(g)) == [] && OthersOf(OthersOf(g)) == OthersOf(g)
  {
    if g != [] {
      PartsOfOthers(g[1..]);
      var rest := OthersOf(g[1..]);
      assert ([g[0]] + rest)[1..] == rest && [] + rest == rest;
    }
  }

  /** Arranging changes the order of the items and nothing else. */
  lemma {:induction false} ArrangedParts(g: Group, sorted: seq<Id>)
    ensures ItemsOf(Arranged(g, sorted)) == sorted && OthersOf(Arranged(g, sorted)) == OthersOf(g)
  {
    PartsOfJoin(OthersOf(g), AsItems(sorted));
    PartsOfItems(sorted);
    PartsOfOthers(g);
  }

  /** Nothing but items comes behind an item. */
  predicate OthersLead(g: Group) {
    g == OthersOf(g) + AsItems(ItemsOf(g))
  }

  /** Once its items were in another order, a group comes back as it was exactly when its other kids led it. */
  lemma {:induction false} RestoredIffOthersLead(g: Group, other: seq<Id>)
    requires other != ItemsOf(g)
    ensures Arranged(Arranged(g, other), ItemsOf(g)) == g <==> OthersLead(g)
  {
    ArrangedParts(g, other);
  }

  // ----- dividers ------------------------------------------------------------------------------------------

  predicate VisibleIn(g: Group, marked: set<Id>) {
    exists k :: 0 <= k < |g| && VisibleKid(g[k], marked)
  }

  predicate VisibleKid(kid: Kid, marked: set<Id>) {
    kid.Item? && kid.id !in marked
  }

  ghost predicate VisibleUpTo(groups: seq<Group>, marked: set<Id>, n: nat) {
    exists j :: 0 <= j < n && j < |groups| && VisibleIn(groups[j], marked)
  }

  /** Divider i is shown: its next group has a visible item, and so has some group before it. */
  ghost predicate Shown(groups: seq<Group>, marked: set<Id>, i: nat) {
    i + 1 < |groups| && VisibleIn(groups[i + 1], marked) && VisibleUpTo(groups, marked, i + 1)
  }

  /** The state of the pass between two groups. */
  ghost predicate PassOk(groups: seq<Group>, marked: set<Id>, n: nat, shown: seq<bool>, pending: Option<nat>,
        seen: bool) {
    && n <= |groups| && |shown| == n
    && (forall i :: 0 <= i < n - 1 ==> shown[i] == Shown(groups, marked, i))
    && (n > 0 ==> !shown[n - 1])
    && seen == VisibleUpTo(groups, marked, n)
    && pending == if n > 0 && seen then Some(n - 1) else None
  }

  /** One kid after the other; the divider that waits is shown by the first visible item. */
  method PassGroup(g: Group, marked: set<Id>, shown0: seq<bool>, pending0: Option<nat>, seen0: bool)
    returns (shown: seq<bool>, pending: Option<nat>, seen: bool)
    requires pending0.Some? ==> pending0.value < |shown0|
    ensures seen == (seen0 || VisibleIn(g, marked))
    ensures VisibleIn(g, marked) ==> pending.None? && shown == if pending0.Some? then shown0[pending0.value := true]
      else shown0
    ensures !VisibleIn(g, marked) ==> pending == pending0 && shown == shown0
  {
    shown, pending, seen := shown0, pending0, seen0;
    for k := 0 to |g|
      invariant seen == (seen0 || VisibleIn(g[..k], marked))
      invariant VisibleIn(g[..k], marked) ==>
        pending.None? && shown == if pending0.Some? then shown0[pending0.value := true] else shown0
      invariant !VisibleIn(g[..k], marked) ==> pending == pending0 && shown == shown0
    {
      VisibleInMore(g, marked, k);
      if VisibleKid(g[k], marked) {
        if pending.Some? {
          shown, pending := shown[pending.value := true], None;
        }
        seen := true;
      }
    }
    assert g[..|g|] == g;
  }

  lemma {:induction false} VisibleInMore(g: Group, marked: set<Id>, k: nat)
    requires k < |g|
    ensures VisibleIn(g[..k + 1], marked) <==> VisibleIn(g[..k], marked) || VisibleKid(g[k], marked)
  {
    var a, b := g[..k], g[..k + 1];
    if VisibleIn(a, marked) {
      var j :| 0 <= j < |a| && VisibleKid(a[j], marked);
      assert b[j] == a[j];
    }
    if VisibleKid(g[k], marked) { assert b[k] == g[k]; }
    if VisibleIn(b, marked) {
      var j :| 0 <= j < |b| && VisibleKid(b[j], marked);
      if j < k { assert a[j] == b[j]; }
    }
  }

  lemma {:induction false} VisibleUpToNext(groups: seq<Group>, marked: set<Id>, n: nat)
    requires n < |groups|
    ensures VisibleUpTo(groups, marked, n + 1) <==> VisibleUpTo(groups, marked, n) || VisibleIn(groups[n], marked)
  {
  }

  /** The divider pass: every divider is hidden first, and the last one before a visible item is shown. */
  method PassDividers(groups: seq<Group>, marked: set<Id>) returns (shown: seq<bool>)
    requires groups != []
    ensures |shown| == |groups| - 1
    ensures forall i :: 0 <= i < |groups| - 1 ==> shown[i] == Shown(groups, marked, i)
  {
    shown := [];
    var pending: Option<nat>, seen := None, false;
    for n := 0 to |groups| - 1
      invariant PassOk(groups, marked, n, shown, pending, seen)
    {
      shown, pending, seen := PassGroup(groups[n], marked, shown, pending, seen);
      VisibleUpToNext(groups, marked, n);
      shown := shown + [false];
      if seen { pending := Some(n); }
    }
    shown, pending, seen := PassGroup(groups[|groups| - 1], marked, shown, pending, seen);
  }
}
