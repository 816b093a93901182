/**
  A customisable surface, the toolbar or the context menu: its container, what was last applied, and the
  operations of the settings. Whatever was done before, the container shows the current layout of its markup.
 */
module ChromeSurface {
  import opened Text
  import opened ChromeLayout

  // ----- what the divider pass achieves --------------------------------------------------------------------

  ghost predicate PassedOver(groups: seq<Group>, marked: set<Id>, shown: seq<bool>) {
    |shown| == |groups| - 1 && forall i :: 0 <= i < |shown| ==> shown[i] == Shown(groups, marked, i)
  }

  function CountTrue(shown: seq<bool>): nat {
    if shown == [] then 0 else CountTrue(shown[..|shown| - 1]) + if shown[|shown| - 1] then 1 else 0
  }

  function VisibleGroups(groups: seq<Group>, marked: set<Id>, n: nat): nat
    requires n <= |groups|
  {
    if n == 0 then 0 else VisibleGroups(groups, marked, n - 1) + if VisibleIn(groups[n - 1], marked) then 1 else 0
  }

  lemma {:induction false} NoneVisible(groups: seq<Group>, marked: set<Id>, n: nat)
    requires n <= |groups|
    ensures VisibleGroups(groups, marked, n) == 0 <==> !VisibleUpTo(groups, marked, n)
  {
    if n > 0 {
      NoneVisible(groups, marked, n - 1);
      VisibleUpToNext(groups, marked, n - 1);
    }
  }

  lemma {:induction false} ShownCount(groups: seq<Group>, marked: set<Id>, shown: seq<bool>, n: nat)
    requires PassedOver(groups, marked, shown) && 1 <= n <= |groups|
    ensures CountTrue(shown[..n - 1]) == if VisibleGroups(groups, marked, n) == 0 then 0
      else VisibleGroups(groups, marked, n) - 1
  {
    if n > 1 {
      ShownCount(groups, marked, shown, n - 1);
      assert shown[..n - 1][..n - 2] == shown[..n - 2];
      NoneVisible(groups, marked, n - 1);
      assert shown[n - 2] == Shown(groups, marked, n - 2);
    } else {
      assert shown[..0] == [];
    }
  }

  /** Some group in [from, to) has a visible item. */
  ghost predicate VisibleBetween(groups: seq<Group>, marked: set<Id>, from: nat, to: nat) {
    exists m :: from <= m < to && m < |groups| && VisibleIn(groups[m], marked)
  }

  /**
    As many dividers are shown as separate the groups with a visible item: before each of them and behind it there is
    one, and between any two.
   */
  lemma {:induction false} DividersCount(groups: seq<Group>, marked: set<Id>, shown: seq<bool>)
    requires groups != [] && PassedOver(groups, marked, shown)
    ensures var v := VisibleGroups(groups, marked, |groups|); CountTrue(shown) == if v == 0 then 0 else v - 1
    ensures forall i :: 0 <= i < |shown| && shown[i] ==>
      VisibleBetween(groups, marked, 0, i + 1) && VisibleBetween(groups, marked, i + 1, |groups|)
    ensures forall i, j :: 0 <= i < j < |shown| && shown[i] && shown[j] ==> VisibleBetween(groups, marked, i + 1, j + 1)
  {
    ShownCount(groups, marked, shown, |groups|);
    assert shown[..|groups| - 1] == shown;
    forall i | 0 <= i < |shown| && shown[i]
      ensures VisibleBetween(groups, marked, 0, i + 1) && VisibleIn(groups[i + 1], marked)
    {
      assert Shown(groups, marked, i);
    }
  }

  // ----- what a surface shows ------------------------------------------------------------------------------

  function Ids(groups: seq<Group>): set<Id> { set id | id in Flat(groups) }

  function Hide(l: Layout, locked: set<Id>): set<Id> { set id | id in l.hidden && id !in locked }

  /** The markup with a layout: each group with its own items, ranked by the layout, and its hidden items marked. */
  ghost predicate Shows(pristine: seq<Group>, locked: set<Id>, l: Layout, groups: seq<Group>, marked: set<Id>) {
    && |groups| == |pristine| && marked == Hide(l, locked) * Ids(pristine)
    && forall i :: 0 <= i < |groups| ==> GroupShows(pristine, l, i, groups[i])
  }

  ghost predicate GroupShows(pristine: seq<Group>, l: Layout, i: nat, g: Group)
    requires i < |pristine|
  {
    && ItemsOf(g) == Sort(Ranked(Flat(pristine), l.order), ItemsOf(pristine[i]))
    && OthersOf(g) == OthersOf(pristine[i])
    && (g == pristine[i] || OthersLead(g))
  }

  predicate NoEmptyGroup(groups: seq<Group>) {
    forall i :: 0 <= i < |groups| ==> ItemsOf(groups[i]) != []
  }

  function VisibleCount(ids: seq<Id>, marked: set<Id>): nat {
    if ids == [] then 0 else (if ids[0] in marked then 0 else 1) + VisibleCount(ids[1..], marked)
  }

  lemma {:induction false} ItemsInFlat(groups: seq<Group>, i: nat)
    requires i < |groups|
    ensures forall id :: id in ItemsOf(groups[i]) ==> id in Flat(groups)
  {
    if i > 0 {
      ItemsInFlat(groups[1..], i - 1);
      assert Lists(groups)[1..] == Lists(groups[1..]);
    }
  }

  lemma {:induction false} PristineShows(pristine: seq<Group>, locked: set<Id>)
    requires NoDuplicates(Flat(pristine))
    ensures Shows(pristine, locked, DEFAULT, pristine, {})
  {
    forall i | 0 <= i < |pristine| ensures GroupShows(pristine, DEFAULT, i, pristine[i]) {
      DefaultOrder(Lists(pristine), i, ItemsOf(pristine[i]));
    }
  }

  /** Arranging a group that shows one layout makes it show another. */
  lemma {:induction false} GroupRearranged(pristine: seq<Group>, was: Layout, l: Layout, i: nat, g: Group)
    requires i < |pristine| && NoDuplicates(Flat(pristine)) && GroupShows(pristine, was, i, g)
    ensures var sorted := Sort(Ranked(Flat(pristine), l.order), ItemsOf(g));
      GroupShows(pristine, l, i, Arranged(g, sorted)) && multiset(sorted) == multiset(ItemsOf(g))
  {
    var ranked, mine := Ranked(Flat(pristine), l.order), ItemsOf(pristine[i]);
    var sorted := Sort(ranked, ItemsOf(g));
    assert multiset(ItemsOf(g)) == multiset(mine);
    assert sorted == Sort(ranked, mine) by {
      AllRanked(pristine, l, i, ItemsOf(g));
      SortForgets(ranked, ItemsOf(g), mine);
    }
    ArrangedParts(g, sorted);
    ArrangedLeads(g, sorted);
  }

  lemma {:induction false} AllRanked(pristine: seq<Group>, l: Layout, i: nat, ids: seq<Id>)
    requires i < |pristine| && multiset(ids) == multiset(ItemsOf(pristine[i]))
    ensures forall id :: id in ids ==> id in Ranked(Flat(pristine), l.order)
  {
    ItemsInFlat(pristine, i);
    forall id | id in ids ensures id in Ranked(Flat(pristine), l.order) { assert id in multiset(ItemsOf(pristine[i])); }
  }

  lemma {:induction false} ArrangedLeads(g: Group, sorted: seq<Id>)
    ensures Arranged(g, sorted) == g || OthersLead(Arranged(g, sorted))
  {
    ArrangedParts(g, sorted);
  }

  /** Two containers that show the same layout of the same markup have the same items in the same order. */
  lemma {:induction false} OneView(pristine: seq<Group>, locked: set<Id>, l: Layout, g1: seq<Group>, m1: set<Id>,
        g2: seq<Group>, m2: set<Id>)
    requires Shows(pristine, locked, l, g1, m1) && Shows(pristine, locked, l, g2, m2)
    ensures Lists(g1) == Lists(g2) && m1 == m2
  {
    forall i | 0 <= i < |g1| ensures Lists(g1)[i] == Lists(g2)[i] {
      assert GroupShows(pristine, l, i, g1[i]) && GroupShows(pristine, l, i, g2[i]);
    }
  }

  lemma {:induction false} SameIdsShown(pristine: seq<Group>, locked: set<Id>, l: Layout, groups: seq<Group>,
        marked: set<Id>)
    requires Shows(pristine, locked, l, groups, marked) && NoDuplicates(Flat(pristine))
    ensures SameIds(Lists(groups), Lists(pristine)) && NoDuplicates(Flat(groups)) && Ids(groups) == Ids(pristine)
  {
    forall i | 0 <= i < |groups| ensures multiset(Lists(groups)[i]) == multiset(Lists(pristine)[i]) {
      assert GroupShows(pristine, l, i, groups[i]);
    }
    JoinSameIds(Lists(groups), Lists(pristine));
    NoDuplicatesIn(Flat(pristine), Flat(groups));
    forall id ensures id in Flat(groups) <==> id in Flat(pristine) {
      assert id in Flat(groups) <==> id in multiset(Flat(groups));
    }
  }

  /** With a visible item in every group every divider is shown. */
  lemma {:induction false} AllDividersShown(groups: seq<Group>, shown: seq<bool>)
    requires groups != [] && PassedOver(groups, {}, shown) && NoEmptyGroup(groups)
    ensures forall i :: 0 <= i < |shown| ==> shown[i]
  {
    forall i | 0 <= i < |shown| ensures shown[i] {
      NotEmptyVisible(groups[0]);
      NotEmptyVisible(groups[i + 1]);
      assert VisibleUpTo(groups, {}, i + 1);
      assert Shown(groups, {}, i);
    }
  }

  lemma {:induction false} NotEmptyVisible(g: Group)
    requires ItemsOf(g) != []
    ensures VisibleIn(g, {})
  {
    if g[0].Item? {
      assert VisibleKid(g[0], {});
    } else {
      NotEmptyVisible(g[1..]);
      var k :| 0 <= k < |g[1..]| && VisibleKid(g[1..][k], {});
      assert VisibleKid(g[k + 1], {});
    }
  }

  /** The dividers and the count of visible items: of the markup until it is arranged, and then of the groups. */
  ghost predicate Counted(pristine: seq<Group>, groups: seq<Group>, marked: set<Id>, shown: seq<bool>,
                          defaults: Option<seq<Id>>, visible: Option<nat>) {
    if defaults.None? then
      groups == pristine && marked == {} && (forall i :: 0 <= i < |shown| ==> shown[i]) && visible.None?
    else
      defaults.value == Flat(pristine) && PassedOver(groups, marked, shown) &&
        visible == Some(VisibleCount(Flat(groups), marked))
  }

  // ----- the surface ---------------------------------------------------------------------------------------

  /** `pristine` is the markup as it was loaded: nothing hidden, every divider shown. */
  class Surface {
    const locked: set<Id>
    ghost const pristine: seq<Group>
    var groups: seq<Group>
    var marked: set<Id>
    var shown: seq<bool>
    var defaults: Option<seq<Id>>
    var applied: Option<Layout>
    var dirty: bool
    var visible: Option<nat>

    ghost function Current(): Layout
      reads this
    {
      if applied.Some? then applied.value else DEFAULT
    }

    /** The container shows the current layout; until it was first arranged it is the markup. */
    ghost predicate Valid()
      reads this
    {
      && pristine != [] && NoDuplicates(Flat(pristine))
      && Shows(pristine, locked, Current(), groups, marked)
      && dirty == (Current() != DEFAULT)
      && |shown| == |groups| - 1 && (defaults.None? ==> !dirty)
      && Counted(pristine, groups, marked, shown, defaults, visible)
    }

    constructor (markup: seq<Group>, keep: set<Id>)
      requires markup != [] && NoDuplicates(Flat(markup))
      ensures Valid() && pristine == markup && groups == markup && marked == {} && locked == keep && applied == None
    {
      locked, pristine := keep, markup;
      groups, marked, shown := markup, {}, seq(|markup| - 1, _ => true);
      defaults, applied, dirty, visible := None, None, false, None;
      PristineShows(markup, keep);
    }

    /** Whatever was applied before, the container shows this layout now; it tells whether it was rearranged. */
    method Apply(l: Layout) returns (changed: bool)
      requires Valid()
      modifies this
      ensures Valid() && applied == Some(l)
      ensures changed <==> old(applied) != Some(l) && (l != DEFAULT || old(dirty))
      ensures changed ==> defaults.Some?
      ensures !changed ==> groups == old(groups) && marked == old(marked) && shown == old(shown)
    {
      if applied == Some(l) { return false; }
      if l == DEFAULT && !dirty {
        applied := Some(l);
        return false;
      }
      Arrange(l);
      changed := true;
    }

    method Arrange(l: Layout)
      requires Valid()
      modifies this
      ensures Valid() && applied == Some(l) && defaults.Some?
    {
      var order := if defaults.None? then Flat(groups) else defaults.value;
      var arranged, hiding, dividers := Rearranged(pristine, locked, Current(), l, Ranked(order, l.order), groups);
      var count := VisibleCount(Flat(arranged), hiding);
      assert Counted(pristine, arranged, hiding, dividers, Some(order), Some(count));
      groups, marked, shown, defaults, visible, applied, dirty :=
        arranged, hiding, dividers, Some(order), Some(count), Some(l), l != DEFAULT;
    }

    /** Hides or shows an item; a locked one stays. Every other item is hidden or shown as before. */
    method SetVisible(l: Layout, id: Id, show: bool) returns (r: Layout)
      requires Valid()
      modifies this
      ensures Valid()
      ensures id in locked ==> r == l && applied == old(applied) && groups == old(groups) && marked == old(marked)
      ensures id !in locked ==> applied == Some(r) && r.order == l.order && (id in r.hidden <==> !show)
      ensures id !in locked ==> forall x :: x != id ==> (x in r.hidden <==> x in l.hidden)
    {
      if id in locked { return l; }
      var ids := AddNew([], l.hidden);
      r := l.(hidden := if show then Without(ids, id) else AddNew(ids, [id]));
      WithoutIs(ids, id);
      var changed := Apply(r);
    }

    /** Puts an item where its neighbour in the same group is; every other group stays as it is. */
    method Move(l: Layout, id: Id, delta: int) returns (moved: bool, r: Layout)
      requires Valid()
      modifies this
      ensures Valid()
      ensures !moved ==> r == l && groups == old(groups) && applied == old(applied) && marked == old(marked)
      ensures moved <==> Destination(old(Lists(groups)), id, delta).Some?
      ensures moved ==>
        r.hidden == l.hidden && applied == Some(r) && Lists(groups) == Moved(old(Lists(groups)), id, delta)
    {
      var lists := Lists(groups);
      if Destination(lists, id, delta).None? { return false, l; }
      r := l.(order := Join(Moved(lists, id, delta)));
      SameIdsShown(pristine, locked, Current(), groups, marked);
      MovedSameIds(lists, id, delta);
      var changed := Apply(r);
      moved := true;
      ShowsMoved(pristine, locked, r, groups, marked, Moved(lists, id, delta));
    }

    /** Back to the markup: the items in their order and none hidden; all of it when its groups allow that. */
    method Reset() returns (r: Layout)
      requires Valid()
      modifies this
      ensures Valid() && r == DEFAULT && applied == Some(DEFAULT) && !dirty
      ensures Lists(groups) == Lists(pristine) && marked == {}
      ensures NoEmptyGroup(pristine) ==> forall i :: 0 <= i < |shown| ==> shown[i]
      ensures (forall i :: 0 <= i < |pristine| ==> OthersLead(pristine[i])) ==> groups == pristine
    {
      r := DEFAULT;
      var changed := Apply(r);
      ItemsRestored(pristine, locked, groups, marked);
      DividersRestored(pristine, groups, marked, shown, defaults, visible);
      KidsRestored(pristine, locked, groups, marked);
    }

    method HasVisibleItems() returns (r: bool)
      requires Valid()
      ensures defaults.Some? ==> (r <==> VisibleCount(Flat(groups), marked) > 0)
    {
      r := visible.None? || visible.value > 0;
    }
  }

  lemma {:induction false} ItemsRestored(pristine: seq<Group>, locked: set<Id>, groups: seq<Group>, marked: set<Id>)
    requires NoDuplicates(Flat(pristine)) && Shows(pristine, locked, DEFAULT, groups, marked)
    ensures Lists(groups) == Lists(pristine) && marked == {}
  {
    PristineShows(pristine, locked);
    OneView(pristine, locked, DEFAULT, groups, marked, pristine, {});
  }

  lemma {:induction false} DividersRestored(pristine: seq<Group>, groups: seq<Group>, marked: set<Id>, shown: seq<bool>,
                                            defaults: Option<seq<Id>>, visible: Option<nat>)
    requires pristine != [] && Lists(groups) == Lists(pristine) && marked == {}
    requires Counted(pristine, groups, marked, shown, defaults, visible)
    ensures NoEmptyGroup(pristine) ==> forall i :: 0 <= i < |shown| ==> shown[i]
  {
    if NoEmptyGroup(pristine) && defaults.Some? {
      assert forall i :: 0 <= i < |groups| ==> ItemsOf(groups[i]) == Lists(groups)[i] == ItemsOf(pristine[i]);
      AllDividersShown(groups, shown);
    }
  }

  lemma {:induction false} KidsRestored(pristine: seq<Group>, locked: set<Id>, groups: seq<Group>, marked: set<Id>)
    requires Shows(pristine, locked, DEFAULT, groups, marked) && Lists(groups) == Lists(pristine)
    ensures (forall i :: 0 <= i < |pristine| ==> OthersLead(pristine[i])) ==> groups == pristine
  {
    if forall i :: 0 <= i < |pristine| ==> OthersLead(pristine[i]) {
      forall i | 0 <= i < |groups| ensures groups[i] == pristine[i] {
        assert GroupShows(pristine, DEFAULT, i, groups[i]);
        assert ItemsOf(groups[i]) == Lists(groups)[i] == ItemsOf(pristine[i]);
      }
    }
  }

  /** The groups, the hidden items and the dividers of a layout. */
  method Rearranged(ghost pristine: seq<Group>, locked: set<Id>, ghost was: Layout, l: Layout, ranked: seq<Id>,
        groups: seq<Group>)
    returns (arranged: seq<Group>, marked: set<Id>, shown: seq<bool>)
    requires pristine != [] && NoDuplicates(Flat(pristine)) && |groups| == |pristine| &&
      ranked == Ranked(Flat(pristine), l.order)
    requires forall i :: 0 <= i < |groups| ==> GroupShows(pristine, was, i, groups[i])
    ensures Shows(pristine, locked, l, arranged, marked) && PassedOver(arranged, marked, shown)
  {
    arranged := ArrangeAll(pristine, was, l, ranked, groups);
    ArrangedAll(pristine, locked, l, arranged);
    var hidden := Hide(l, locked);
    marked := set id | id in hidden && id in Flat(arranged);
    shown := PassDividers(arranged, marked);
  }

  /** The loop over the groups. */
  method ArrangeAll(ghost pristine: seq<Group>, ghost was: Layout, ghost l: Layout, ranked: seq<Id>,
        groups: seq<Group>)
    returns (out: seq<Group>)
    requires NoDuplicates(Flat(pristine)) && |groups| == |pristine| && ranked == Ranked(Flat(pristine), l.order)
    requires forall i :: 0 <= i < |groups| ==> GroupShows(pristine, was, i, groups[i])
    ensures |out| == |groups| && forall i :: 0 <= i < |out| ==> GroupShows(pristine, l, i, out[i])
  {
    out := [];
    for i := 0 to |groups|
      invariant |out| == i && forall k :: 0 <= k < i ==> GroupShows(pristine, l, k, out[k])
    {
      var sorted := Sort(ranked, ItemsOf(groups[i]));
      GroupRearranged(pristine, was, l, i, groups[i]);
      GroupNoDuplicates(pristine, was, i, groups[i], sorted);
      var g := PlaceItems(groups[i], sorted);
      out := out + [g];
    }
  }

  lemma {:induction false} GroupNoDuplicates(pristine: seq<Group>, was: Layout, i: nat, g: Group, sorted: seq<Id>)
    requires i < |pristine| && NoDuplicates(Flat(pristine)) && GroupShows(pristine, was, i, g) &&
      multiset(sorted) == multiset(ItemsOf(g))
    ensures NoDuplicates(sorted)
  {
    var at := JoinAt(Lists(pristine), i);
    NoDuplicatesPart(Flat(pristine), at, at + |ItemsOf(pristine[i])|);
    assert GroupShows(pristine, was, i, g);
    NoDuplicatesIn(ItemsOf(pristine[i]), sorted);
  }

  lemma {:induction false} NoDuplicatesPart(ids: seq<Id>, a: nat, b: nat)
    requires NoDuplicates(ids) && a <= b <= |ids|
    ensures NoDuplicates(ids[a..b])
  {
  }

  lemma {:induction false} ArrangedAll(pristine: seq<Group>, locked: set<Id>, l: Layout, groups: seq<Group>)
    requires NoDuplicates(Flat(pristine)) && |groups| == |pristine|
    requires forall i :: 0 <= i < |groups| ==> GroupShows(pristine, l, i, groups[i])
    ensures Shows(pristine, locked, l, groups, set id | id in Hide(l, locked) && id in Flat(groups))
  {
    var marked := Hide(l, locked) * Ids(pristine);
    SameIdsShown(pristine, locked, l, groups, marked);
    assert Ids(groups) == Ids(pristine);
    assert marked == set id | id in Hide(l, locked) && id in Flat(groups);
  }

  // ----- hiding and moving ---------------------------------------------------------------------------------

  function Without(ids: seq<Id>, id: Id): seq<Id> {
    if ids == [] then [] else (if ids[0] == id then [] else [ids[0]]) + Without(ids[1..], id)
  }

  lemma {:induction false} WithoutIs(ids: seq<Id>, id: Id)
    ensures forall x :: x in Without(ids, id) <==> x in ids && x != id
  {
    if ids != [] { WithoutIs(ids[1..], id); }
  }

  function IndexOf(ids: seq<Id>, id: Id): (n: nat)
    ensures n <= |ids| && (n < |ids| ==> ids[n] == id) && (n < |ids| <==> id in ids)
  {
    if ids == [] || ids[0] == id then 0 else 1 + IndexOf(ids[1..], id)
  }

  /** The first group that holds an item, and the item's index there. */
  function Place(lists: seq<seq<Id>>, id: Id): (r: Option<(nat, nat)>)
    ensures r.Some? ==> r.value.0 < |lists| && r.value.1 < |lists[r.value.0]| && lists[r.value.0][r.value.1] == id
    ensures r.None? ==> forall g :: 0 <= g < |lists| ==> id !in lists[g]
  {
    if lists == [] then None
    else if IndexOf(lists[0], id) < |lists[0]| then Some((0, IndexOf(lists[0], id)))
    else
      match Place(lists[1..], id)
      case None => None
      case Some((g, i)) => Some((g + 1, i))
  }

  /** The index an item moves to, when its group has it. */
  function Destination(lists: seq<seq<Id>>, id: Id, delta: int): Option<nat> {
    match Place(lists, id)
    case None => None
    case Some((g, i)) => if 0 <= i + delta < |lists[g]| then Some(i + delta) else None
  }

  function Swap(ids: seq<Id>, i: nat, j: nat): seq<Id>
    requires i < |ids| && j < |ids|
  {
    ids[i := ids[j]][j := ids[i]]
  }

  /** The groups with the item and its neighbour swapped. */
  function Moved(lists: seq<seq<Id>>, id: Id, delta: int): seq<seq<Id>>
    requires Destination(lists, id, delta).Some?
  {
    var (g, i) := Place(lists, id).value;
    lists[g := Swap(lists[g], i, i + delta)]
  }

  lemma {:induction false} SwapSameIds(ids: seq<Id>, i: nat, j: nat)
    requires i < |ids| && j < |ids|
    ensures multiset(Swap(ids, i, j)) == multiset(ids)
  {
  }

  lemma {:induction false} MovedSameIds(lists: seq<seq<Id>>, id: Id, delta: int)
    requires Destination(lists, id, delta).Some? && NoDuplicates(Join(lists))
    ensures SameIds(Moved(lists, id, delta), lists) && NoDuplicates(Join(Moved(lists, id, delta)))
  {
    var (g, i) := Place(lists, id).value;
    SwapSameIds(lists[g], i, i + delta);
    JoinSameIds(Moved(lists, id, delta), lists);
    NoDuplicatesIn(Join(lists), Join(Moved(lists, id, delta)));
  }

  /** An order taken from lists shows those lists. */
  lemma {:induction false} ShowsMoved(pristine: seq<Group>, locked: set<Id>, l: Layout, groups: seq<Group>,
        marked: set<Id>, lists: seq<seq<Id>>)
    requires Shows(pristine, locked, l, groups, marked) && l.order == Join(lists) && NoDuplicates(Join(lists))
    requires SameIds(lists, Lists(pristine))
    ensures Lists(groups) == lists
  {
    forall i | 0 <= i < |groups| ensures Lists(groups)[i] == lists[i] {
      assert GroupShows(pristine, l, i, groups[i]);
      assert multiset(lists[i]) == multiset(Lists(pristine)[i]);
      SortGivesList(Flat(pristine), lists, i, ItemsOf(pristine[i]));
    }
  }

  lemma {:induction false} SwapBack(ids: seq<Id>, i: nat)
    requires i + 1 < |ids|
    ensures Swap(Swap(ids, i, i + 1), i + 1, i) == ids
  {
  }

  /** Down one and up again: every item is where it was. */
  lemma {:induction false} MovedBack(lists: seq<seq<Id>>, id: Id)
    requires NoDuplicates(Join(lists)) && Destination(lists, id, 1).Some?
    ensures Destination(Moved(lists, id, 1), id, -1).Some?
    ensures Moved(Moved(lists, id, 1), id, -1) == lists
  {
    var (g, i) := Place(lists, id).value;
    var after := Moved(lists, id, 1);
    assert after == lists[g := Swap(lists[g], i, i + 1)];
    assert NoDuplicates(Join(after)) by { MovedSameIds(lists, id, 1); }
    OnePlace(after, id, g, i + 1);
    SwapBack(lists[g], i);
    assert Moved(after, id, -1) == after[g := Swap(after[g], i + 1, i)];
    assert after[g := lists[g]] == lists;
  }

  /** An item stands in one place only. */
  lemma {:induction false} OnePlace(lists: seq<seq<Id>>, id: Id, g: nat, i: nat)
    requires NoDuplicates(Join(lists)) && g < |lists| && i < |lists[g]| && lists[g][i] == id
    ensures Place(lists, id) == Some((g, i))
  {
    var list, tail := lists[0], Join(lists[1..]);
    assert list == Join(lists)[..|list|] && tail == Join(lists)[|list|..|Join(lists)|];
    NoDuplicatesPart(Join(lists), 0, |list|);
    NoDuplicatesPart(Join(lists), |list|, |Join(lists)|);
    if g > 0 {
      OnePlace(lists[1..], id, g - 1, i);
      InJoin(lists[1..], g - 1, id);
      assert id !in list by { NotTwice(list, tail, id); }
    }
  }

  lemma {:induction false} InJoin(lists: seq<seq<Id>>, g: nat, id: Id)
    requires g < |lists| && id in lists[g]
    ensures id in Join(lists)
  {
    if g > 0 { InJoin(lists[1..], g - 1, id); }
  }

  lemma {:induction false} NotTwice(a: seq<Id>, b: seq<Id>, id: Id)
    requires NoDuplicates(a + b) && id in b
    ensures id !in a
  {
    var j :| 0 <= j < |b| && b[j] == id;
    forall i | 0 <= i < |a| ensures a[i] != id { assert (a + b)[i] == a[i] && (a + b)[|a| + j] == id; }
  }

  /** Moving an item down one place and then up one restores the order of all items. */
  method MoveThereAndBack(s: Surface, l: Layout, id: Id) returns (r: Layout)
    requires s.Valid()
    modifies s
    ensures s.Valid() && Lists(s.groups) == old(Lists(s.groups))
    ensures Destination(old(Lists(s.groups)), id, 1).Some? ==> s.applied == Some(r) && r.hidden == l.hidden
  {
    SameIdsShown(s.pristine, s.locked, s.Current(), s.groups, s.marked);
    ghost var lists := Lists(s.groups);
    var moved;
    moved, r := s.Move(l, id, 1);
    if moved {
      MovedBack(lists, id);
      moved, r := s.Move(r, id, -1);
    }
  }

  // ----- history does not matter ---------------------------------------------------------------------------

  lemma {:induction false} VisibleByItems(g: Group, marked: set<Id>)
    ensures VisibleIn(g, marked) <==> exists id :: id in ItemsOf(g) && id !in marked
  {
    if g != [] {
      VisibleByItems(g[1..], marked);
      if VisibleIn(g[1..], marked) {
        var k :| 0 <= k < |g[1..]| && VisibleKid(g[1..][k], marked);
        assert VisibleKid(g[k + 1], marked);
      }
      if VisibleKid(g[0], marked) { assert g[0].id in ItemsOf(g); }
      if VisibleIn(g, marked) {
        var k :| 0 <= k < |g| && VisibleKid(g[k], marked);
        if k > 0 { assert VisibleKid(g[1..][k - 1], marked); }
      }
    }
  }

  lemma {:induction false} SameItemsSameDividers(a: seq<Group>, b: seq<Group>, marked: set<Id>, i: nat)
    requires Lists(a) == Lists(b)
    ensures Shown(a, marked, i) <==> Shown(b, marked, i)
  {
    forall j | 0 <= j < |a| ensures VisibleIn(a[j], marked) <==> VisibleIn(b[j], marked) {
      assert ItemsOf(a[j]) == Lists(a)[j] == Lists(b)[j] == ItemsOf(b[j]);
      VisibleByItems(a[j], marked);
      VisibleByItems(b[j], marked);
    }
  }

  /** Without empty groups the dividers are always as a pass over the groups would leave them. */
  lemma {:induction false} DividersAsPassed(s: Surface)
    requires s.Valid() && NoEmptyGroup(s.pristine)
    ensures PassedOver(s.groups, s.marked, s.shown)
  {
    if s.defaults.None? {
      forall i | 0 <= i < |s.shown| ensures Shown(s.groups, {}, i) {
        NotEmptyVisible(s.groups[0]);
        NotEmptyVisible(s.groups[i + 1]);
      }
    }
  }

  /**
    Layout is history independent: two surfaces of the same markup with the same current layout have the same
    items in the same order, the same of them hidden, and, when no group is empty, the same dividers shown,
    whatever was applied, moved, hidden or reset on either before.
   */
  lemma {:induction false} HistoryIndependent(a: Surface, b: Surface)
    requires a.Valid() && b.Valid() && a.pristine == b.pristine && a.locked == b.locked && a.Current() == b.Current()
    ensures Lists(a.groups) == Lists(b.groups) && a.marked == b.marked
    ensures NoEmptyGroup(a.pristine) ==> a.shown == b.shown
  {
    OneView(a.pristine, a.locked, a.Current(), a.groups, a.marked, b.groups, b.marked);
    if NoEmptyGroup(a.pristine) {
      DividersAsPassed(a);
      DividersAsPassed(b);
      forall i | 0 <= i < |a.shown| ensures a.shown[i] == b.shown[i] {
        SameItemsSameDividers(a.groups, b.groups, a.marked, i);
      }
    }
  }
}
