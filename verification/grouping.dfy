/** `_.groupBy(entries, e => e.user.name)` followed by `Object.keys`:
    the entries' hours collected per owner name, with the names listed in
    the order in which they first appear. Names are assumed to be neither
    integer-like (JavaScript lists those keys first, in numeric order) nor
    `__proto__` (which sets the prototype instead of adding a key), so key
    order is plain insertion order. */
module Grouping {
  import opened Entries

  /** The grouped entries: the key order and, per name, that name's hours
      in entry order. */
  datatype Groups = Groups(order: seq<string>, members: map<string, seq<int>>)

  /** The keys of `g` are exactly the names that occur in `entries`, and
      the key order lists each of them once. */
  ghost predicate KeysMatch(entries: seq<Entry>, g: Groups)
  {
    && (forall n {:trigger n in g.members} :: n in g.members <==> Occurs(entries, n))
    && (forall n {:trigger n in g.order} :: n in g.order <==> n in g.members)
    && Distinct(g.order)
  }

  /** Each group holds exactly its name's hours, in entry order. */
  ghost predicate HoursMatch(entries: seq<Entry>, g: Groups)
  {
    forall n :: n in g.members ==> g.members[n] == HoursOf(entries, n)
  }

  /** The key order is the order of first appearance in `entries`. */
  ghost predicate FirstAppearanceOrder(entries: seq<Entry>, g: Groups)
  {
    forall i, j :: 0 <= i < j < |g.order| ==>
      FirstIndex(entries, g.order[i]) < FirstIndex(entries, g.order[j])
  }

  /** `g` is exactly the grouping of `entries`. */
  ghost predicate GroupedFrom(entries: seq<Entry>, g: Groups)
  {
    KeysMatch(entries, g) && HoursMatch(entries, g) && FirstAppearanceOrder(entries, g)
  }

  /** Files one more entry under its owner's name, opening a new group
      (at the end of the key order) for a name not seen before. */
  function Add(g: Groups, e: Entry): (g': Groups)
  {
    if e.name in g.members then
      Groups(g.order, g.members[e.name := g.members[e.name] + [e.hours]])
    else
      Groups(g.order + [e.name], g.members[e.name := [e.hours]])
  }

  lemma AddKeepsKeys(p: seq<Entry>, e: Entry, g: Groups)
    requires KeysMatch(p, g)
    ensures KeysMatch(p + [e], Add(g, e))
  {
    var g' := Add(g, e);
    forall n ensures n in g'.members <==> Occurs(p + [e], n) {
      OccursAppend(p, e, n);
    }
    if e.name !in g.members {
      assert e.name !in g.order;
      forall i, j | 0 <= i < j < |g'.order| ensures g'.order[i] != g'.order[j] {
        assert g'.order[i] == g.order[i];
        if j < |g.order| {
          assert g'.order[j] == g.order[j];
        }
      }
    }
  }

  lemma AddKeepsHours(p: seq<Entry>, e: Entry, g: Groups)
    requires KeysMatch(p, g) && HoursMatch(p, g)
    ensures HoursMatch(p + [e], Add(g, e))
  {
    var q := p + [e];
    var g' := Add(g, e);
    forall n | n in g'.members ensures g'.members[n] == HoursOf(q, n) {
      assert q[..|q| - 1] == p;
      assert HoursOf(q, n) == HoursOf(p, n) + (if e.name == n then [e.hours] else []);
      if n != e.name {
        assert n in g.members;
      } else if e.name !in g.members {
        AbsentNameHasNoHours(p, n);
      }
    }
  }

  lemma AddKeepsOrder(p: seq<Entry>, e: Entry, g: Groups)
    requires KeysMatch(p, g) && FirstAppearanceOrder(p, g)
    ensures FirstAppearanceOrder(p + [e], Add(g, e))
  {
    var q := p + [e];
    var g' := Add(g, e);
    forall i, j | 0 <= i < j < |g'.order|
      ensures FirstIndex(q, g'.order[i]) < FirstIndex(q, g'.order[j])
    {
      var a := g'.order[i];
      assert a == g.order[i] && a in g.order && Occurs(p, a);
      FirstIndexAppend(p, e, a);
      var b := g'.order[j];
      if j < |g.order| {
        assert b == g.order[j] && b in g.order && Occurs(p, b);
        FirstIndexAppend(p, e, b);
      } else {
        assert b == e.name && !Occurs(p, b);
        FirstIndexAppend(p, e, b);
      }
    }
  }

  /** Filing the next entry turns the grouping of a prefix into the grouping
      of the prefix extended by that entry. */
  lemma AddExtendsGrouping(p: seq<Entry>, e: Entry, g: Groups)
    requires GroupedFrom(p, g)
    ensures GroupedFrom(p + [e], Add(g, e))
  {
    AddKeepsKeys(p, e, g);
    AddKeepsHours(p, e, g);
    AddKeepsOrder(p, e, g);
  }

  /** Groups the entries one at a time, in entry order. */
  function GroupBy(entries: seq<Entry>): (g: Groups)
    ensures GroupedFrom(entries, g)
  {
    if |entries| == 0 then Groups([], map[])
    else
      var p := entries[..|entries| - 1];
      var e := entries[|entries| - 1];
      assert entries == p + [e];
      var g := GroupBy(p);
      AddExtendsGrouping(p, e, g);
      Add(g, e)
  }

  /** Sum of every group's total, taken over the names in `order`. */
  function GroupsTotal(order: seq<string>, members: map<string, seq<int>>): (t: int)
  {
    if |order| == 0 then 0
    else
      var n := order[|order| - 1];
      GroupsTotal(order[..|order| - 1], members) + (if n in members then Sum(members[n]) else 0)
  }

  /** The hours of every entry, in entry order. */
  function AllHours(entries: seq<Entry>): (hs: seq<int>)
    ensures |hs| == |entries|
    ensures forall i :: 0 <= i < |entries| ==> hs[i] == entries[i].hours
  {
    if |entries| == 0 then [] else AllHours(entries[..|entries| - 1]) + [entries[|entries| - 1].hours]
  }

  /** Changing the group of a name outside `order` leaves the sum over `order` alone. */
  lemma {:induction false} GroupsTotalUnaffected(order: seq<string>, members: map<string, seq<int>>, n: string, hs: seq<int>)
    requires n !in order
    ensures GroupsTotal(order, members[n := hs]) == GroupsTotal(order, members)
  {
    if |order| > 0 {
      GroupsTotalUnaffected(order[..|order| - 1], members, n, hs);
    }
  }

  /** Adding `h` to the group of a name listed once in `order` adds `h` to the sum. */
  lemma {:induction false} GroupsTotalAdd(order: seq<string>, members: map<string, seq<int>>, n: string, h: int)
    requires Distinct(order) && n in order && n in members
    ensures GroupsTotal(order, members[n := members[n] + [h]]) == GroupsTotal(order, members) + h
  {
    var m' := members[n := members[n] + [h]];
    var init := order[..|order| - 1];
    var last := order[|order| - 1];
    assert Sum(members[n] + [h]) == Sum(members[n]) + h by {
      assert (members[n] + [h])[..|members[n]|] == members[n];
    }
    if last == n {
      assert n !in init by {
        forall i | 0 <= i < |init| ensures init[i] != n {
          assert init[i] == order[i];
        }
      }
      GroupsTotalUnaffected(init, members, n, members[n] + [h]);
    } else {
      assert n in init by {
        var k :| 0 <= k < |order| && order[k] == n;
        assert k < |init| && init[k] == n;
      }
      assert Distinct(init) by {
        forall i, j | 0 <= i < j < |init| ensures init[i] != init[j] {
          assert init[i] == order[i] && init[j] == order[j];
        }
      }
      GroupsTotalAdd(init, members, n, h);
    }
  }

  /** No entry is dropped or counted twice: the group totals add up to the
      hours of all entries. */
  lemma {:induction false} GroupingConservesHours(entries: seq<Entry>)
    ensures GroupsTotal(GroupBy(entries).order, GroupBy(entries).members) == Sum(AllHours(entries))
  {
    if |entries| > 0 {
      var p := entries[..|entries| - 1];
      var e := entries[|entries| - 1];
      var g := GroupBy(p);
      assert entries == p + [e];
      GroupingConservesHours(p);
      assert AllHours(entries)[..|entries| - 1] == AllHours(p);
      if e.name in g.members {
        GroupsTotalAdd(g.order, g.members, e.name, e.hours);
      } else {
        GroupsTotalUnaffected(g.order, g.members, e.name, [e.hours]);
        assert Sum([e.hours]) == e.hours by {
          assert [e.hours][..0] == [];
        }
        assert (g.order + [e.name])[..|g.order|] == g.order;
      }
    }
  }
}
