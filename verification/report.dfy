/** `sumEntryHours(entries)`: one Slack attachment per owner name with the
    name's total hours, kept only when the total is below the minimum, and
    ordered by hours with ties in order of first appearance. */
module Report {
  import opened Entries
  import opened Grouping
  import opened Sorting
  import opened Chars

  /** The single field of an attachment: the emoji key as its name and the
      missing hours, `minimumHours - hours`, that its value text reports. */
  datatype Field = Field(name: string, missing: int, short: bool)

  /** One attachment. `name` is the owner the fallback text and the title
      speak about; the fallback text itself is not modelled. */
  datatype Attachment = Attachment(hours: int, name: string, color: string, title: string, fields: seq<Field>)

  const AttachmentColor: string := "#c93742"

  /** The attachment built for `name` with total `hours`: the title is
      `:key: name` and the field is named `:key:`, where key is the lower-case
      first name. */
  function MakeAttachment(name: string, hours: int, minimum: int): (a: Attachment)
    ensures a.hours == hours && a.name == name && a.color == AttachmentColor
    ensures |a.fields| == 1 && a.fields[0].short
    ensures a.fields[0].missing + a.hours == minimum
  {
    var emoji := Emoji(DisplayKey(name));
    Attachment(hours, name, AttachmentColor, emoji + " " + name, [Field(emoji, minimum - hours, true)])
  }

  /** The sum of a name's group, zero for a name without one. */
  function GroupTotal(g: Groups, name: string): (t: int)
  {
    if name in g.members then Sum(g.members[name]) else 0
  }

  /** The `.map` step: one attachment per name, in the given order. */
  function BuildAll(g: Groups, names: seq<string>, minimum: int): (r: seq<Attachment>)
    ensures |r| == |names|
    ensures forall i :: 0 <= i < |names| ==> r[i] == MakeAttachment(names[i], GroupTotal(g, names[i]), minimum)
  {
    if |names| == 0 then [] else [MakeAttachment(names[0], GroupTotal(g, names[0]), minimum)] + BuildAll(g, names[1..], minimum)
  }

  /** The `.filter` step: attachments whose hours are strictly below the
      minimum, in their original order. */
  function KeepShort(atts: seq<Attachment>, minimum: int): (r: seq<Attachment>)
    ensures forall a :: a in r <==> a in atts && a.hours < minimum
  {
    if |atts| == 0 then []
    else if atts[0].hours < minimum then [atts[0]] + KeepShort(atts[1..], minimum)
    else KeepShort(atts[1..], minimum)
  }

  /** The sort key of `_.sortBy(attachments, 'hours')`. */
  function HoursKey(a: Attachment): (k: int)
  {
    a.hours
  }

  /** The tie-break the stable sort inherits: where the owner first appears. */
  function RankIn(entries: seq<Entry>): (rank: Attachment -> int)
  {
    (a: Attachment) => FirstIndex(entries, a.name)
  }

  /** `sumEntryHours`: group, total, build, filter, then sort by hours. */
  function SumEntryHours(entries: seq<Entry>, minimum: int): (r: seq<Attachment>)
    ensures SortedBy(r, HoursKey)
    ensures forall i :: 0 <= i < |r| ==> r[i].hours < minimum && |r[i].fields| == 1 && r[i].fields[0].missing > 0
  {
    var kept := Shortfalls(GroupBy(entries), minimum);
    var r := SortBy(kept, HoursKey);
    ElementsOfSorted(kept, HoursKey);
    r
  }

  /** The built and filtered attachments, before sorting. */
  function Shortfalls(g: Groups, minimum: int): (r: seq<Attachment>)
    ensures forall a :: a in r ==> a.hours < minimum && |a.fields| == 1 && a.fields[0].missing > 0
  {
    KeepShort(BuildAll(g, g.order, minimum), minimum)
  }

  /** Everything in `out` is the attachment of a name that occurs and
      totals less than the minimum, built from that total. */
  ghost predicate OnlyShortNames(entries: seq<Entry>, minimum: int, out: seq<Attachment>)
  {
    forall a :: a in out ==>
      && Occurs(entries, a.name)
      && Total(entries, a.name) < minimum
      && a == MakeAttachment(a.name, Total(entries, a.name), minimum)
  }

  /** Every name that occurs and totals less than the minimum has its
      attachment in `out`. */
  ghost predicate EveryShortName(entries: seq<Entry>, minimum: int, out: seq<Attachment>)
  {
    forall n :: Occurs(entries, n) && Total(entries, n) < minimum ==>
      MakeAttachment(n, Total(entries, n), minimum) in out
  }

  /** What the report must be, stated without grouping or sorting: the
      attachments of exactly the names that occur and total less than the
      minimum, ordered by hours and then by first appearance. */
  ghost predicate IsReport(entries: seq<Entry>, minimum: int, out: seq<Attachment>)
  {
    && OnlyShortNames(entries, minimum, out)
    && EveryShortName(entries, minimum, out)
    && LexSorted(out, HoursKey, RankIn(entries))
  }

  /** Filtering keeps the relative order, so a strictly ranked list stays strictly ranked. */
  lemma {:induction false} KeepShortKeepsRanking(atts: seq<Attachment>, minimum: int, rank: Attachment -> int)
    requires StrictlyRanked(atts, rank)
    ensures StrictlyRanked(KeepShort(atts, minimum), rank)
  {
    if |atts| > 0 {
      var tail := atts[1..];
      assert StrictlyRanked(tail, rank) by {
        forall i, j | 0 <= i < j < |tail| ensures rank(tail[i]) < rank(tail[j]) {
          assert tail[i] == atts[i + 1] && tail[j] == atts[j + 1];
        }
      }
      KeepShortKeepsRanking(tail, minimum, rank);
      var kept := KeepShort(tail, minimum);
      if atts[0].hours < minimum {
        forall j | 0 <= j < |kept| ensures rank(atts[0]) < rank(kept[j]) {
          assert kept[j] in tail;
          var k :| 0 <= k < |tail| && tail[k] == kept[j];
          assert atts[k + 1] == kept[j];
        }
      }
    }
  }

  /** Before filtering there is one attachment per key, built from that
      key's total. */
  lemma BuildAllContents(entries: seq<Entry>, minimum: int)
    ensures var g := GroupBy(entries);
            forall a :: a in BuildAll(g, g.order, minimum) ==>
              Occurs(entries, a.name) && a == MakeAttachment(a.name, Total(entries, a.name), minimum)
    ensures var g := GroupBy(entries);
            forall n :: Occurs(entries, n) ==>
              MakeAttachment(n, Total(entries, n), minimum) in BuildAll(g, g.order, minimum)
  {
    var g := GroupBy(entries);
    var all := BuildAll(g, g.order, minimum);
    forall a | a in all
      ensures Occurs(entries, a.name) && a == MakeAttachment(a.name, Total(entries, a.name), minimum)
    {
      var k :| 0 <= k < |all| && all[k] == a;
      assert a.name == g.order[k] && g.order[k] in g.order;
    }
    forall n | Occurs(entries, n) ensures MakeAttachment(n, Total(entries, n), minimum) in all {
      assert n in g.members && n in g.order;
      var k :| 0 <= k < |g.order| && g.order[k] == n;
      assert all[k] == MakeAttachment(n, Total(entries, n), minimum);
    }
  }

  /** Before filtering the attachments follow the key order, which is the
      order of first appearance. */
  lemma BuildAllRanked(entries: seq<Entry>, minimum: int)
    ensures var g := GroupBy(entries);
            StrictlyRanked(BuildAll(g, g.order, minimum), RankIn(entries))
  {
  }

  /** After the map and the filter, before sorting, the list already holds
      exactly the attachments of the short names, in first-appearance order. */
  lemma ShortfallsFacts(entries: seq<Entry>, minimum: int)
    ensures var pre := Shortfalls(GroupBy(entries), minimum);
            && OnlyShortNames(entries, minimum, pre)
            && EveryShortName(entries, minimum, pre)
            && StrictlyRanked(pre, RankIn(entries))
  {
    var g := GroupBy(entries);
    BuildAllContents(entries, minimum);
    BuildAllRanked(entries, minimum);
    KeepShortKeepsRanking(BuildAll(g, g.order, minimum), minimum, RankIn(entries));
  }

  /** `sumEntryHours` meets the report's description. */
  lemma SumEntryHoursIsReport(entries: seq<Entry>, minimum: int)
    ensures IsReport(entries, minimum, SumEntryHours(entries, minimum))
  {
    var pre := Shortfalls(GroupBy(entries), minimum);
    ShortfallsFacts(entries, minimum);
    ElementsOfSorted(pre, HoursKey);
    SortByIsStable(pre, HoursKey, RankIn(entries));
  }

  /** The description fixes the report completely: two sequences that
      both meet it are equal. */
  lemma ReportIsDetermined(entries: seq<Entry>, minimum: int, a: seq<Attachment>, b: seq<Attachment>)
    requires IsReport(entries, minimum, a) && IsReport(entries, minimum, b)
    ensures a == b
  {
    assert forall x :: x in a <==> x in b;
    LexSortedUnique(a, b, HoursKey, RankIn(entries));
  }

  /** Every output total is the sum over exactly the entries owned by that
      name, and every output name occurs in the input. */
  lemma ReportTotals(entries: seq<Entry>, minimum: int)
    ensures var r := SumEntryHours(entries, minimum);
            forall i :: 0 <= i < |r| ==> Occurs(entries, r[i].name) && r[i].hours == Total(entries, r[i].name)
  {
    SumEntryHoursIsReport(entries, minimum);
  }

  /** A name is reported exactly when it occurs and its total is strictly
      below the minimum; a total equal to the minimum is not reported. */
  lemma ReportMembership(entries: seq<Entry>, minimum: int, n: string)
    ensures (exists i :: 0 <= i < |SumEntryHours(entries, minimum)| && SumEntryHours(entries, minimum)[i].name == n)
            <==> Occurs(entries, n) && Total(entries, n) < minimum
  {
    SumEntryHoursIsReport(entries, minimum);
  }

  /** The report is empty exactly when every name that logged time reached
      the minimum. */
  lemma ReportEmptyExactly(entries: seq<Entry>, minimum: int)
    ensures SumEntryHours(entries, minimum) == []
            <==> forall n :: Occurs(entries, n) ==> Total(entries, n) >= minimum
  {
    var r := SumEntryHours(entries, minimum);
    if |r| > 0 {
      ReportMembership(entries, minimum, r[0].name);
    } else {
      forall n | Occurs(entries, n) ensures Total(entries, n) >= minimum {
        ReportMembership(entries, minimum, n);
      }
    }
  }

  /** No name is reported twice. */
  lemma ReportNamesDistinct(entries: seq<Entry>, minimum: int)
    ensures var r := SumEntryHours(entries, minimum);
            forall i, j :: 0 <= i < j < |r| ==> r[i].name != r[j].name
  {
    var r := SumEntryHours(entries, minimum);
    SumEntryHoursIsReport(entries, minimum);
    forall i, j | 0 <= i < j < |r| ensures r[i].name != r[j].name {
      assert HoursKey(r[i]) < HoursKey(r[j]) || RankIn(entries)(r[i]) < RankIn(entries)(r[j]);
    }
  }

  /** Ascending by hours; equal hours keep the order in which the names
      first appear among the entries. */
  lemma ReportOrder(entries: seq<Entry>, minimum: int)
    ensures var r := SumEntryHours(entries, minimum);
            forall i, j :: 0 <= i < j < |r| ==>
              r[i].hours < r[j].hours
              || (r[i].hours == r[j].hours && FirstIndex(entries, r[i].name) < FirstIndex(entries, r[j].name))
  {
    var r := SumEntryHours(entries, minimum);
    SumEntryHoursIsReport(entries, minimum);
    forall i, j | 0 <= i < j < |r|
      ensures r[i].hours < r[j].hours
              || (r[i].hours == r[j].hours && FirstIndex(entries, r[i].name) < FirstIndex(entries, r[j].name))
    {
      assert HoursKey(r[i]) < HoursKey(r[j])
             || (HoursKey(r[i]) == HoursKey(r[j]) && RankIn(entries)(r[i]) < RankIn(entries)(r[j]));
    }
  }

  /** The title and the field carry the same emoji key, the lower-cased
      first token of the name, and the missing hours are positive. */
  lemma ReportDisplayKey(entries: seq<Entry>, minimum: int)
    ensures var r := SumEntryHours(entries, minimum);
            forall i :: 0 <= i < |r| ==>
              && |r[i].fields| == 1
              && r[i].fields[0].name == Emoji(DisplayKey(r[i].name))
              && r[i].title == r[i].fields[0].name + " " + r[i].name
              && r[i].fields[0].missing == minimum - r[i].hours > 0
  {
    SumEntryHoursIsReport(entries, minimum);
  }
}

module ReportExamples {
  import opened Entries
  import opened Report

  /** The hours each name logged in the example entries. */
  lemma ExampleHours(es: seq<Entry>)
    requires es == [Entry("Alice", 4500), Entry("Bob", 3000), Entry("Bob", 500)]
    ensures HoursOf(es, "Alice") == [4500] && HoursOf(es, "Bob") == [3000, 500]
  {
    var p2 := es[..2];
    var p1 := p2[..1];
    assert p2 == [Entry("Alice", 4500), Entry("Bob", 3000)];
    assert p1 == [Entry("Alice", 4500)];
    assert p1[..0] == [];
    assert HoursOf(p1, "Alice") == [4500] && HoursOf(p1, "Bob") == [];
    assert HoursOf(p2, "Alice") == [4500] && HoursOf(p2, "Bob") == [3000];
  }

  /** The totals of the example entries, and the names that occur in them. */
  lemma ExampleTotals(es: seq<Entry>)
    requires es == [Entry("Alice", 4500), Entry("Bob", 3000), Entry("Bob", 500)]
    ensures Total(es, "Alice") == 4500 && Total(es, "Bob") == 3500
    ensures forall n :: Occurs(es, n) ==> n == "Alice" || n == "Bob"
    ensures Occurs(es, "Bob")
  {
    ExampleSums(es);
    assert es[1].name == "Bob";
  }

  /** The example totals, from the hours lists. */
  lemma ExampleSums(es: seq<Entry>)
    requires es == [Entry("Alice", 4500), Entry("Bob", 3000), Entry("Bob", 500)]
    ensures Total(es, "Alice") == 4500 && Total(es, "Bob") == 3500
  {
    ExampleHours(es);
    assert [4500][..0] == [] && [3000, 500][..1] == [3000] && [3000][..0] == [];
  }

  lemma ExampleIsReport(es: seq<Entry>, expected: seq<Attachment>)
    requires es == [Entry("Alice", 4500), Entry("Bob", 3000), Entry("Bob", 500)]
    requires expected == [MakeAttachment("Bob", 3500, 4000)]
    ensures IsReport(es, 4000, expected)
  {
    ExampleTotals(es);
    assert OnlyShortNames(es, 4000, expected);
    assert EveryShortName(es, 4000, expected);
  }

  /** Alice logs 45 hours, Bob 30 and then 5 more, against a 40-hour
      minimum (hours in hundredths): only Bob is reported, 5 hours short. */
  lemma OnlyShortNameReported()
    ensures SumEntryHours([Entry("Alice", 4500), Entry("Bob", 3000), Entry("Bob", 500)], 4000)
            == [MakeAttachment("Bob", 3500, 4000)]
  {
    var es := [Entry("Alice", 4500), Entry("Bob", 3000), Entry("Bob", 500)];
    var expected := [MakeAttachment("Bob", 3500, 4000)];
    ExampleIsReport(es, expected);
    SumEntryHoursIsReport(es, 4000);
    ReportIsDetermined(es, 4000, SumEntryHours(es, 4000), expected);
  }
}
