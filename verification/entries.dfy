/** Time entries as the reporting pipeline sees them, and the reference
    definitions every later stage is measured against: the hours a name
    logged, whether a name occurs at all, and where it first occurs. */
module Entries {

  /** One time entry: the owner's `user.name` and the hours logged.
      Hours are an exact integer quantity (for example hundredths of an
      hour) rather than a floating-point number. */
  datatype Entry = Entry(name: string, hours: int)

  /** Sum of a list of hours, folded from the left starting at 0, as
      `reduce((a, b) => a + b, 0)` does. */
  function Sum(xs: seq<int>): (s: int)
  {
    if |xs| == 0 then 0 else Sum(xs[..|xs| - 1]) + xs[|xs| - 1]
  }

  /** The hours of the entries owned by exactly `name`, in entry order:
      every hour listed is the hours of some entry owned by `name`. */
  function HoursOf(entries: seq<Entry>, name: string): (hs: seq<int>)
    ensures |hs| <= |entries|
    ensures forall k :: 0 <= k < |hs| ==> exists i :: 0 <= i < |entries| && entries[i] == Entry(name, hs[k])
  {
    if |entries| == 0 then []
    else
      var last := entries[|entries| - 1];
      HoursOf(entries[..|entries| - 1], name) + (if last.name == name then [last.hours] else [])
  }

  /** Total hours logged under exactly `name`. */
  function Total(entries: seq<Entry>, name: string): (t: int)
  {
    Sum(HoursOf(entries, name))
  }

  /** True when some entry is owned by `name`. */
  ghost predicate Occurs(entries: seq<Entry>, name: string)
  {
    exists i :: 0 <= i < |entries| && entries[i].name == name
  }

  /** Index of the first entry owned by `name`, or `|entries|` when there is none. */
  function FirstIndex(entries: seq<Entry>, name: string): (r: nat)
    ensures r <= |entries|
    ensures r < |entries| ==> entries[r].name == name
    ensures forall k :: 0 <= k < r ==> entries[k].name != name
  {
    if |entries| == 0 then 0
    else if entries[0].name == name then 0
    else 1 + FirstIndex(entries[1..], name)
  }

  /** No name is listed twice. */
  ghost predicate Distinct(names: seq<string>)
  {
    forall i, j :: 0 <= i < j < |names| ==> names[i] != names[j]
  }

  /** A name that never occurs has logged nothing. */
  lemma {:induction false} AbsentNameHasNoHours(entries: seq<Entry>, name: string)
    requires !Occurs(entries, name)
    ensures HoursOf(entries, name) == []
    ensures Total(entries, name) == 0
  {
    if |entries| > 0 {
      var p := entries[..|entries| - 1];
      assert !Occurs(p, name) by {
        forall i | 0 <= i < |p| ensures p[i].name != name {
          assert p[i] == entries[i];
        }
      }
      AbsentNameHasNoHours(p, name);
    }
  }

  /** Appending an entry extends the occurrence relation by exactly its owner. */
  lemma OccursAppend(p: seq<Entry>, e: Entry, name: string)
    ensures Occurs(p + [e], name) <==> Occurs(p, name) || e.name == name
  {
    var q := p + [e];
    if Occurs(p, name) {
      var i :| 0 <= i < |p| && p[i].name == name;
      assert q[i] == p[i];
    }
    if Occurs(q, name) && e.name != name {
      var i :| 0 <= i < |q| && q[i].name == name;
      assert i < |p| && p[i] == q[i];
    }
    if e.name == name {
      assert q[|p|] == e;
    }
  }

  /** The first occurrence of a name already present is not moved by appending. */
  lemma FirstIndexAppend(p: seq<Entry>, e: Entry, name: string)
    ensures Occurs(p, name) ==> FirstIndex(p + [e], name) == FirstIndex(p, name)
    ensures !Occurs(p, name) && e.name == name ==> FirstIndex(p + [e], name) == |p|
  {
    var q := p + [e];
    var a, b := FirstIndex(q, name), FirstIndex(p, name);
    if Occurs(p, name) {
      var i :| 0 <= i < |p| && p[i].name == name;
      assert q[i] == p[i];
      assert b < |p|;
      assert q[b] == p[b];
      assert a <= b;
    } else if e.name == name {
      assert q[|p|] == e;
    }
  }
}
