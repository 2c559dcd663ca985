/**
 * The usage listing of ScriptLauncher.display (lines 293-313): commands are put
 * into a TreeMap keyed by their exact name, then printed in key order.
 */
module Listing {
  import opened Wrappers
  import opened Catalog

  const Header: string := "Usage: dspace [command-name] {parameters}"

  /** String.compareTo < 0: lexicographic by character, a proper prefix first. */
  predicate Less(a: string, b: string)
  {
    if |a| == 0 then |b| > 0
    else |b| > 0 && (a[0] < b[0] || (a[0] == b[0] && Less(a[1..], b[1..])))
  }

  lemma {:induction false} LessIrreflexive(a: string)
    ensures !Less(a, a)
  {
    if |a| > 0 {
      LessIrreflexive(a[1..]);
    }
  }

  lemma {:induction false} LessAsymmetric(a: string, b: string)
    ensures Less(a, b) ==> !Less(b, a)
  {
    if |a| > 0 && |b| > 0 {
      LessAsymmetric(a[1..], b[1..]);
    }
  }

  lemma {:induction false} LessTrichotomy(a: string, b: string)
    ensures a == b || Less(a, b) || Less(b, a)
  {
    if |a| > 0 && |b| > 0 && a[0] == b[0] {
      LessTrichotomy(a[1..], b[1..]);
      if a[1..] == b[1..] {
        assert a == [a[0]] + a[1..] && b == [b[0]] + b[1..];
      }
    }
  }

  lemma {:induction false} LessTransitive(a: string, b: string, c: string)
    requires Less(a, b) && Less(b, c)
    ensures Less(a, c)
  {
    if |a| > 0 && a[0] == b[0] && b[0] == c[0] {
      LessTransitive(a[1..], b[1..], c[1..]);
    }
  }

  /** The TreeMap's values in key order: names strictly ascending, hence distinct. */
  predicate Ascending(entries: seq<Command>)
  {
    forall i, j :: 0 <= i < j < |entries| ==> Less(entries[i].name, entries[j].name)
  }

  function NameSet(commands: seq<Command>): set<string>
  {
    set c | c in commands :: c.name
  }

  /** A command below every name of an ascending list can go in front of it. */
  lemma AscendingCons(head: Command, rest: seq<Command>)
    requires Ascending(rest)
    requires forall d :: d in rest ==> Less(head.name, d.name)
    ensures Ascending([head] + rest)
  {
    var all := [head] + rest;
    forall i, j | 0 <= i < j < |all| ensures Less(all[i].name, all[j].name) {
      assert all[j] == rest[j - 1];
      if i > 0 {
        assert all[i] == rest[i - 1];
      }
    }
  }

  /** The names after the first entry of an ascending list are above it. */
  lemma AboveHead(entries: seq<Command>)
    requires entries != [] && Ascending(entries)
    ensures Ascending(entries[1..])
    ensures forall d :: d in entries[1..] ==> Less(entries[0].name, d.name)
  {
    forall d | d in entries[1..] ensures Less(entries[0].name, d.name) {
      var j :| 0 <= j < |entries[1..]| && entries[1..][j] == d;
      assert d == entries[j + 1];
    }
  }

  /** TreeMap.put(c.name, c): insert in key order, overwriting the entry with the same key. */
  function Put(entries: seq<Command>, c: Command): (r: seq<Command>)
    requires Ascending(entries)
    ensures Ascending(r)
    ensures NameSet(r) == NameSet(entries) + {c.name}
    ensures c in r
    ensures forall d :: d in r ==> d == c || (d in entries && d.name != c.name)
    ensures forall d :: d in entries && d.name != c.name ==> d in r
  {
    if entries == [] then [c]
    else if entries[0].name == c.name then
      AboveHead(entries);
      AscendingCons(c, entries[1..]);
      LessIrreflexive(c.name);
      [c] + entries[1..]
    else if Less(c.name, entries[0].name) then
      forall d | d in entries ensures Less(c.name, d.name) {
        if d != entries[0] {
          AboveHead(entries);
          LessTransitive(c.name, entries[0].name, d.name);
        }
      }
      AscendingCons(c, entries);
      LessIrreflexive(c.name);
      [c] + entries
    else
      LessTrichotomy(c.name, entries[0].name);
      AboveHead(entries);
      var rest := Put(entries[1..], c);
      AscendingCons(entries[0], rest);
      [entries[0]] + rest
  }

  /** The command that the last put for this name stored: the catalog's last command with that name. */
  function Latest(catalog: seq<Command>, name: string): Option<Command>
  {
    if catalog == [] then None
    else if catalog[|catalog| - 1].name == name then Some(catalog[|catalog| - 1])
    else Latest(catalog[..|catalog| - 1], name)
  }

  /**
   * The TreeMap after putting every catalog command in order: one entry per
   * distinct name, in ascending name order, holding the last command of that name.
   */
  function SortedListing(catalog: seq<Command>): (r: seq<Command>)
    ensures Ascending(r)
    ensures NameSet(r) == NameSet(catalog)
    ensures forall d :: d in r ==> Latest(catalog, d.name) == Some(d)
  {
    if catalog == [] then []
    else
      var front := catalog[..|catalog| - 1];
      var c := catalog[|catalog| - 1];
      var r := Put(SortedListing(front), c);
      NameSetSnoc(catalog);
      LatestSnoc(catalog, SortedListing(front), r);
      r
  }

  /** Adding a command to the end of a catalog adds its name. */
  lemma NameSetSnoc(catalog: seq<Command>)
    requires catalog != []
    ensures NameSet(catalog) == NameSet(catalog[..|catalog| - 1]) + {catalog[|catalog| - 1].name}
  {
    assert catalog == catalog[..|catalog| - 1] + [catalog[|catalog| - 1]];
  }

  /**
   * Putting the last command of a catalog into a listing that holds the latest
   * command of each name of the rest gives the latest command of each name.
   */
  lemma LatestSnoc(catalog: seq<Command>, prev: seq<Command>, r: seq<Command>)
    requires catalog != []
    requires forall d :: d in prev ==> Latest(catalog[..|catalog| - 1], d.name) == Some(d)
    requires forall d :: d in r ==> d == catalog[|catalog| - 1] || (d in prev && d.name != catalog[|catalog| - 1].name)
    ensures forall d :: d in r ==> Latest(catalog, d.name) == Some(d)
  {
  }

  function Line(c: Command): string
  {
    " - " + c.name + ": " + c.description
  }

  function Render(entries: seq<Command>): (lines: seq<string>)
    ensures |lines| == |entries| + 1 && lines[0] == Header
    ensures forall i :: 0 <= i < |entries| ==> lines[i + 1] == Line(entries[i])
  {
    [Header] + seq(|entries|, i requires 0 <= i < |entries| => Line(entries[i]))
  }

  /** A catalog name appears in the listing exactly once. */
  lemma {:induction false} AscendingHasDistinctNames(entries: seq<Command>, i: nat, j: nat)
    requires Ascending(entries)
    requires i < |entries| && j < |entries| && entries[i].name == entries[j].name
    ensures i == j
  {
    if i < j || j < i {
      LessIrreflexive(entries[i].name);
    }
  }

  /** Two ascending listings holding the same commands are the same listing. */
  lemma {:induction false} AscendingUnique(a: seq<Command>, b: seq<Command>)
    requires Ascending(a) && Ascending(b)
    requires forall d :: d in a <==> d in b
    ensures a == b
  {
    assert a != [] ==> a[0] in a;
    assert b != [] ==> b[0] in b;
    if a != [] && b != [] {
      if a[0] != b[0] {
        assert a[0] in b && b[0] in a;
        var k :| 0 < k < |b| && b[k] == a[0];
        var m :| 0 < m < |a| && a[m] == b[0];
        LessAsymmetric(a[0].name, b[0].name);
        assert false;
      }
      forall d | d in a[1..] ensures d in b[1..] {
        var k :| 1 <= k < |a| && a[k] == d;
        assert d in a;
        var m :| 0 <= m < |b| && b[m] == d;
        if m == 0 {
          LessIrreflexive(a[0].name);
          assert false;
        }
        assert b[1..][m - 1] == d;
      }
      forall d | d in b[1..] ensures d in a[1..] {
        var k :| 1 <= k < |b| && b[k] == d;
        assert d in b;
        var m :| 0 <= m < |a| && a[m] == d;
        if m == 0 {
          LessIrreflexive(b[0].name);
          assert false;
        }
        assert a[1..][m - 1] == d;
      }
      AscendingUnique(a[1..], b[1..]);
    } else if a != [] || b != [] {
      assert false;
    }
  }

  /**
   * The listing depends only on which names the catalog holds and on the last
   * command of each name, not on the order in which the catalog lists them.
   */
  lemma ListingIgnoresCatalogOrder(c1: seq<Command>, c2: seq<Command>)
    requires NameSet(c1) == NameSet(c2)
    requires forall n :: n in NameSet(c1) ==> Latest(c1, n) == Latest(c2, n)
    ensures SortedListing(c1) == SortedListing(c2)
  {
    var a, b := SortedListing(c1), SortedListing(c2);
    forall d ensures d in a <==> d in b {
      if d in a {
        assert d.name in NameSet(a);
        var e :| e in b && e.name == d.name;
      }
      if d in b {
        assert d.name in NameSet(b);
        var e :| e in a && e.name == d.name;
      }
    }
    AscendingUnique(a, b);
  }

  /** display(): fill the TreeMap in catalog order, then print the header and one line per entry. */
  method Display(catalog: seq<Command>) returns (lines: seq<string>)
    ensures lines == Render(SortedListing(catalog))
  {
    var sorted: seq<Command> := [];
    for i := 0 to |catalog|
      invariant sorted == SortedListing(catalog[..i])
    {
      SortedListingStep(catalog, i);
      sorted := Put(sorted, catalog[i]);
    }
    assert catalog[..|catalog|] == catalog;
    lines := [Header];
    for i := 0 to |sorted|
      invariant lines == Render(sorted[..i])
    {
      RenderStep(sorted, i);
      lines := lines + [Line(sorted[i])];
    }
    assert sorted[..|sorted|] == sorted;
  }

  lemma RenderStep(entries: seq<Command>, i: nat)
    requires i < |entries|
    ensures Render(entries[..i + 1]) == Render(entries[..i]) + [Line(entries[i])]
  {
    var a, b := Render(entries[..i + 1]), Render(entries[..i]) + [Line(entries[i])];
    assert |a| == |b|;
    forall k | 0 <= k < |a| ensures a[k] == b[k] {
      if k > 0 { assert entries[..i + 1][k - 1] == entries[k - 1]; }
    }
  }

  lemma SortedListingStep(catalog: seq<Command>, i: nat)
    requires i < |catalog|
    ensures SortedListing(catalog[..i + 1]) == Put(SortedListing(catalog[..i]), catalog[i])
  {
    assert catalog[..i + 1][..i] == catalog[..i];
  }
}
