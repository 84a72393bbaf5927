/** The table that says which server owns which slots, and the binary search in it. */
module SlotTable {
  import opened Wrappers
  import opened Words

  /** One row of a CLUSTER SLOTS reply: slots `start` to `end`, both included, live at an address. */
  datatype Range = Range(start: int, end: int, host: Bytes, port: int)

  datatype Region<+S> = Region(range: Range, server: S)

  // ---- The two asymmetric comparisons of a region with a slot ----

  predicate Before<S>(r: Region<S>, slot: int) {
    r.range.end < slot
  }

  predicate After<S>(r: Region<S>, slot: int) {
    slot < r.range.start
  }

  predicate Owns(r: Range, slot: int) {
    r.start <= slot <= r.end
  }

  /** What a binary search for `slot` needs of the table. */
  ghost predicate Partitioned<S>(table: seq<Region<S>>, slot: int) {
    && (forall i, j :: 0 <= i < j < |table| && Before(table[j], slot) ==> Before(table[i], slot))
    && (forall i, j :: 0 <= i < j < |table| && After(table[i], slot) ==> After(table[j], slot))
    && (forall i :: 0 <= i < |table| && Before(table[i], slot) ==> !After(table[i], slot))
  }

  ghost predicate Disjoint(ranges: seq<Range>) {
    && (forall i :: 0 <= i < |ranges| ==> ranges[i].start <= ranges[i].end)
    && (forall i, j :: 0 <= i < j < |ranges| ==> ranges[i].end < ranges[j].start || ranges[j].end < ranges[i].start)
  }

  function RangesOf<S>(table: seq<Region<S>>): (ranges: seq<Range>)
    ensures |ranges| == |table| && forall i :: 0 <= i < |table| ==> ranges[i] == table[i].range
  {
    seq(|table|, i requires 0 <= i < |table| => table[i].range)
  }

  ghost predicate SortedByStart<S>(table: seq<Region<S>>) {
    forall i, j :: 0 <= i < j < |table| ==> table[i].range.start <= table[j].range.start
  }

  lemma SortedIsPartitioned<S>(table: seq<Region<S>>, slot: int)
    requires SortedByStart(table) && Disjoint(RangesOf(table))
    ensures Partitioned(table, slot)
  {
    var ranges := RangesOf(table);
    forall i, j | 0 <= i < j < |table|
      ensures table[i].range.end < table[j].range.start
    {
      assert ranges[i] == table[i].range && ranges[j] == table[j].range;
    }
  }

  /** The simple form: look at the regions one after the other. */
  function LinearScan<S>(table: seq<Region<S>>, slot: int): Option<S> {
    if table == [] then None
    else if Owns(table[0].range, slot) then Some(table[0].server)
    else LinearScan(table[1..], slot)
  }

  // ---- The binary search ----

  method LowerBound<S>(table: seq<Region<S>>, first: nat, last: nat, slot: int) returns (lo: nat)
    requires first <= last <= |table| && Partitioned(table, slot)
    requires forall i :: 0 <= i < first ==> Before(table[i], slot)
    requires forall i :: last <= i < |table| ==> !Before(table[i], slot)
    ensures first <= lo <= last
    ensures forall i :: 0 <= i < |table| ==> (Before(table[i], slot) <==> i < lo)
  {
    lo := first;
    var len := last - first;
    while len > 0
      invariant first <= lo <= lo + len <= last
      invariant forall i :: 0 <= i < lo ==> Before(table[i], slot)
      invariant forall i :: lo + len <= i < |table| ==> !Before(table[i], slot)
    {
      var half := len / 2;
      var middle := lo + half;
      if Before(table[middle], slot) {
        lo := middle + 1;
        len := len - half - 1;
      } else {
        len := half;
      }
    }
  }

  method UpperBound<S>(table: seq<Region<S>>, first: nat, last: nat, slot: int) returns (hi: nat)
    requires first <= last <= |table| && Partitioned(table, slot)
    requires forall i :: 0 <= i < first ==> !After(table[i], slot)
    requires forall i :: last <= i < |table| ==> After(table[i], slot)
    ensures first <= hi <= last
    ensures forall i :: 0 <= i < |table| ==> (After(table[i], slot) <==> hi <= i)
  {
    hi := first;
    var len := last - first;
    while len > 0
      invariant first <= hi <= hi + len <= last
      invariant forall i :: 0 <= i < hi ==> !After(table[i], slot)
      invariant forall i :: hi + len <= i < |table| ==> After(table[i], slot)
    {
      var half := len / 2;
      var middle := hi + half;
      if After(table[middle], slot) {
        len := half;
      } else {
        hi := middle + 1;
        len := len - half - 1;
      }
    }
  }

  /** The regions that are neither before nor after the slot. */
  method EqualRange<S>(table: seq<Region<S>>, slot: int) returns (lo: nat, hi: nat)
    requires Partitioned(table, slot)
    ensures lo <= hi <= |table|
    ensures forall i :: 0 <= i < |table| ==> (Before(table[i], slot) <==> i < lo)
    ensures forall i :: 0 <= i < |table| ==> (After(table[i], slot) <==> hi <= i)
  {
    var first, len := 0, |table|;
    while len > 0
      invariant 0 <= first <= first + len <= |table|
      invariant forall i :: 0 <= i < first ==> Before(table[i], slot)
      invariant forall i :: first + len <= i < |table| ==> After(table[i], slot)
    {
      var half := len / 2;
      var middle := first + half;
      if Before(table[middle], slot) {
        first := middle + 1;
        len := len - half - 1;
      } else if After(table[middle], slot) {
        len := half;
      } else {
        lo := LowerBound(table, first, middle, slot);
        hi := UpperBound(table, middle + 1, first + len, slot);
        return;
      }
    }
    return first, first;
  }

  /** The server that owns a slot, found by binary search; it is the one a linear scan finds. */
  method FindServer<S>(table: seq<Region<S>>, slot: int) returns (server: Option<S>)
    requires Partitioned(table, slot)
    ensures server == LinearScan(table, slot)
  {
    var lo, hi := EqualRange(table, slot);
    if lo != |table| && lo != hi {
      ScanFinds(table, slot, lo);
      return Some(table[lo].server);
    } else {
      ScanMisses(table, slot);
      return None;
    }
  }

  lemma {:induction false} ScanFinds<S>(table: seq<Region<S>>, slot: int, k: nat)
    requires k < |table| && Owns(table[k].range, slot)
    requires forall i :: 0 <= i < k ==> !Owns(table[i].range, slot)
    ensures LinearScan(table, slot) == Some(table[k].server)
  {
    if k > 0 {
      ScanFinds(table[1..], slot, k - 1);
    }
  }

  lemma {:induction false} ScanMisses<S>(table: seq<Region<S>>, slot: int)
    requires forall i :: 0 <= i < |table| ==> !Owns(table[i].range, slot)
    ensures LinearScan(table, slot) == None
  {
    if table != [] {
      ScanMisses(table[1..], slot);
    }
  }

  /** A scan that finds a server found it in a region that owns the slot. */
  lemma {:induction false} ScanIsSound<S>(table: seq<Region<S>>, slot: int)
    ensures LinearScan(table, slot) == None ==> forall r :: r in table ==> !(r.range.start <= slot <= r.range.end)
    ensures LinearScan(table, slot).Some? ==>
              exists r :: r in table && r.range.start <= slot <= r.range.end && r.server == LinearScan(table, slot).value
  {
    if table == [] {
    } else if Owns(table[0].range, slot) {
      assert table[0] in table;
    } else {
      ScanIsSound(table[1..], slot);
      assert forall r :: r in table ==> r == table[0] || r in table[1..];
      assert forall r :: r in table[1..] ==> r in table;
    }
  }

  /** In a table of disjoint ranges at most one region owns a slot, wherever it stands. */
  lemma OwnerIsUnique<S>(table: seq<Region<S>>, r: Region<S>, q: Region<S>, slot: int)
    requires Disjoint(RangesOf(table)) && r in table && q in table
    requires Owns(r.range, slot) && Owns(q.range, slot)
    ensures r == q
  {
    var i :| 0 <= i < |table| && table[i] == r;
    var j :| 0 <= j < |table| && table[j] == q;
    var ranges := RangesOf(table);
    assert ranges[i] == r.range && ranges[j] == q.range;
  }

  // ---- Ordering the table ----

  method InsertByStart<S>(table: seq<Region<S>>, r: Region<S>) returns (longer: seq<Region<S>>)
    requires SortedByStart(table)
    ensures SortedByStart(longer) && multiset(longer) == multiset(table) + multiset{r}
    ensures multiset(RangesOf(longer)) == multiset(RangesOf(table)) + multiset{r.range}
  {
    var k := 0;
    while k < |table| && table[k].range.start <= r.range.start
      invariant k <= |table|
      invariant forall j :: 0 <= j < k ==> table[j].range.start <= r.range.start
    {
      k := k + 1;
    }
    longer := table[..k] + [r] + table[k..];
    InsertedRow(table, k, r);
  }

  lemma InsertedRow<S>(table: seq<Region<S>>, k: nat, r: Region<S>)
    requires k <= |table|
    ensures var longer := table[..k] + [r] + table[k..];
            && multiset(longer) == multiset(table) + multiset{r}
            && multiset(RangesOf(longer)) == multiset(RangesOf(table)) + multiset{r.range}
  {
    assert table == table[..k] + table[k..];
    var before, after := RangesOf(table[..k]), RangesOf(table[k..]);
    assert RangesOf(table) == before + after;
    assert RangesOf(table[..k] + [r] + table[k..]) == before + [r.range] + after;
  }

  method SortByStart<S>(table: seq<Region<S>>) returns (sorted: seq<Region<S>>)
    ensures SortedByStart(sorted) && forall r :: r in sorted <==> r in table
    ensures multiset(RangesOf(sorted)) == multiset(RangesOf(table))
  {
    sorted := [];
    for i := 0 to |table|
      invariant SortedByStart(sorted) && multiset(sorted) == multiset(table[..i])
      invariant multiset(RangesOf(sorted)) == multiset(RangesOf(table[..i]))
    {
      sorted := InsertByStart(sorted, table[i]);
      assert table[..i + 1] == table[..i] + [table[i]];
      assert RangesOf(table[..i + 1]) == RangesOf(table[..i]) + [table[i].range];
    }
    assert table[..|table|] == table;
    forall r
      ensures r in sorted <==> r in table
    {
      assert r in multiset(sorted) <==> r in multiset(table);
    }
  }

  /** Disjointness does not depend on the order of the rows. */
  lemma DisjointIsUnordered(a: seq<Range>, b: seq<Range>)
    requires multiset(a) == multiset(b) && Disjoint(a)
    ensures Disjoint(b)
  {
    forall i | 0 <= i < |b|
      ensures b[i].start <= b[i].end
    {
      assert b[i] in multiset(b);
      assert b[i] in a;
    }
    forall i, j | 0 <= i < j < |b|
      ensures b[i].end < b[j].start || b[j].end < b[i].start
    {
      if b[i] == b[j] {
        TwiceInMultiset(b, i, j);
        OnceInMultiset(a, b[i]);
      } else {
        assert b[i] in multiset(b) && b[j] in multiset(b);
        var k :| 0 <= k < |a| && a[k] == b[i];
        var l :| 0 <= l < |a| && a[l] == b[j];
      }
    }
  }

  /** Scanning a table built from disjoint ranges, in whatever order, finds the server of the
      one range that owns the slot, and nothing exactly when no range owns it. */
  lemma ScanFollowsRanges<S>(table: seq<Region<S>>, ranges: seq<Range>, slot: int)
    requires multiset(RangesOf(table)) == multiset(ranges)
    ensures LinearScan(table, slot) == None <==> forall r :: r in ranges ==> !Owns(r, slot)
    ensures LinearScan(table, slot).Some? ==>
              exists r :: r in table && r.range in ranges && Owns(r.range, slot) && r.server == LinearScan(table, slot).value
  {
    SameMembers(table, ranges);
    ScanIsSound(table, slot);
  }

  lemma SameMembers<S>(table: seq<Region<S>>, ranges: seq<Range>)
    requires multiset(RangesOf(table)) == multiset(ranges)
    ensures forall r :: r in table ==> r.range in ranges
    ensures forall range :: range in ranges ==> exists r :: r in table && r.range == range
  {
    forall r | r in table
      ensures r.range in ranges
    {
      var i :| 0 <= i < |table| && table[i] == r;
      assert RangesOf(table)[i] in multiset(RangesOf(table));
    }
    forall range | range in ranges
      ensures exists r :: r in table && r.range == range
    {
      assert range in multiset(RangesOf(table));
      var i :| 0 <= i < |table| && RangesOf(table)[i] == range;
      assert table[i] in table;
    }
  }

  lemma TwiceInMultiset(s: seq<Range>, i: nat, j: nat)
    requires i < j < |s| && s[i] == s[j]
    ensures multiset(s)[s[i]] >= 2
  {
    assert s == s[..i] + [s[i]] + s[i + 1..j] + [s[j]] + s[j + 1..];
  }

  /** Disjoint, non-empty ranges are pairwise different. */
  lemma {:induction false} OnceInMultiset(s: seq<Range>, r: Range)
    requires Disjoint(s)
    ensures multiset(s)[r] <= 1
  {
    if s != [] {
      var rest := s[1..];
      assert s == [s[0]] + rest;
      OnceInMultiset(rest, r);
      if s[0] == r {
        assert r !in rest;
      }
    }
  }
}
