/** The time-indexed analytics store: sorted insertion, expiry, and nearest-entry lookup. */
module AnalyticsStore {
  import opened Wrappers

  // Wall clocks and durations are in nanoseconds.
  const TOLERANCE := 200_000_000

  datatype Entry = Entry(wall: int, analytics: int)

  ghost predicate Sorted(es: seq<Entry>) {
    forall i, j :: 0 <= i < j < |es| ==> es[i].wall <= es[j].wall
  }

  function Diff(a: int, b: int): int {
    if a - b < 0 then b - a else a - b
  }

  // ---- searching ----

  // How many entries come before the bound.
  function CountBefore(es: seq<Entry>, bound: int): nat {
    if es == [] then 0 else CountBefore(es[1..], bound) + if es[0].wall < bound then 1 else 0
  }

  // In a sorted list those are the first ones.
  lemma {:induction false} SplitPoint(es: seq<Entry>, bound: int, i: nat)
    requires i <= |es|
    requires forall k :: 0 <= k < i ==> es[k].wall < bound
    requires forall k :: i <= k < |es| ==> es[k].wall >= bound
    ensures CountBefore(es, bound) == i
  {
    if es != [] {
      SplitPoint(es[1..], bound, if i == 0 then 0 else i - 1);
    }
  }

  // sort.Search: the first entry at or after the bound.
  method Search(es: seq<Entry>, bound: int) returns (pos: nat)
    requires Sorted(es)
    ensures pos == CountBefore(es, bound) <= |es|
    ensures forall k :: 0 <= k < pos ==> es[k].wall < bound
    ensures forall k :: pos <= k < |es| ==> es[k].wall >= bound
  {
    var i, j := 0, |es|;
    while i < j
      invariant 0 <= i <= j <= |es|
      invariant forall k :: 0 <= k < i ==> es[k].wall < bound
      invariant forall k :: j <= k < |es| ==> es[k].wall >= bound
    {
      var h := (i + j) / 2;
      if es[h].wall < bound {
        i := h + 1;
      } else {
        j := h;
      }
    }
    SplitPoint(es, bound, i);
    pos := i;
  }

  // ---- insertion ----

  function Alive(es: seq<Entry>, cutoff: int): seq<Entry> {
    if es == [] then []
    else if es[0].wall > cutoff then [es[0]] + Alive(es[1..], cutoff)
    else Alive(es[1..], cutoff)
  }

  // Before the first entry that is not earlier.
  function Inserted(es: seq<Entry>, e: Entry): (r: seq<Entry>)
    ensures |r| == |es| + 1
  {
    if es == [] then [e]
    else if es[0].wall >= e.wall then [e] + es
    else [es[0]] + Inserted(es[1..], e)
  }

  function PutSpec(es: seq<Entry>, e: Entry, cutoff: int): seq<Entry> {
    Inserted(Alive(es, cutoff), e)
  }

  lemma {:induction false} AliveIsTail(es: seq<Entry>, cutoff: int, i: nat)
    requires i <= |es|
    requires forall k :: 0 <= k < i ==> es[k].wall <= cutoff
    requires forall k :: i <= k < |es| ==> es[k].wall > cutoff
    ensures Alive(es, cutoff) == es[i..]
  {
    if es != [] {
      AliveIsTail(es[1..], cutoff, if i == 0 then 0 else i - 1);
    }
  }

  lemma {:induction false} InsertedAt(es: seq<Entry>, e: Entry, pos: nat)
    requires pos <= |es|
    requires forall k :: 0 <= k < pos ==> es[k].wall < e.wall
    requires pos < |es| ==> es[pos].wall >= e.wall
    ensures Inserted(es, e) == es[..pos] + [e] + es[pos..]
  {
    if pos > 0 {
      InsertedAt(es[1..], e, pos - 1);
      assert es[..pos] == [es[0]] + es[1..][..pos - 1] && es[pos..] == es[1..][pos - 1..];
    } else {
      assert es[..0] == [] && es[0..] == es;
    }
  }

  lemma {:induction false} AliveSorted(es: seq<Entry>, cutoff: int)
    requires Sorted(es)
    ensures Sorted(Alive(es, cutoff))
    ensures forall k :: 0 <= k < |Alive(es, cutoff)| ==> Alive(es, cutoff)[k] in es
  {
    if es != [] {
      AliveSorted(es[1..], cutoff);
      var rest := Alive(es[1..], cutoff);
      forall k | 0 <= k < |rest|
        ensures es[0].wall <= rest[k].wall && rest[k] in es
      {
        var j :| 0 <= j < |es[1..]| && es[1..][j] == rest[k];
        assert es[j + 1] == rest[k];
      }
    }
  }

  lemma {:induction false} InsertedFrom(es: seq<Entry>, e: Entry, low: int)
    requires low <= e.wall && forall k :: 0 <= k < |es| ==> low <= es[k].wall
    ensures forall k :: 0 <= k < |Inserted(es, e)| ==> low <= Inserted(es, e)[k].wall
  {
    if es != [] && es[0].wall < e.wall {
      InsertedFrom(es[1..], e, low);
    }
  }

  // Insertion keeps the order.
  lemma {:induction false} InsertedSorted(es: seq<Entry>, e: Entry)
    requires Sorted(es)
    ensures Sorted(Inserted(es, e))
  {
    if es != [] && es[0].wall < e.wall {
      InsertedSorted(es[1..], e);
      InsertedFrom(es[1..], e, es[0].wall);
    }
  }

  lemma {:induction false} InsertedContents(es: seq<Entry>, e: Entry)
    ensures multiset(Inserted(es, e)) == multiset(es) + multiset{e}
  {
    if es != [] {
      assert es == [es[0]] + es[1..];
      if es[0].wall < e.wall {
        InsertedContents(es[1..], e);
      }
    }
  }

  lemma {:induction false} AliveContents(es: seq<Entry>, cutoff: int, x: Entry)
    ensures multiset(Alive(es, cutoff))[x] == if x.wall > cutoff then multiset(es)[x] else 0
  {
    if es != [] {
      assert es == [es[0]] + es[1..];
      AliveContents(es[1..], cutoff, x);
    }
  }

  // After a put the list is sorted again and holds the new entry and exactly the old ones that have not expired.
  lemma PutKeeps(es: seq<Entry>, e: Entry, cutoff: int, x: Entry)
    requires Sorted(es)
    ensures Sorted(PutSpec(es, e, cutoff))
    ensures multiset(PutSpec(es, e, cutoff))[x] ==
            (if x.wall > cutoff then multiset(es)[x] else 0) + (if x == e then 1 else 0)
  {
    AliveSorted(es, cutoff);
    InsertedSorted(Alive(es, cutoff), e);
    InsertedContents(Alive(es, cutoff), e);
    AliveContents(es, cutoff, x);
  }

  // ---- lookup ----

  // The entry found between the two neighbours of the target.
  function LookupSpec(es: seq<Entry>, target: int): Option<Entry> {
    var pos := CountBefore(es, target);
    var after := if pos < |es| && Diff(es[pos].wall, target) <= TOLERANCE then Some(es[pos]) else None;
    if 0 < pos <= |es| && Diff(es[pos - 1].wall, target) <= TOLERANCE
       && (after.None? || Diff(es[pos - 1].wall, target) < Diff(after.value.wall, target))
    then Some(es[pos - 1]) else after
  }

  // Whether a scan prefers e to what it has: strictly nearer, or as near when that one is before the target.
  predicate Better(e: Entry, best: Option<Entry>, target: int) {
    best.None? || Diff(e.wall, target) < Diff(best.value.wall, target)
    || (Diff(e.wall, target) == Diff(best.value.wall, target) && best.value.wall < target)
  }

  // Every entry looked at in turn.
  function FullScan(es: seq<Entry>, target: int): Option<Entry> {
    if es == [] then None
    else
      var best := FullScan(es[..|es| - 1], target);
      var e := es[|es| - 1];
      if Diff(e.wall, target) <= TOLERANCE && Better(e, best, target) then Some(e) else best
  }

  // A full scan finds an entry whenever one is within the tolerance, and then a nearest one.
  lemma {:induction false} ScanIsNearest(es: seq<Entry>, target: int)
    ensures FullScan(es, target).None? <==> forall k :: 0 <= k < |es| ==> Diff(es[k].wall, target) > TOLERANCE
    ensures var best := FullScan(es, target);
            best.Some? ==>
              && best.value in es && Diff(best.value.wall, target) <= TOLERANCE
              && forall k :: 0 <= k < |es| ==> Diff(best.value.wall, target) <= Diff(es[k].wall, target)
  {
    if es != [] {
      var n := |es| - 1;
      ScanIsNearest(es[..n], target);
      var best := FullScan(es[..n], target);
      assert forall k :: 0 <= k < n ==> es[..n][k] == es[k];
      if best.Some? {
        var j :| 0 <= j < n && es[..n][j] == best.value;
        assert es[j] == best.value;
      }
      if FullScan(es, target).None? {
        forall k | 0 <= k < |es|
          ensures Diff(es[k].wall, target) > TOLERANCE
        {
          assert k < n ==> Diff(es[..n][k].wall, target) > TOLERANCE;
        }
      }
    }
  }

  // The scan of a sorted list up to the target keeps the last entry, if that is near enough.
  lemma {:induction false} ScanBefore(es: seq<Entry>, target: int)
    requires Sorted(es) && forall k :: 0 <= k < |es| ==> es[k].wall < target
    ensures FullScan(es, target) ==
            if es != [] && Diff(es[|es| - 1].wall, target) <= TOLERANCE then Some(es[|es| - 1]) else None
  {
    if es != [] {
      var n := |es| - 1;
      ScanBefore(es[..n], target);
      if n > 0 {
        assert es[..n][n - 1] == es[n - 1] && es[n - 1].wall <= es[n].wall;
      }
    }
  }

  // Past the target only the first entry can still be better.
  lemma {:induction false} ScanAfter(es: seq<Entry>, target: int, pos: nat)
    requires Sorted(es) && pos <= |es|
    requires forall k :: 0 <= k < pos ==> es[k].wall < target
    requires forall k :: pos <= k < |es| ==> es[k].wall >= target
    ensures FullScan(es, target) ==
            if pos == |es| then FullScan(es[..pos], target)
            else
              var before := FullScan(es[..pos], target);
              if Diff(es[pos].wall, target) <= TOLERANCE && Better(es[pos], before, target) then Some(es[pos])
              else before
    decreases |es| - pos
  {
    if pos == |es| {
      assert es[..pos] == es;
    } else {
      var n := |es| - 1;
      if pos < n {
        ScanAfter(es[..n], target, pos);
        assert es[..n][..pos] == es[..pos] && es[..n][pos] == es[pos];
        assert es[pos].wall <= es[n].wall;
        BeforeIsBefore(es[..pos], target);
      }
    }
  }

  lemma BeforeIsBefore(es: seq<Entry>, target: int)
    requires Sorted(es) && forall k :: 0 <= k < |es| ==> es[k].wall < target
    ensures FullScan(es, target).Some? ==> FullScan(es, target).value.wall < target
  {
    ScanBefore(es, target);
  }

  // The binary search finds what a scan of every entry finds.
  lemma LookupIsFullScan(es: seq<Entry>, target: int)
    requires Sorted(es)
    ensures LookupSpec(es, target) == FullScan(es, target)
  {
    var pos := Boundary(es, target);
    SplitPoint(es, target, pos);
    ScanAfter(es, target, pos);
    ScanBefore(es[..pos], target);
  }

  // Where a sorted list reaches the bound.
  ghost function Boundary(es: seq<Entry>, bound: int): (i: nat)
    requires Sorted(es)
    ensures i <= |es|
    ensures forall k :: 0 <= k < i ==> es[k].wall < bound
    ensures forall k :: i <= k < |es| ==> es[k].wall >= bound
  {
    if es == [] || es[0].wall >= bound then 0 else 1 + Boundary(es[1..], bound)
  }

  lemma EmptySorted()
    ensures Sorted([])
  {
  }

  class Store {
    const ttl: int
    var data: map<string, seq<Entry>>

    ghost predicate Valid()
      reads this
    {
      forall id :: id in data ==> Sorted(data[id])
    }

    function Entries(id: string): seq<Entry>
      reads this
    {
      if id in data then data[id] else []
    }

    constructor (maxAge: int)
      ensures Valid() && ttl == maxAge && data == map[]
    {
      ttl := maxAge;
      data := map[];
    }

    method Put(id: string, e: Entry, now: int)
      requires Valid()
      modifies this
      ensures Valid()
      ensures data == old(data)[id := PutSpec(old(Entries(id)), e, now - ttl)]
    {
      hide Sorted, Alive, Inserted, CountBefore;
      var entries := Entries(id);
      EmptySorted();
      var cutoff := now - ttl;
      var i := Search(entries, cutoff + 1);
      AliveIsTail(entries, cutoff, i);
      AliveSorted(entries, cutoff);
      entries := entries[i..];
      var pos := Search(entries, e.wall);
      InsertedAt(entries, e, pos);
      InsertedSorted(entries, e);
      entries := entries[..pos] + [e] + entries[pos..];
      data := data[id := entries];
    }

    method Lookup(id: string, target: int) returns (r: Option<Entry>)
      requires Valid()
      ensures r == FullScan(Entries(id), target)
    {
      var entries := Entries(id);
      LookupIsFullScan(entries, target);
      if |entries| == 0 {
        return None;
      }
      var pos := Search(entries, target);
      r := None;
      if pos < |entries| {
        if Diff(entries[pos].wall, target) <= TOLERANCE {
          r := Some(entries[pos]);
        }
      }
      if pos > 0 {
        var e := entries[pos - 1];
        if Diff(e.wall, target) <= TOLERANCE {
          if r.None? || Diff(e.wall, target) < Diff(r.value.wall, target) {
            r := Some(e);
          }
        }
      }
    }
  }

  // ---- any number of puts ----

  datatype Op = Put(id: string, e: Entry, now: int)

  function After(ttl: int, ops: seq<Op>, id: string): seq<Entry> {
    if ops == [] then []
    else
      var before := After(ttl, ops[..|ops| - 1], id);
      var op := ops[|ops| - 1];
      if op.id == id then PutSpec(before, op.e, op.now - ttl) else before
  }

  // Whatever was put, the entries of a source are sorted.
  lemma {:induction false} StoreStaysSorted(ttl: int, ops: seq<Op>, id: string)
    ensures Sorted(After(ttl, ops, id))
  {
    if ops != [] {
      var before := ops[..|ops| - 1];
      StoreStaysSorted(ttl, before, id);
      var op := ops[|ops| - 1];
      PutKeeps(After(ttl, before, id), op.e, op.now - ttl, op.e);
    }
  }

  // Whatever was put, the lookup finds an entry exactly when one is within 200 ms, and then a nearest one.
  lemma NearestFound(ttl: int, ops: seq<Op>, id: string, target: int)
    ensures var es := After(ttl, ops, id);
            var found := LookupSpec(es, target);
            && (found.Some? <==> exists k :: 0 <= k < |es| && Diff(es[k].wall, target) <= TOLERANCE)
            && (found.Some? ==>
                  && found.value in es
                  && forall k :: 0 <= k < |es| ==> Diff(found.value.wall, target) <= Diff(es[k].wall, target))
  {
    var es := After(ttl, ops, id);
    StoreStaysSorted(ttl, ops, id);
    LookupIsFullScan(es, target);
    ScanIsNearest(es, target);
  }
}
