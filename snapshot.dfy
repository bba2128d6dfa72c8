/** The snapshot differ: a one-slot store of the last fetched table, and the
    listings of a new fetch whose ids it did not hold. */
module Snapshot {
  import opened Wrappers
  import opened Listings

  /** The ids of a table (the set of its ID column). */
  function Ids(rows: seq<Listing>): (ids: set<int>)
    ensures forall l :: l in rows ==> l.id in ids
    ensures forall id :: id in ids ==> exists l :: l in rows && l.id == id
  {
    set l | l in rows :: l.id
  }

  /** The rows whose id is in `ids`, in table order, duplicates kept (pandas `isin`). */
  function KeepIds(rows: seq<Listing>, ids: set<int>): (r: seq<Listing>)
    ensures |r| <= |rows|
    ensures forall i :: 0 <= i < |r| ==> r[i].id in ids
    decreases |rows|
  {
    if rows == [] then []
    else (if rows[0].id in ids then [rows[0]] else []) + KeepIds(rows[1..], ids)
  }

  /** The kept rows are exactly the rows with a kept id, each as often as in the table. */
  lemma {:induction false} KeepIdsContents(rows: seq<Listing>, ids: set<int>)
    ensures forall l :: l in KeepIds(rows, ids) <==> l in rows && l.id in ids
    ensures forall l :: multiset(KeepIds(rows, ids))[l] == if l.id in ids then multiset(rows)[l] else 0
    decreases |rows|
  {
    if rows != [] {
      KeepIdsContents(rows[1..], ids);
      assert rows == [rows[0]] + rows[1..];
    }
  }

  /** The listings of `current` that are new since `previous`: the ids of
      `current` minus those of `previous`, then the rows of `current` with those ids. */
  function NewListings(previous: seq<Listing>, current: seq<Listing>): (r: seq<Listing>)
    ensures forall l :: l in r <==> l in current && l.id !in Ids(previous)
    ensures forall l :: multiset(r)[l] == if l.id in Ids(previous) then 0 else multiset(current)[l]
  {
    KeepIdsContents(current, Ids(current) - Ids(previous));
    KeepIds(current, Ids(current) - Ids(previous))
  }

  /** The rows whose id is not in `seen`, in table order: the reference
      reading of "new since the snapshot". */
  function DropIds(rows: seq<Listing>, seen: set<int>): (r: seq<Listing>)
    ensures |r| <= |rows|
    decreases |rows|
  {
    if rows == [] then []
    else (if rows[0].id in seen then [] else [rows[0]]) + DropIds(rows[1..], seen)
  }

  /** Keeping the ids of a superset minus `seen` is dropping `seen`. */
  lemma {:induction false} KeepIsDrop(rows: seq<Listing>, all: set<int>, seen: set<int>)
    requires forall l :: l in rows ==> l.id in all
    ensures KeepIds(rows, all - seen) == DropIds(rows, seen)
    decreases |rows|
  {
    if rows != [] {
      assert rows[0] in rows;
      assert forall l :: l in rows[1..] ==> l in rows;
      KeepIsDrop(rows[1..], all, seen);
    }
  }

  /** The set difference of the source and the row-by-row reading agree:
      a row is new exactly when its id is not in the snapshot. */
  lemma NewListingsDropSeen(previous: seq<Listing>, current: seq<Listing>)
    ensures NewListings(previous, current) == DropIds(current, Ids(previous))
  {
    KeepIsDrop(current, Ids(current), Ids(previous));
  }

  /** Dropping seen ids from a concatenation drops them from each part. */
  lemma {:induction false} DropIdsAppend(a: seq<Listing>, b: seq<Listing>, seen: set<int>)
    ensures DropIds(a + b, seen) == DropIds(a, seen) + DropIds(b, seen)
    decreases |a|
  {
    if a == [] {
      assert a + b == b;
    } else {
      assert (a + b)[0] == a[0] && (a + b)[1..] == a[1..] + b;
      DropIdsAppend(a[1..], b, seen);
      var head := if a[0].id in seen then [] else [a[0]];
      assert head + (DropIds(a[1..], seen) + DropIds(b, seen)) == (head + DropIds(a[1..], seen)) + DropIds(b, seen);
    }
  }

  /** New listings keep the order of the current table: the new listings of a
      concatenation are the new listings of each part, in the same order. */
  lemma NewListingsKeepOrder(previous: seq<Listing>, a: seq<Listing>, b: seq<Listing>)
    ensures NewListings(previous, a + b) == NewListings(previous, a) + NewListings(previous, b)
  {
    NewListingsDropSeen(previous, a + b);
    NewListingsDropSeen(previous, a);
    NewListingsDropSeen(previous, b);
    DropIdsAppend(a, b, Ids(previous));
  }

  /** A table none of whose ids is kept filters to nothing. */
  lemma {:induction false} KeepNoIds(rows: seq<Listing>, ids: set<int>)
    requires forall l :: l in rows ==> l.id !in ids
    ensures KeepIds(rows, ids) == []
    decreases |rows|
  {
    if rows != [] {
      assert rows[0] in rows;
      KeepNoIds(rows[1..], ids);
    }
  }

  /** A table all of whose ids are kept filters to itself. */
  lemma {:induction false} KeepAllIds(rows: seq<Listing>, ids: set<int>)
    requires forall l :: l in rows ==> l.id in ids
    ensures KeepIds(rows, ids) == rows
    decreases |rows|
  {
    if rows != [] {
      assert rows[0] in rows;
      KeepAllIds(rows[1..], ids);
      assert rows == [rows[0]] + rows[1..];
    }
  }

  /** Every id already in the snapshot: nothing is new. In particular diffing a
      table against itself gives nothing. */
  lemma NothingNewWhenAllSeen(previous: seq<Listing>, current: seq<Listing>)
    requires Ids(current) <= Ids(previous)
    ensures NewListings(previous, current) == []
  {
    KeepNoIds(current, Ids(current) - Ids(previous));
  }

  /** Diffing the same table twice: after the snapshot has become `current`,
      diffing `current` again finds nothing new. */
  lemma SecondDiffIsEmpty(current: seq<Listing>)
    ensures NewListings(current, current) == []
  {
    NothingNewWhenAllSeen(current, current);
  }

  /** No id in the snapshot: the whole table is new, unchanged. */
  lemma AllNewWhenNoneSeen(previous: seq<Listing>, current: seq<Listing>)
    requires Ids(current) !! Ids(previous)
    ensures NewListings(previous, current) == current
  {
    KeepAllIds(current, Ids(current) - Ids(previous));
  }

  /** The stored snapshot (the previous-results file). `None` is the state in
      which no snapshot has been written yet. */
  class SnapshotStore {
    var stored: Option<seq<Listing>>

    constructor (initial: Option<seq<Listing>>)
      ensures stored == initial
    {
      stored := initial;
    }

    /** Returns the listings of `current` new since the stored snapshot (all of
        them on the first run) and replaces the snapshot by `current`. */
    method DetectNewItems(current: seq<Listing>) returns (newItems: seq<Listing>)
      modifies this
      ensures stored == Some(current)
      ensures old(stored).None? ==> newItems == current
      ensures old(stored).Some? ==> newItems == NewListings(old(stored).value, current)
    {
      if stored.None? {
        stored := Some(current);
        return current;
      }
      var previous := stored.value;
      newItems := NewListings(previous, current);
      stored := Some(current);
    }
  }
}
