/**
 * The hosted backend as seen by the components: each table is an in-memory
 * sequence of rows, and each call either succeeds or reports an error.  A
 * table keeps the list of requests it has received, so "no call was made"
 * is "the request list is unchanged".  Row identifiers and column defaults
 * are chosen by the backend and enter as parameters.
 */
module Backend {
  import opened Wrappers
  import Seqs

  /** One request sent to a table. */
  datatype Request = Select | Insert(count: nat) | Update(id: string) | Delete

  /** A stored row: the identifier the backend assigned and the row's columns. */
  datatype Row<C> = Row(id: string, cols: C)

  /** The rows a filter such as `.eq(column, value)` selects, in table order. */
  function Matching<C(!new)>(rows: seq<Row<C>>, p: Row<C> -> bool): (r: seq<Row<C>>)
    ensures forall x :: x in r <==> x in rows && p(x)
    ensures |r| <= |rows|
  {
    Seqs.Filter(rows, p)
  }

  /** New rows built from identifiers and column values, pairwise. */
  function Zip<C>(ids: seq<string>, cols: seq<C>): (r: seq<Row<C>>)
    requires |ids| == |cols|
    ensures |r| == |cols|
    ensures forall i :: 0 <= i < |r| ==> r[i].id == ids[i] && r[i].cols == cols[i]
  {
    seq(|cols|, i requires 0 <= i < |cols| => Row(ids[i], cols[i]))
  }

  /** `.update(patch).eq("id", id)`: every row with that identifier is patched. */
  function Patched<C>(rows: seq<Row<C>>, id: string, patch: C -> C): (r: seq<Row<C>>)
    ensures |r| == |rows|
    ensures forall i :: 0 <= i < |rows| ==> r[i].id == rows[i].id
    ensures forall i :: 0 <= i < |rows| && rows[i].id != id ==> r[i] == rows[i]
    ensures forall i :: 0 <= i < |rows| && rows[i].id == id ==> r[i].cols == patch(rows[i].cols)
  {
    seq(|rows|, i requires 0 <= i < |rows| => if rows[i].id == id then Row(id, patch(rows[i].cols)) else rows[i])
  }

  /** Patching an identifier that no row has leaves the table as it was. */
  lemma PatchedMissing<C>(rows: seq<Row<C>>, id: string, patch: C -> C)
    requires forall i :: 0 <= i < |rows| ==> rows[i].id != id
    ensures Patched(rows, id, patch) == rows
  {
  }

  /** The rows a `.delete().eq("id", id)` keeps. */
  function IdIsNot<C>(id: string): Row<C> -> bool
  {
    (r: Row<C>) => r.id != id
  }

  /** Deleting by identifier removes exactly the rows with that identifier, keeping the others in order. */
  lemma RemovedById<C(!new)>(rows: seq<Row<C>>, id: string)
    ensures forall r :: r in Matching(rows, IdIsNot(id)) <==> r in rows && r.id != id
    ensures Seqs.IsSubsequence(Matching(rows, IdIsNot(id)), rows)
    ensures (forall r :: r in rows ==> r.id != id) ==> Matching(rows, IdIsNot(id)) == rows
  {
    Seqs.FilterIsSubsequence(rows, IdIsNot(id));
    if forall r :: r in rows ==> r.id != id {
      Seqs.FilterKeepsAll(rows, IdIsNot(id));
    }
  }

  /**
   * How many rows a query returned, as `.single()` and `.maybeSingle()`
   * read it: `.single()` fails unless there is exactly one row, and
   * `.maybeSingle()` answers `null` for none and fails for several.
   */
  datatype Rows<C> = NoRow | OneRow(row: Row<C>) | SeveralRows

  function Cardinality<C>(found: seq<Row<C>>): (r: Rows<C>)
    ensures r.NoRow? <==> found == []
    ensures r.OneRow? ==> r.row in found && forall x :: x in found ==> x == r.row
    ensures r.SeveralRows? <==> |found| >= 2
  {
    if |found| == 0 then NoRow else if |found| == 1 then OneRow(found[0]) else SeveralRows
  }

  /** When exactly one row of the table passes the filter, the query returns that row alone. */
  lemma {:induction false} OnlyMatch<C(!new)>(rows: seq<Row<C>>, p: Row<C> -> bool, i: int)
    requires 0 <= i < |rows| && p(rows[i])
    requires forall j :: 0 <= j < |rows| && j != i ==> !p(rows[j])
    ensures Matching(rows, p) == [rows[i]]
    ensures Cardinality(Matching(rows, p)) == OneRow(rows[i])
  {
    var before, after := rows[..i], rows[i + 1..];
    assert rows == before + [rows[i]] + after;
    forall x | x in before ensures !p(x) {
      var j :| 0 <= j < |before| && before[j] == x;
      assert rows[j] == x;
    }
    forall x | x in after ensures !p(x) {
      var j :| 0 <= j < |after| && after[j] == x;
      assert rows[i + 1 + j] == x;
    }
    Seqs.FilterNone(before, p);
    Seqs.FilterNone(after, p);
    Seqs.FilterAppend(before + [rows[i]], after, p);
    Seqs.FilterAppend(before, [rows[i]], p);
    assert Seqs.Filter([rows[i]], p) == [rows[i]] + Seqs.Filter([], p);
  }

  /** One table of the backend. */
  class Table<C(!new)> {
    var rows: seq<Row<C>>
    var requests: seq<Request>

    constructor (initial: seq<Row<C>>)
      ensures rows == initial && requests == []
    {
      rows := initial;
      requests := [];
    }

    /** `.select(...).eq(...)`: the matching rows, or the error. */
    method Query(p: Row<C> -> bool, reply: Reply) returns (r: Result<seq<Row<C>>>)
      modifies this
      ensures rows == old(rows)
      ensures requests == old(requests) + [Select]
      ensures reply.Ok? ==> r == Success(Matching(rows, p))
      ensures reply.Fail? ==> r == Failure(reply.message)
    {
      requests := requests + [Select];
      if reply.Ok? {
        r := Success(Matching(rows, p));
      } else {
        r := Failure(reply.message);
      }
    }

    /** `.insert(cols)`: the new rows are appended with the identifiers the backend chose. */
    method Add(cols: seq<C>, ids: seq<string>, reply: Reply)
      requires |ids| == |cols|
      modifies this
      ensures reply.Ok? ==> rows == old(rows) + Zip(ids, cols)
      ensures reply.Fail? ==> rows == old(rows)
      ensures requests == old(requests) + [Insert(|cols|)]
    {
      requests := requests + [Insert(|cols|)];
      if reply.Ok? {
        rows := rows + Zip(ids, cols);
      }
    }

    /** `.update(...).eq("id", id)`. */
    method Change(id: string, patch: C -> C, reply: Reply)
      modifies this
      ensures reply.Ok? ==> rows == Patched(old(rows), id, patch)
      ensures reply.Fail? ==> rows == old(rows)
      ensures requests == old(requests) + [Update(id)]
    {
      requests := requests + [Update(id)];
      if reply.Ok? {
        rows := Patched(rows, id, patch);
      }
    }

    /**
     * `.delete().eq(column, value)`: the rows the filter selects are removed;
     * `keep` is the negation of the filter.
     */
    method Remove(keep: Row<C> -> bool, reply: Reply)
      modifies this
      ensures reply.Ok? ==> rows == Matching(old(rows), keep)
      ensures reply.Fail? ==> rows == old(rows)
      ensures requests == old(requests) + [Delete]
    {
      requests := requests + [Delete];
      if reply.Ok? {
        rows := Matching(rows, keep);
      }
    }
  }
}
