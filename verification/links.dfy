/**
 * The join tables `clinic_professionals` and `clinic_doctors`, and the
 * "delete every row of the owner, then insert one row per selected id"
 * rewrite the admin tabs perform on them.  An owner is either the clinic
 * (the clinic's professionals dialog) or the member (a professional's or a
 * doctor's clinics).
 */
module Links {
  import opened Wrappers
  import Seqs
  import opened Backend

  /** One join row: a clinic and a professional or doctor. */
  datatype Link = Link(clinicId: string, memberId: string)

  /** Which column names the owner whose rows are rewritten. */
  datatype Side = ByClinic | ByMember

  function Owner(l: Link, side: Side): string
  {
    if side == ByClinic then l.clinicId else l.memberId
  }

  function Target(l: Link, side: Side): string
  {
    if side == ByClinic then l.memberId else l.clinicId
  }

  /** The join row linking `owner` to `target`. */
  function MakeLink(side: Side, owner: string, target: string): (l: Link)
    ensures Owner(l, side) == owner && Target(l, side) == target
  {
    if side == ByClinic then Link(owner, target) else Link(target, owner)
  }

  /** The filter `.eq(<owner column>, owner)`. */
  function OwnedBy(side: Side, owner: string): Row<Link> -> bool
  {
    (r: Row<Link>) => Owner(r.cols, side) == owner
  }

  function NotOwnedBy(side: Side, owner: string): Row<Link> -> bool
  {
    (r: Row<Link>) => Owner(r.cols, side) != owner
  }

  /** The rows of `owner`, in table order. */
  function RowsOf(rows: seq<Row<Link>>, side: Side, owner: string): seq<Row<Link>>
  {
    Matching(rows, OwnedBy(side, owner))
  }

  /** The ids linked to `owner`, in table order (`data.map(p => p.<target column>)`). */
  function TargetsOf(rows: seq<Row<Link>>, side: Side, owner: string): (r: seq<string>)
    ensures |r| == |RowsOf(rows, side, owner)|
  {
    Seqs.Map(RowsOf(rows, side, owner), (x: Row<Link>) => Target(x.cols, side))
  }

  /** The rows a successful `.delete().eq(<owner column>, owner)` leaves. */
  function WithoutOwner(rows: seq<Row<Link>>, side: Side, owner: string): (r: seq<Row<Link>>)
    ensures forall x :: x in r <==> x in rows && Owner(x.cols, side) != owner
  {
    Matching(rows, NotOwnedBy(side, owner))
  }

  /** The column values inserted for a selection: one link per selected id, in order. */
  function NewLinks(side: Side, owner: string, targets: seq<string>): (r: seq<Link>)
    ensures |r| == |targets|
    ensures forall i :: 0 <= i < |r| ==> Owner(r[i], side) == owner && Target(r[i], side) == targets[i]
  {
    Seqs.Map(targets, (t: string) => MakeLink(side, owner, t))
  }

  /**
   * The table after the rewrite: the delete's outcome and the insert's
   * outcome are independent, and no insert is sent for an empty selection.
   */
  function Rewrite(rows: seq<Row<Link>>, side: Side, owner: string, targets: seq<string>,
                   ids: seq<string>, deleteOk: bool, insertOk: bool): seq<Row<Link>>
    requires |ids| == |targets|
  {
    var afterDelete := if deleteOk then WithoutOwner(rows, side, owner) else rows;
    if |targets| > 0 && insertOk then afterDelete + Zip(ids, NewLinks(side, owner, targets)) else afterDelete
  }

  // ----- lemmas -----

  lemma RowsOfAppend(a: seq<Row<Link>>, b: seq<Row<Link>>, side: Side, owner: string)
    ensures RowsOf(a + b, side, owner) == RowsOf(a, side, owner) + RowsOf(b, side, owner)
  {
    Seqs.FilterAppend(a, b, OwnedBy(side, owner));
  }

  lemma {:induction false} RowsOfWithoutOwner(rows: seq<Row<Link>>, side: Side, owner: string, other: string)
    ensures RowsOf(WithoutOwner(rows, side, owner), side, other)
         == if other == owner then [] else RowsOf(rows, side, other)
  {
    if rows != [] {
      RowsOfWithoutOwner(rows[1..], side, owner, other);
      var head := if Owner(rows[0].cols, side) != owner then [rows[0]] else [];
      assert WithoutOwner(rows, side, owner) == head + WithoutOwner(rows[1..], side, owner);
      RowsOfAppend(head, WithoutOwner(rows[1..], side, owner), side, other);
    }
  }

  lemma {:induction false} RowsOfNew(ids: seq<string>, side: Side, owner: string, targets: seq<string>, other: string)
    requires |ids| == |targets|
    ensures RowsOf(Zip(ids, NewLinks(side, owner, targets)), side, other)
         == if other == owner then Zip(ids, NewLinks(side, owner, targets)) else []
  {
    var z := Zip(ids, NewLinks(side, owner, targets));
    if other == owner {
      Seqs.FilterKeepsAll(z, OwnedBy(side, other));
    } else {
      Seqs.FilterNone(z, OwnedBy(side, other));
    }
  }

  lemma TargetsOfNew(ids: seq<string>, side: Side, owner: string, targets: seq<string>)
    requires |ids| == |targets|
    ensures Seqs.Map(Zip(ids, NewLinks(side, owner, targets)), (x: Row<Link>) => Target(x.cols, side)) == targets
  {
  }

  /**
   * After a rewrite whose delete and insert both succeed, the owner is linked
   * to exactly the selected ids, one row each and in selection order.
   */
  lemma RewriteExact(rows: seq<Row<Link>>, side: Side, owner: string, targets: seq<string>, ids: seq<string>)
    requires |ids| == |targets|
    ensures TargetsOf(Rewrite(rows, side, owner, targets, ids, true, true), side, owner) == targets
  {
    var w := WithoutOwner(rows, side, owner);
    var z := Zip(ids, NewLinks(side, owner, targets));
    RowsOfWithoutOwner(rows, side, owner, owner);
    if |targets| > 0 {
      RowsOfAppend(w, z, side, owner);
      RowsOfNew(ids, side, owner, targets, owner);
      assert RowsOf(w + z, side, owner) == z;
      TargetsOfNew(ids, side, owner, targets);
    }
  }

  /** Whatever the outcomes, the rows of every other owner are untouched, in order. */
  lemma RewriteFramesOthers(rows: seq<Row<Link>>, side: Side, owner: string, targets: seq<string>,
                            ids: seq<string>, deleteOk: bool, insertOk: bool, other: string)
    requires |ids| == |targets|
    requires other != owner
    ensures RowsOf(Rewrite(rows, side, owner, targets, ids, deleteOk, insertOk), side, other)
         == RowsOf(rows, side, other)
  {
    var afterDelete := if deleteOk then WithoutOwner(rows, side, owner) else rows;
    if deleteOk {
      RowsOfWithoutOwner(rows, side, owner, other);
    }
    if |targets| > 0 && insertOk {
      var z := Zip(ids, NewLinks(side, owner, targets));
      RowsOfAppend(afterDelete, z, side, other);
      RowsOfNew(ids, side, owner, targets, other);
    }
  }

  /** A failed insert after a successful delete leaves the owner with no links at all. */
  lemma RewriteInsertFailure(rows: seq<Row<Link>>, side: Side, owner: string, targets: seq<string>, ids: seq<string>)
    requires |ids| == |targets|
    ensures RowsOf(Rewrite(rows, side, owner, targets, ids, true, false), side, owner) == []
  {
    RowsOfWithoutOwner(rows, side, owner, owner);
  }

  /**
   * The delete's result is not checked: when it fails and the insert succeeds,
   * the old links stay and the new ones are added after them.
   */
  lemma RewriteDeleteFailure(rows: seq<Row<Link>>, side: Side, owner: string, targets: seq<string>, ids: seq<string>)
    requires |ids| == |targets|
    ensures TargetsOf(Rewrite(rows, side, owner, targets, ids, false, true), side, owner)
         == TargetsOf(rows, side, owner) + targets
  {
    if |targets| > 0 {
      var z := Zip(ids, NewLinks(side, owner, targets));
      RowsOfAppend(rows, z, side, owner);
      RowsOfNew(ids, side, owner, targets, owner);
      TargetsOfNew(ids, side, owner, targets);
      Seqs.MapAppend(RowsOf(rows, side, owner), z, (x: Row<Link>) => Target(x.cols, side));
    }
  }

  /** Rewriting twice with the same selection gives the owner the same links as rewriting once. */
  lemma RewriteIdempotent(rows: seq<Row<Link>>, side: Side, owner: string, targets: seq<string>, ids: seq<string>, ids2: seq<string>)
    requires |ids| == |targets| && |ids2| == |targets|
    ensures TargetsOf(Rewrite(Rewrite(rows, side, owner, targets, ids, true, true), side, owner, targets, ids2, true, true), side, owner)
         == TargetsOf(Rewrite(rows, side, owner, targets, ids, true, true), side, owner)
  {
    RewriteExact(rows, side, owner, targets, ids);
    RewriteExact(Rewrite(rows, side, owner, targets, ids, true, true), side, owner, targets, ids2);
  }
}
