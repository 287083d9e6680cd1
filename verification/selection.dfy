/**
 * Id lists edited through checkboxes: the clinic's professionals, a
 * doctor's clinics (both toggled with `includes ? filter : append`) and a
 * professional's clinics (checked appends, unchecked filters).
 */
module Selection {
  import Seqs

  /** `ids.filter(x => x !== id)`. */
  function Without(ids: seq<string>, id: string): (r: seq<string>)
    ensures id !in r
    ensures forall x :: x != id ==> multiset(r)[x] == multiset(ids)[x]
    ensures Seqs.IsSubsequence(r, ids)
  {
    var keep := (x: string) => x != id;
    Seqs.FilterCount(ids, keep, id);
    forall x | x != id ensures multiset(Seqs.Filter(ids, keep))[x] == multiset(ids)[x] {
      Seqs.FilterCount(ids, keep, x);
    }
    Seqs.FilterIsSubsequence(ids, keep);
    Seqs.Filter(ids, keep)
  }

  /** `prev.includes(id) ? prev.filter(x => x !== id) : [...prev, id]`. */
  function Toggle(ids: seq<string>, id: string): (r: seq<string>)
    ensures id in r <==> id !in ids
    ensures forall x :: x != id ==> multiset(r)[x] == multiset(ids)[x]
  {
    if id in ids then Without(ids, id) else ids + [id]
  }

  /** A present id is removed, every occurrence of it, keeping the order of the rest. */
  lemma ToggleRemoves(ids: seq<string>, id: string)
    requires id in ids
    ensures Toggle(ids, id) == Without(ids, id)
    ensures Seqs.IsSubsequence(Toggle(ids, id), ids)
  {
  }

  /** An absent id is appended at the end. */
  lemma ToggleAppends(ids: seq<string>, id: string)
    requires id !in ids
    ensures Toggle(ids, id) == ids + [id]
  {
  }

  /** Toggling flips membership of `id` and no other id's. */
  lemma ToggleMembership(ids: seq<string>, id: string, x: string)
    ensures x in Toggle(ids, id) <==> (if x == id then id !in ids else x in ids)
  {
    if id in ids && x != id {
      assert multiset(Toggle(ids, id))[x] == multiset(ids)[x];
    }
  }

  /** Toggling an absent id twice gives back the original list exactly. */
  lemma {:induction false} ToggleTwiceAbsent(ids: seq<string>, id: string)
    requires id !in ids
    ensures Toggle(Toggle(ids, id), id) == ids
  {
    var keep := (x: string) => x != id;
    assert Toggle(ids, id) == ids + [id];
    Seqs.FilterAppend(ids, [id], keep);
    Seqs.FilterKeepsAll(ids, keep);
    assert Seqs.Filter([id], keep) == [];
  }

  /** Toggling any id twice keeps the set of selected ids. */
  lemma ToggleTwiceSameSet(ids: seq<string>, id: string, x: string)
    ensures x in Toggle(Toggle(ids, id), id) <==> x in ids
  {
    ToggleMembership(ids, id, x);
    ToggleMembership(Toggle(ids, id), id, x);
    ToggleMembership(ids, id, id);
  }

  /** The professional form's clinic checkbox: checking appends, with no duplicate check. */
  function Check(ids: seq<string>, id: string, checked: bool): (r: seq<string>)
    ensures checked ==> multiset(r)[id] == multiset(ids)[id] + 1
    ensures !checked ==> id !in r
    ensures forall x :: x != id ==> multiset(r)[x] == multiset(ids)[x]
  {
    if checked then ids + [id] else Without(ids, id)
  }

  /** Clicking a checkbox that shows the current membership acts as a toggle. */
  lemma CheckIsToggle(ids: seq<string>, id: string)
    ensures Check(ids, id, id !in ids) == Toggle(ids, id)
  {
  }
}
