/**
 * What the public list pages share: the `.order("name")` every listing
 * query asks for, and the state a listing page keeps (the list, whether it
 * is still loading, and the error toast of a failed fetch).
 */
module PublicLists {
  import opened Wrappers
  import Seqs

  /** Ascending order of a string key, by character code. */
  function ByName<T>(name: T -> string): (T, T) -> bool
  {
    (x: T, y: T) => Seqs.StrLe(name(x), name(y))
  }

  lemma ByNameIsTotalPreorder<T(!new)>(name: T -> string)
    ensures Seqs.TotalPreorder(ByName(name))
  {
    forall a: T, b: T ensures ByName(name)(a, b) || ByName(name)(b, a) {
      Seqs.StrLeTotal(name(a), name(b));
    }
    forall a: T, b: T, c: T | ByName(name)(a, b) && ByName(name)(b, c)
      ensures ByName(name)(a, c)
    {
      Seqs.StrLeTransitive(name(a), name(b), name(c));
    }
  }

  /** The rows of `s` in ascending order of `name`: the same rows, rearranged. */
  function OrderedByName<T(!new)>(s: seq<T>, name: T -> string): (r: seq<T>)
    ensures multiset(r) == multiset(s)
    ensures forall x :: x in r <==> x in s
    ensures Seqs.SortedBy(r, ByName(name))
  {
    ByNameIsTotalPreorder(name);
    Seqs.SortBySorted(s, ByName(name));
    var r := Seqs.SortBy(s, ByName(name));
    assert forall x :: x in r <==> x in multiset(r);
    r
  }

  /** The state of a listing page. */
  datatype ListPage<T> = ListPage(items: seq<T>, loading: bool, toast: Option<Toast>)
}
