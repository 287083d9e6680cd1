/**
 * Reading join rows with an embedded relation, as the clinic and doctor
 * pages do: each row of `clinic_professionals` or `clinic_doctors` carries
 * the related record, which the backend may give as an object, as an array
 * or as null.  The pages keep, in join-row order, the object or the
 * array's first element, and drop the rest.
 */
module JoinRows {
  import opened Wrappers
  import Seqs

  /** The embedded relation of one join row. */
  datatype Embedded<T> = Null | One(record: T) | Many(records: seq<T>)

  /** `.filter(item => item.<relation>)`: null is dropped, any array (even empty) is kept. */
  predicate Present<T>(e: Embedded<T>)
  {
    !e.Null?
  }

  /**
   * `Array.isArray(x) ? x[0] : x`, with `undefined` (an empty array's `[0]`)
   * as none.  Null gives none too, so the chain's first filter never
   * changes the outcome.
   */
  function Element<T>(e: Embedded<T>): (r: Option<T>)
    ensures r.Some? <==> e.One? || (e.Many? && e.records != [])
    ensures e.One? ==> r == Some(e.record)
    ensures e.Many? && e.records != [] ==> r == Some(e.records[0])
  {
    match e
    case Null => None
    case One(v) => Some(v)
    case Many(vs) => if vs == [] then None else Some(vs[0])
  }

  function IsPresent<T>(): Embedded<T> -> bool
  {
    (e: Embedded<T>) => Present(e)
  }

  function ToElement<T>(): Embedded<T> -> Option<T>
  {
    (e: Embedded<T>) => Element(e)
  }

  /** `.filter(Boolean)`: the defined entries, unwrapped, in order. */
  function Defined<T>(entries: seq<Option<T>>): (r: seq<T>)
    ensures |r| <= |entries|
  {
    if entries == [] then []
    else (if entries[0].Some? then [entries[0].value] else []) + Defined(entries[1..])
  }

  lemma {:induction false} DefinedAppend<T>(a: seq<Option<T>>, b: seq<Option<T>>)
    ensures Defined(a + b) == Defined(a) + Defined(b)
  {
    if a == [] {
      assert a + b == b;
    } else {
      var ab := a + b;
      assert ab[0] == a[0] && ab[1..] == a[1..] + b;
      DefinedAppend(a[1..], b);
      var head := if a[0].Some? then [a[0].value] else [];
      assert Defined(ab) == head + Defined(ab[1..]);
      assert Defined(a) == head + Defined(a[1..]);
    }
  }

  /** The pages' chain `.filter(item => item.<relation>).map(pick).filter(Boolean)`, step by step. */
  function Chain<T(!new)>(joins: seq<Embedded<T>>): seq<T>
  {
    Defined(Seqs.Map(Seqs.Filter(joins, IsPresent()), ToElement()))
  }

  /**
   * The flattened records: one per join row that has a record to give, in
   * join-row order, so never more than there are join rows.
   */
  function Flatten<T(!new)>(joins: seq<Embedded<T>>): (r: seq<T>)
    ensures |r| <= |joins|
    ensures forall x :: x in r <==> exists j :: j in joins && Element(j) == Some(x)
  {
    if joins == [] then []
    else
      var head := if Element(joins[0]).Some? then [Element(joins[0]).value] else [];
      var rest := Flatten(joins[1..]);
      assert forall j :: j in joins <==> j == joins[0] || j in joins[1..];
      head + rest
  }

  /** Flattening works row by row: the records of a concatenation are the records of each part, in order. */
  lemma {:induction false} FlattenAppend<T(!new)>(a: seq<Embedded<T>>, b: seq<Embedded<T>>)
    ensures Flatten(a + b) == Flatten(a) + Flatten(b)
  {
    if a == [] {
      assert a + b == b;
    } else {
      assert (a + b)[1..] == a[1..] + b;
      FlattenAppend(a[1..], b);
    }
  }

  /** When every join row embeds one object, the list is those objects, row for row. */
  lemma {:induction false} FlattenOfObjects<T(!new)>(joins: seq<Embedded<T>>)
    requires forall i :: 0 <= i < |joins| ==> joins[i].One?
    ensures |Flatten(joins)| == |joins|
    ensures forall i :: 0 <= i < |joins| ==> Flatten(joins)[i] == joins[i].record
  {
    if joins != [] {
      FlattenOfObjects(joins[1..]);
    }
  }

  /** The recursive definition is the pages' filter, map and filter chain. */
  lemma {:induction false} FlattenIsChain<T(!new)>(joins: seq<Embedded<T>>)
    ensures Flatten(joins) == Chain(joins)
  {
    if joins != [] {
      var j, t := joins[0], joins[1..];
      FlattenIsChain(t);
      var kept := if Present(j) then [j] else [];
      var rest := Seqs.Filter(t, IsPresent());
      assert Seqs.Filter(joins, IsPresent()) == kept + rest;
      Seqs.MapAppend(kept, rest, ToElement());
      DefinedAppend(Seqs.Map(kept, ToElement()), Seqs.Map(rest, ToElement()));
      if Present(j) {
        assert Seqs.Map(kept, ToElement()) == [Element(j)];
        assert Defined([Element(j)]) == (if Element(j).Some? then [Element(j).value] else []) + Defined([]);
      } else {
        assert Seqs.Map(kept, ToElement<T>()) == [];
      }
    }
  }
}
