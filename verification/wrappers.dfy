/** Small value types shared by every module of the model. */
module Wrappers {

  /** A nullable value, as the source's `T | null` fields. */
  datatype Option<+T> = None | Some(value: T) {
    function GetOr(default: T): T {
      match this
      case Some(v) => v
      case None => default
    }
  }

  /**
   * The outcome of one call to a remote collaborator (a table, a bucket or
   * a remote procedure): it either succeeds or reports an error message.
   */
  datatype Reply = Ok | Fail(message: string)

  /** A toast shown to the user: a confirmation, or an error with its detail. */
  datatype Toast = Info(title: string) | Error(title: string, detail: string)

  /** The answer to a query: the rows it returned, or the error it reported. */
  datatype Result<+T> = Success(value: T) | Failure(error: string)

  /** A nullable text that JavaScript reads as true: present and not empty. */
  predicate Filled(s: Option<string>)
  {
    s.Some? && s.value != ""
  }

  /** `s || null` for a text column: the empty string is stored as null. */
  function NullIfEmpty(s: string): (r: Option<string>)
    ensures r.None? <==> s == ""
    ensures r.Some? ==> r.value == s
  {
    if s == "" then None else Some(s)
  }

  /** `x || ""` when reading a nullable text column into a form field. */
  function OrEmpty(x: Option<string>): (r: string)
    ensures x.Some? ==> r == x.value
    ensures x.None? ==> r == ""
  {
    if x.Some? then x.value else ""
  }

  /** Reading back a value written with `|| null` gives the original text. */
  lemma OrEmptyNullIfEmpty(s: string)
    ensures OrEmpty(NullIfEmpty(s)) == s
  {
  }

  /** Writing back a value read with `|| ""` restores it unless it was the empty string. */
  lemma NullIfEmptyOrEmpty(x: Option<string>)
    ensures NullIfEmpty(OrEmpty(x)) == x <==> x != Some("")
  {
  }
}
