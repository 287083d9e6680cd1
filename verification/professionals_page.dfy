/**
 * The public professionals page: the list of professionals with their
 * specialty's name, the location choices derived from it, and three
 * filters (search, specialty, location) that "clear filters" resets.
 */
module ProfessionalsPage {
  import opened Wrappers
  import opened Backend
  import Seqs
  import Text
  import PublicLists
  import ProfessionalsAdmin

  /** A listed professional, with the name of the specialty the query joins in (`specialties (name)`). */
  datatype Listed = Listed(row: Row<ProfessionalsAdmin.Professional>, specialtyName: Option<string>)

  /** The three filter values. */
  datatype Filters = Filters(searchTerm: string, specialty: string, location: string)

  /** The filters at page load and after `clearFilters`. */
  const Cleared := Filters("", "all", "all")

  /**
   * The location a professional is listed under: the second `", "`-separated
   * part of the location, or the whole location when there is no second part
   * or it is empty.  It always occurs in the location.
   */
  function LocationKey(location: string): (r: string)
    ensures Text.Contains(location, r)
    ensures r == location || (r != "" && !Text.Contains(r, ", "))
  {
    var parts := Text.Split(location, ", ");
    Text.SplitPiecesOccur(location, ", ");
    Text.SplitPiecesAvoidSeparator(location, ", ");
    Text.ContainsItself(location);
    if |parts| >= 2 && parts[1] != "" then
      assert parts[1] in parts;
      parts[1]
    else location
  }

  /** A location without `", "` is its own key. */
  lemma LocationKeyWhole(location: string)
    requires !Text.Contains(location, ", ")
    ensures LocationKey(location) == location
  {
  }

  function Key(p: Listed): string
  {
    LocationKey(p.row.cols.location)
  }

  function Identity(s: string): string
  {
    s
  }

  /**
   * `locations`: the distinct location keys of the listed professionals,
   * sorted.  Every professional's key is offered, and nothing else is.
   */
  function Locations(professionals: seq<Listed>): (r: seq<string>)
    ensures Seqs.Distinct(r)
    ensures Seqs.SortedBy(r, PublicLists.ByName(Identity))
    ensures forall l :: l in r <==> exists p :: p in professionals && Key(p) == l
  {
    var keys := Seqs.Map(professionals, Key);
    var unique := Seqs.Dedup(keys);
    var r := PublicLists.OrderedByName(unique, Identity);
    Seqs.DistinctPermutation(unique, r);
    forall l | l in r ensures exists p :: p in professionals && Key(p) == l {
      var i :| 0 <= i < |keys| && keys[i] == l;
      assert professionals[i] in professionals;
    }
    forall p | p in professionals ensures Key(p) in r {
      var i :| 0 <= i < |professionals| && professionals[i] == p;
      assert keys[i] == Key(p);
    }
    r
  }

  /** The search box: name, specialty name (`""` when none) or location contains the term, ignoring case. */
  predicate MatchesSearch(p: Listed, term: string)
  {
    var t := Text.Lower(term);
    Text.Contains(Text.Lower(p.row.cols.name), t)
    || Text.Contains(Text.Lower(OrEmpty(p.specialtyName)), t)
    || Text.Contains(Text.Lower(p.row.cols.location), t)
  }

  /** The specialty select: `"all"`, or exactly the specialty's name. */
  predicate MatchesSpecialty(p: Listed, specialty: string)
  {
    specialty == "all" || p.specialtyName == Some(specialty)
  }

  /** The location select: `"all"`, or the location contains the choice (case-sensitive). */
  predicate MatchesLocation(p: Listed, location: string)
  {
    location == "all" || Text.Contains(p.row.cols.location, location)
  }

  predicate Matches(p: Listed, f: Filters)
  {
    MatchesSearch(p, f.searchTerm) && MatchesSpecialty(p, f.specialty) && MatchesLocation(p, f.location)
  }

  /** `filteredProfessionals`: those passing all three filters, in list order. */
  function FilteredProfessionals(professionals: seq<Listed>, f: Filters): (r: seq<Listed>)
    ensures forall p :: p in r <==>
      p in professionals && MatchesSearch(p, f.searchTerm) && MatchesSpecialty(p, f.specialty) && MatchesLocation(p, f.location)
    ensures Seqs.IsSubsequence(r, professionals)
  {
    Seqs.FilterIsSubsequence(professionals, (p: Listed) => Matches(p, f));
    Seqs.Filter(professionals, (p: Listed) => Matches(p, f))
  }

  /** After `clearFilters` every professional is listed again. */
  lemma ClearedShowsAll(professionals: seq<Listed>)
    ensures FilteredProfessionals(professionals, Cleared) == professionals
  {
    forall p | p in professionals ensures Matches(p, Cleared) {
      Text.ContainsEmpty(Text.Lower(p.row.cols.name));
    }
    Seqs.FilterKeepsAll(professionals, (p: Listed) => Matches(p, Cleared));
  }

  /** Choosing a location from the list never hides a professional the choice came from. */
  lemma LocationChoiceKeepsOwners(professionals: seq<Listed>, p: Listed, f: Filters)
    requires p in professionals && MatchesSearch(p, f.searchTerm) && MatchesSpecialty(p, f.specialty)
    ensures p in FilteredProfessionals(professionals, f.(location := Key(p)))
  {
  }

  /**
   * `fetchData`: both lists ordered by name.  A list whose query returns no
   * data keeps its previous value; the page stops loading either way.
   */
  function FetchData(professionals: seq<Listed>, specialties: seq<string>,
                     listed: seq<Listed>, listedReply: Reply,
                     specialtyRows: seq<string>, specialtiesReply: Reply): (r: (seq<Listed>, seq<string>, bool))
    ensures listedReply.Ok? ==> multiset(r.0) == multiset(listed) && Seqs.SortedBy(r.0, PublicLists.ByName(Name))
    ensures listedReply.Fail? ==> r.0 == professionals
    ensures specialtiesReply.Ok? ==> multiset(r.1) == multiset(specialtyRows) && Seqs.SortedBy(r.1, PublicLists.ByName(Identity))
    ensures specialtiesReply.Fail? ==> r.1 == specialties
    ensures !r.2
  {
    (if listedReply.Ok? then PublicLists.OrderedByName(listed, Name) else professionals,
     if specialtiesReply.Ok? then PublicLists.OrderedByName(specialtyRows, Identity) else specialties,
     false)
  }

  function Name(p: Listed): string
  {
    p.row.cols.name
  }
}
