/**
 * The public clinics page: the active clinics, by name, and the search box
 * that narrows them by name or city.
 */
module ClinicsPage {
  import opened Wrappers
  import opened Backend
  import Seqs
  import Text
  import PublicLists
  import ClinicsAdmin

  type ClinicRow = Row<ClinicsAdmin.Clinic>

  /** `.eq("is_active", true)`. */
  predicate IsActive(c: ClinicRow)
  {
    c.cols.isActive
  }

  function Name(c: ClinicRow): string
  {
    c.cols.name
  }

  /**
   * `fetchClinics`: on success the list is every active clinic, in name
   * order; on error the list stays empty and an error toast is shown.
   * Either way the page stops loading.
   */
  function FetchClinics(rows: seq<ClinicRow>, reply: Reply): (page: PublicLists.ListPage<ClinicRow>)
    ensures !page.loading
    ensures reply.Ok? ==>
      && page.toast == None
      && (forall c :: c in page.items <==> c in rows && c.cols.isActive)
      && multiset(page.items) == multiset(Matching(rows, IsActive))
      && Seqs.SortedBy(page.items, PublicLists.ByName(Name))
    ensures reply.Fail? ==> page.items == [] && page.toast == Some(Error("Erro ao carregar clínicas", reply.message))
  {
    if reply.Ok? then
      PublicLists.ListPage(PublicLists.OrderedByName(Matching(rows, IsActive), Name), false, None)
    else
      PublicLists.ListPage([], false, Some(Error("Erro ao carregar clínicas", reply.message)))
  }

  /** A clinic matches when its name or its city contains the term, ignoring case. */
  predicate Matches(c: ClinicRow, term: string)
  {
    Text.Contains(Text.Lower(c.cols.name), Text.Lower(term))
    || Text.Contains(Text.Lower(c.cols.city), Text.Lower(term))
  }

  /** `filteredClinics`: the matching clinics, in list order. */
  function FilteredClinics(clinics: seq<ClinicRow>, term: string): (r: seq<ClinicRow>)
    ensures forall c :: c in r <==> c in clinics && Matches(c, term)
    ensures Seqs.IsSubsequence(r, clinics)
  {
    Seqs.FilterIsSubsequence(clinics, (c: ClinicRow) => Matches(c, term));
    Seqs.Filter(clinics, (c: ClinicRow) => Matches(c, term))
  }

  /** An empty search lists every clinic. */
  lemma EmptySearchKeepsAll(clinics: seq<ClinicRow>)
    ensures FilteredClinics(clinics, "") == clinics
  {
    forall c | c in clinics ensures Matches(c, "") {
      Text.ContainsEmpty(Text.Lower(c.cols.name));
    }
    Seqs.FilterKeepsAll(clinics, (c: ClinicRow) => Matches(c, ""));
  }

  /** What the page lists after a successful fetch: active matching clinics, still in name order. */
  lemma ListedClinics(rows: seq<ClinicRow>, term: string)
    ensures var shown := FilteredClinics(FetchClinics(rows, Ok).items, term);
      && (forall c :: c in shown <==> c in rows && c.cols.isActive && Matches(c, term))
      && Seqs.SortedBy(shown, PublicLists.ByName(Name))
  {
    var items := FetchClinics(rows, Ok).items;
    Seqs.FilterSorted(items, (c: ClinicRow) => Matches(c, term), PublicLists.ByName(Name));
  }
}
