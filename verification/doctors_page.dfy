/**
 * The public doctors page: the active doctors, by name, narrowed by the
 * search box.  Its search is the same expression as the doctors tab's
 * (name or specialty, ignoring case), so it is `DoctorsAdmin.FilteredDoctors`.
 */
module DoctorsPage {
  import opened Wrappers
  import opened Backend
  import Seqs
  import PublicLists
  import DoctorsAdmin

  type DoctorRow = Row<DoctorsAdmin.Doctor>

  /** `.eq("is_active", true)`. */
  predicate IsActive(d: DoctorRow)
  {
    d.cols.isActive
  }

  function Name(d: DoctorRow): string
  {
    d.cols.name
  }

  /**
   * `fetchDoctors`: on success the list is every active doctor, in name
   * order; on error the list stays empty and an error toast is shown.
   * Either way the page stops loading.
   */
  function FetchDoctors(rows: seq<DoctorRow>, reply: Reply): (page: PublicLists.ListPage<DoctorRow>)
    ensures !page.loading
    ensures reply.Ok? ==>
      && page.toast == None
      && (forall d :: d in page.items <==> d in rows && d.cols.isActive)
      && multiset(page.items) == multiset(Matching(rows, IsActive))
      && Seqs.SortedBy(page.items, PublicLists.ByName(Name))
    ensures reply.Fail? ==> page.items == [] && page.toast == Some(Error("Erro ao carregar médicos", reply.message))
  {
    if reply.Ok? then
      PublicLists.ListPage(PublicLists.OrderedByName(Matching(rows, IsActive), Name), false, None)
    else
      PublicLists.ListPage([], false, Some(Error("Erro ao carregar médicos", reply.message)))
  }

  /** What the page lists after a successful fetch: active matching doctors, still in name order. */
  lemma ListedDoctors(rows: seq<DoctorRow>, term: string)
    ensures var shown := DoctorsAdmin.FilteredDoctors(FetchDoctors(rows, Ok).items, term);
      && (forall d :: d in shown <==> d in rows && d.cols.isActive && DoctorsAdmin.Matches(d, term))
      && Seqs.IsSubsequence(shown, FetchDoctors(rows, Ok).items)
      && Seqs.SortedBy(shown, PublicLists.ByName(Name))
  {
    var items := FetchDoctors(rows, Ok).items;
    Seqs.FilterSorted(items, (d: DoctorRow) => DoctorsAdmin.Matches(d, term), PublicLists.ByName(Name));
  }

  /** With an empty search every active doctor is listed. */
  lemma EmptySearchListsAllActive(rows: seq<DoctorRow>)
    ensures DoctorsAdmin.FilteredDoctors(FetchDoctors(rows, Ok).items, "") == FetchDoctors(rows, Ok).items
  {
    DoctorsAdmin.EmptySearchKeepsAll(FetchDoctors(rows, Ok).items);
  }
}
