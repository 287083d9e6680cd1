/**
 * The public doctor page: the active doctor whose slug is in the route, and
 * the clinics linked to it through `clinic_doctors`, read from the clinic
 * record each join row embeds.
 */
module DoctorDetailPage {
  import opened Wrappers
  import opened Backend
  import Seqs
  import Links
  import JoinRows
  import ClinicsAdmin
  import DoctorsAdmin

  type DoctorRow = Row<DoctorsAdmin.Doctor>
  type ClinicRow = Row<ClinicsAdmin.Clinic>

  /** `.eq("slug", slug).eq("is_active", true)`. */
  function ActiveWithSlug(slug: string): DoctorRow -> bool
  {
    (d: DoctorRow) => d.cols.slug == slug && d.cols.isActive
  }

  /**
   * The clinics listed for a doctor: for each of the doctor's join rows, in
   * table order, the clinic it embeds (`embed` is the backend's resolution
   * of the relation), flattened.
   */
  function ClinicsOf(links: seq<Row<Links.Link>>, doctorId: string,
                     embed: Row<Links.Link> -> JoinRows.Embedded<ClinicRow>): (r: seq<ClinicRow>)
    ensures |r| <= |Links.RowsOf(links, Links.ByMember, doctorId)|
    ensures forall c :: c in r <==>
      exists l :: l in links && l.cols.memberId == doctorId && JoinRows.Element(embed(l)) == Some(c)
  {
    var own := Links.RowsOf(links, Links.ByMember, doctorId);
    var joins := Seqs.Map(own, embed);
    assert forall l :: l in own <==> l in links && l.cols.memberId == doctorId;
    forall c | c in JoinRows.Flatten(joins)
      ensures exists l :: l in links && l.cols.memberId == doctorId && JoinRows.Element(embed(l)) == Some(c)
    {
      var j :| j in joins && JoinRows.Element(j) == Some(c);
      var i :| 0 <= i < |joins| && joins[i] == j;
      assert own[i] in own;
    }
    forall l | l in links && l.cols.memberId == doctorId && JoinRows.Element(embed(l)).Some?
      ensures JoinRows.Element(embed(l)).value in JoinRows.Flatten(joins)
    {
      var i :| 0 <= i < |own| && own[i] == l;
      assert joins[i] in joins;
    }
    JoinRows.Flatten(joins)
  }

  class DoctorDetail {
    var doctor: Option<DoctorRow>
    var clinics: seq<ClinicRow>
    var loading: bool

    constructor ()
      ensures doctor == None && clinics == [] && loading
    {
      doctor := None;
      clinics := [];
      loading := true;
    }

    /**
     * The page's effect: without a route slug nothing happens; otherwise
     * `fetchDoctorData`.  The doctor is read with `.maybeSingle()`: no row
     * leaves the not-found view and several rows are an error, and in both
     * cases no join rows are requested.  A found doctor is shown at once;
     * its join rows are then requested, and an error there (only logged)
     * leaves the doctor shown with the previous list.  Loading ends either way.
     */
    method Open(slug: string, doctors: Table<DoctorsAdmin.Doctor>, doctorReply: Reply,
                links: Table<Links.Link>, linksReply: Reply,
                embed: Row<Links.Link> -> JoinRows.Embedded<ClinicRow>)
      modifies this, doctors, links
      ensures doctors.rows == old(doctors.rows) && links.rows == old(links.rows)
      ensures slug == "" ==> loading == old(loading) && doctors.requests == old(doctors.requests)
      ensures slug != "" ==> !loading && doctors.requests == old(doctors.requests) + [Select]
      ensures var found := Cardinality(Matching(doctors.rows, ActiveWithSlug(slug)));
        var hit := slug != "" && doctorReply.Ok? && found.OneRow?;
        && doctor == (if hit then Some(found.row) else old(doctor))
        && links.requests == (if hit then old(links.requests) + [Select] else old(links.requests))
        && clinics == (if hit && linksReply.Ok? then ClinicsOf(links.rows, found.row.id, embed) else old(clinics))
    {
      if slug != "" {
        var r := doctors.Query(ActiveWithSlug(slug), doctorReply);
        if r.Success? {
          var found := Cardinality(r.value);
          if found.OneRow? {
            doctor := Some(found.row);
            var joined := links.Query(Links.OwnedBy(Links.ByMember, found.row.id), linksReply);
            if joined.Success? {
              clinics := JoinRows.Flatten(Seqs.Map(joined.value, embed));
            }
          }
        }
        loading := false;
      }
    }

    /** The not-found view: loaded, and no doctor. */
    predicate NotFound()
      reads this
    {
      !loading && doctor.None?
    }
  }

  /** A doctor whose join rows all embed an object lists exactly those clinics, in join-row order. */
  lemma ListsEveryLinkedClinic(links: seq<Row<Links.Link>>, doctorId: string,
                               embed: Row<Links.Link> -> JoinRows.Embedded<ClinicRow>)
    requires forall l :: l in links && l.cols.memberId == doctorId ==> embed(l).One?
    ensures var own := Links.RowsOf(links, Links.ByMember, doctorId);
      && |ClinicsOf(links, doctorId, embed)| == |own|
      && forall i :: 0 <= i < |own| ==> ClinicsOf(links, doctorId, embed)[i] == embed(own[i]).record
  {
    var own := Links.RowsOf(links, Links.ByMember, doctorId);
    var joins := Seqs.Map(own, embed);
    forall i | 0 <= i < |joins| ensures joins[i].One? {
      assert own[i] in own;
    }
    JoinRows.FlattenOfObjects(joins);
  }
}
