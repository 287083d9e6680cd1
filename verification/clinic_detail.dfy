/**
 * The public clinic page: the active clinic whose slug is in the route, and
 * the professionals linked to it through `clinic_professionals`, read from
 * the professional record each join row embeds.
 */
module ClinicDetailPage {
  import opened Wrappers
  import opened Backend
  import Seqs
  import Links
  import JoinRows
  import ClinicsAdmin
  import ProfessionalsAdmin

  type ClinicRow = Row<ClinicsAdmin.Clinic>
  type ProfessionalRow = Row<ProfessionalsAdmin.Professional>

  /** `.eq("slug", slug).eq("is_active", true)`. */
  function ActiveWithSlug(slug: string): ClinicRow -> bool
  {
    (c: ClinicRow) => c.cols.slug == slug && c.cols.isActive
  }

  /**
   * The professionals listed for a clinic: for each of the clinic's join
   * rows, in table order, the professional it embeds (`embed` is the
   * backend's resolution of the relation), flattened.
   */
  function ProfessionalsOf(links: seq<Row<Links.Link>>, clinicId: string,
                           embed: Row<Links.Link> -> JoinRows.Embedded<ProfessionalRow>): (r: seq<ProfessionalRow>)
    ensures |r| <= |Links.RowsOf(links, Links.ByClinic, clinicId)|
    ensures forall p :: p in r <==>
      exists l :: l in links && l.cols.clinicId == clinicId && JoinRows.Element(embed(l)) == Some(p)
  {
    var joins := Seqs.Map(Links.RowsOf(links, Links.ByClinic, clinicId), embed);
    assert forall l :: l in Links.RowsOf(links, Links.ByClinic, clinicId) <==> l in links && l.cols.clinicId == clinicId;
    forall p | p in JoinRows.Flatten(joins)
      ensures exists l :: l in links && l.cols.clinicId == clinicId && JoinRows.Element(embed(l)) == Some(p)
    {
      var j :| j in joins && JoinRows.Element(j) == Some(p);
      var i :| 0 <= i < |joins| && joins[i] == j;
      assert Links.RowsOf(links, Links.ByClinic, clinicId)[i] in Links.RowsOf(links, Links.ByClinic, clinicId);
    }
    forall l | l in links && l.cols.clinicId == clinicId && JoinRows.Element(embed(l)).Some?
      ensures JoinRows.Element(embed(l)).value in JoinRows.Flatten(joins)
    {
      var i :| 0 <= i < |Links.RowsOf(links, Links.ByClinic, clinicId)| && Links.RowsOf(links, Links.ByClinic, clinicId)[i] == l;
      assert joins[i] in joins;
    }
    JoinRows.Flatten(joins)
  }

  class ClinicDetail {
    var clinic: Option<ClinicRow>
    var professionals: seq<ProfessionalRow>
    var loading: bool

    constructor ()
      ensures clinic == None && professionals == [] && loading
    {
      clinic := None;
      professionals := [];
      loading := true;
    }

    /**
     * The page's effect: without a route slug nothing happens; otherwise
     * `fetchClinicData`.  The clinic is read with `.maybeSingle()`: no row
     * leaves the not-found view and several rows are an error, and in both
     * cases no join rows are requested.  A found clinic is shown at once;
     * its join rows are then requested, and an error there (only logged)
     * leaves the clinic shown with the previous list.  Loading ends either way.
     */
    method Open(slug: string, clinics: Table<ClinicsAdmin.Clinic>, clinicReply: Reply,
                links: Table<Links.Link>, linksReply: Reply,
                embed: Row<Links.Link> -> JoinRows.Embedded<ProfessionalRow>)
      modifies this, clinics, links
      ensures clinics.rows == old(clinics.rows) && links.rows == old(links.rows)
      ensures slug == "" ==> loading == old(loading) && clinics.requests == old(clinics.requests)
      ensures slug != "" ==> !loading && clinics.requests == old(clinics.requests) + [Select]
      ensures var found := Cardinality(Matching(clinics.rows, ActiveWithSlug(slug)));
        var hit := slug != "" && clinicReply.Ok? && found.OneRow?;
        && clinic == (if hit then Some(found.row) else old(clinic))
        && links.requests == (if hit then old(links.requests) + [Select] else old(links.requests))
        && professionals == (if hit && linksReply.Ok? then ProfessionalsOf(links.rows, found.row.id, embed) else old(professionals))
    {
      if slug != "" {
        var r := clinics.Query(ActiveWithSlug(slug), clinicReply);
        if r.Success? {
          var found := Cardinality(r.value);
          if found.OneRow? {
            clinic := Some(found.row);
            var joined := links.Query(Links.OwnedBy(Links.ByClinic, found.row.id), linksReply);
            if joined.Success? {
              professionals := JoinRows.Flatten(Seqs.Map(joined.value, embed));
            }
          }
        }
        loading := false;
      }
    }

    /** The not-found view: loaded, and no clinic. */
    predicate NotFound()
      reads this
    {
      !loading && clinic.None?
    }
  }

  /** A clinic whose join rows all embed an object lists exactly those professionals, in join-row order. */
  lemma ListsEveryLinkedProfessional(links: seq<Row<Links.Link>>, clinicId: string,
                                     embed: Row<Links.Link> -> JoinRows.Embedded<ProfessionalRow>)
    requires forall l :: l in links && l.cols.clinicId == clinicId ==> embed(l).One?
    ensures var own := Links.RowsOf(links, Links.ByClinic, clinicId);
      && |ProfessionalsOf(links, clinicId, embed)| == |own|
      && forall i :: 0 <= i < |own| ==> ProfessionalsOf(links, clinicId, embed)[i] == embed(own[i]).record
  {
    var own := Links.RowsOf(links, Links.ByClinic, clinicId);
    var joins := Seqs.Map(own, embed);
    forall i | 0 <= i < |joins| ensures joins[i].One? {
      assert own[i] in own;
    }
    JoinRows.FlattenOfObjects(joins);
  }
}
