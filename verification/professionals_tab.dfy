/**
 * The professionals tab of the admin area: the professional form, the
 * payload it writes, and the rewrite of the professional's clinics in
 * `clinic_professionals` that follows every save.
 */
module ProfessionalsAdmin {
  import opened Wrappers
  import opened Backend
  import Links
  import Selection
  import BannerList

  /** A stored `professionals` row. */
  datatype Professional = Professional(
    name: string, email: Option<string>, phone: Option<string>,
    whatsapp: Option<string>, location: string, description: Option<string>,
    photoUrl: Option<string>, banners: Option<seq<string>>,
    specialtyId: Option<string>, instagram: Option<string>,
    facebook: Option<string>, linkedin: Option<string>, youtube: Option<string>)

  /** The form state (`formData`), including the checked clinics. */
  datatype ProfessionalForm = ProfessionalForm(
    name: string, email: string, phone: string, whatsapp: string,
    location: string, description: string, photoUrl: string,
    banners: seq<string>, specialtyId: string, instagram: string,
    facebook: string, linkedin: string, youtube: string, clinicIds: seq<string>)

  /** The form `resetForm` restores. */
  const EmptyForm := ProfessionalForm("", "", "", "", "", "", "", [], "", "", "", "", "", [])

  /**
   * `handleEdit`: the form filled from a listed professional; `embedded` is
   * the `clinic_professionals` list the listing query joins in, if any.
   */
  function FormOf(p: Professional, embedded: Option<seq<string>>): ProfessionalForm
  {
    ProfessionalForm(
      p.name, OrEmpty(p.email), OrEmpty(p.phone), OrEmpty(p.whatsapp), p.location,
      OrEmpty(p.description), OrEmpty(p.photoUrl),
      if p.banners.Some? then p.banners.value else [],
      OrEmpty(p.specialtyId), OrEmpty(p.instagram), OrEmpty(p.facebook),
      OrEmpty(p.linkedin), OrEmpty(p.youtube),
      if embedded.Some? then embedded.value else [])
  }

  /**
   * The columns `handleSubmit` writes: name, location and banners as typed,
   * every other field (the specialty included) with `""` as null.
   */
  function Written(f: ProfessionalForm): (r: Professional)
    ensures r.name == f.name && r.location == f.location && r.banners == Some(f.banners)
    ensures r.specialtyId.None? <==> f.specialtyId == ""
    ensures r.email == NullIfEmpty(f.email) && r.whatsapp == NullIfEmpty(f.whatsapp)
  {
    Professional(
      f.name, NullIfEmpty(f.email), NullIfEmpty(f.phone), NullIfEmpty(f.whatsapp),
      f.location, NullIfEmpty(f.description), NullIfEmpty(f.photoUrl), Some(f.banners),
      NullIfEmpty(f.specialtyId), NullIfEmpty(f.instagram), NullIfEmpty(f.facebook),
      NullIfEmpty(f.linkedin), NullIfEmpty(f.youtube))
  }

  function Patch(f: ProfessionalForm): Professional -> Professional
  {
    (p: Professional) => Written(f)
  }

  /** Saving a form and editing the saved professional (with its saved clinics) gives back the form. */
  lemma EditAfterSave(f: ProfessionalForm)
    ensures FormOf(Written(f), Some(f.clinicIds)) == f
  {
  }

  /** A professional with no empty-text field and a banner list is stored unchanged by an edit that changes nothing. */
  lemma SaveAfterEdit(p: Professional, embedded: Option<seq<string>>)
    requires p.email != Some("") && p.phone != Some("") && p.whatsapp != Some("")
    requires p.description != Some("") && p.photoUrl != Some("") && p.specialtyId != Some("")
    requires p.instagram != Some("") && p.facebook != Some("") && p.linkedin != Some("") && p.youtube != Some("")
    requires p.banners.Some?
    ensures Written(FormOf(p, embedded)) == p
  {
    NullIfEmptyOrEmpty(p.email);
    NullIfEmptyOrEmpty(p.phone);
    NullIfEmptyOrEmpty(p.whatsapp);
    NullIfEmptyOrEmpty(p.description);
    NullIfEmptyOrEmpty(p.photoUrl);
    NullIfEmptyOrEmpty(p.specialtyId);
    NullIfEmptyOrEmpty(p.instagram);
    NullIfEmptyOrEmpty(p.facebook);
    NullIfEmptyOrEmpty(p.linkedin);
    NullIfEmptyOrEmpty(p.youtube);
  }

  /**
   * `updateClinicProfessionals`: delete the professional's join rows (the
   * outcome is not checked), then insert one per clinic id unless there are
   * none.  The result is the insert's error, which the caller rethrows.
   */
  method UpdateClinicProfessionals(links: Table<Links.Link>, professionalId: string, clinicIds: seq<string>,
                                   deleteReply: Reply, insertReply: Reply, ids: seq<string>)
    returns (error: Option<string>)
    requires |ids| == |clinicIds|
    modifies links
    ensures links.rows == Links.Rewrite(old(links.rows), Links.ByMember, professionalId, clinicIds, ids, deleteReply.Ok?, insertReply.Ok?)
    ensures links.requests == old(links.requests) + [Delete] + (if |clinicIds| > 0 then [Insert(|ids|)] else [])
    ensures error.Some? <==> |clinicIds| > 0 && insertReply.Fail?
    ensures error.Some? ==> error.value == insertReply.message
  {
    links.Remove(Links.NotOwnedBy(Links.ByMember, professionalId), deleteReply);
    error := None;
    if |clinicIds| > 0 {
      links.Add(Links.NewLinks(Links.ByMember, professionalId, clinicIds), ids, insertReply);
      if insertReply.Fail? {
        error := Some(insertReply.message);
      }
    }
  }

  class ProfessionalsTab {
    var form: ProfessionalForm
    var editing: Option<Row<Professional>>
    var dialogOpen: bool
    var saving: bool
    /** Number of list refetches requested (`fetchProfessionals()`, not awaited). */
    var reloads: nat
    var toast: Option<Toast>

    constructor ()
      ensures form == EmptyForm && editing == None && !dialogOpen && !saving && reloads == 0 && toast == None
    {
      form := EmptyForm;
      editing := None;
      dialogOpen := false;
      saving := false;
      reloads := 0;
      toast := None;
    }

    /** `resetForm`: every field back to empty, nothing being edited. */
    method ResetForm()
      modifies this
      ensures form == EmptyForm && editing == None
      ensures dialogOpen == old(dialogOpen) && saving == old(saving) && reloads == old(reloads) && toast == old(toast)
    {
      form := EmptyForm;
      editing := None;
    }

    /** `handleEdit`. */
    method HandleEdit(professional: Row<Professional>, embedded: Option<seq<string>>)
      modifies this
      ensures editing == Some(professional) && form == FormOf(professional.cols, embedded) && dialogOpen
      ensures form.clinicIds == (if embedded.Some? then embedded.value else [])
      ensures saving == old(saving) && reloads == old(reloads) && toast == old(toast)
    {
      editing := Some(professional);
      form := FormOf(professional.cols, embedded);
      dialogOpen := true;
    }

    /** A clinic's checkbox: checking appends the id, unchecking removes every occurrence. */
    method CheckClinic(clinicId: string, checked: bool)
      modifies this
      ensures form == old(form).(clinicIds := Selection.Check(old(form).clinicIds, clinicId, checked))
      ensures editing == old(editing) && dialogOpen == old(dialogOpen)
      ensures saving == old(saving) && reloads == old(reloads) && toast == old(toast)
    {
      form := form.(clinicIds := Selection.Check(form.clinicIds, clinicId, checked));
    }

    /** The "add banner" button. */
    method AddBanner()
      modifies this
      ensures form == old(form).(banners := BannerList.Add(old(form).banners))
      ensures editing == old(editing) && dialogOpen == old(dialogOpen)
      ensures saving == old(saving) && reloads == old(reloads) && toast == old(toast)
    {
      form := form.(banners := BannerList.Add(form.banners));
    }

    /** A banner's delete button. */
    method RemoveBanner(index: nat)
      requires index < |form.banners|
      modifies this
      ensures form == old(form).(banners := BannerList.RemoveAt(old(form).banners, index))
      ensures editing == old(editing) && dialogOpen == old(dialogOpen)
      ensures saving == old(saving) && reloads == old(reloads) && toast == old(toast)
    {
      form := form.(banners := BannerList.RemoveAt(form.banners, index));
    }

    /**
     * A banner's upload field reporting a URL through `onChange`.  The field's
     * callback writes into the form it captured, `snapshot`: the current form
     * when the image is cleared with the remove button, but the form as it was when the file was
     * chosen when an upload finishes, so edits made while the upload ran are
     * replaced by that earlier form.
     */
    method SetBanner(snapshot: ProfessionalForm, index: nat, url: string)
      requires index < |snapshot.banners|
      modifies this
      ensures form == snapshot.(banners := BannerList.SetAt(snapshot.banners, index, url))
      ensures editing == old(editing) && dialogOpen == old(dialogOpen)
      ensures saving == old(saving) && reloads == old(reloads) && toast == old(toast)
    {
      form := snapshot.(banners := BannerList.SetAt(snapshot.banners, index, url));
    }
    /**
     * The profile photo upload field reporting a URL; as for `SetBanner`, the
     * URL is written into the form the callback captured.
     */
    method SetPhotoUrl(snapshot: ProfessionalForm, url: string)
      modifies this
      ensures form == snapshot.(photoUrl := url)
      ensures editing == old(editing) && dialogOpen == old(dialogOpen)
      ensures saving == old(saving) && reloads == old(reloads) && toast == old(toast)
    {
      form := snapshot.(photoUrl := url);
    }

    /** The row write of `handleSubmit`: update the edited row, or insert the form as a new row. */
    method WriteProfessional(professionals: Table<Professional>, reply: Reply, newId: string)
      modifies professionals
      ensures editing.Some? ==> professionals.requests == old(professionals.requests) + [Update(editing.value.id)]
      ensures editing.Some? && reply.Ok? ==> professionals.rows == Patched(old(professionals.rows), editing.value.id, Patch(form))
      ensures editing.None? ==> professionals.requests == old(professionals.requests) + [Insert(1)]
      ensures editing.None? && reply.Ok? ==> professionals.rows == old(professionals.rows) + [Row(newId, Written(form))]
      ensures reply.Fail? ==> professionals.rows == old(professionals.rows)
    {
      if editing.Some? {
        professionals.Change(editing.value.id, Patch(form), reply);
      } else {
        professionals.Add([Written(form)], [newId], reply);
        assert Zip([newId], [Written(form)]) == [Row(newId, Written(form))];
      }
    }

    /**
     * `handleSubmit`.  Editing: update the row; only if that succeeds, rewrite
     * its clinics.  Creating: insert the row; only if that succeeds and
     * returns an identifier (`newId`, `""` standing for none), write its
     * clinics under that identifier.  A failure of the clinic insert is
     * reported as a failed save, although the row write has persisted.
     */
    method HandleSubmit(professionals: Table<Professional>, links: Table<Links.Link>, reply: Reply, newId: string,
                        deleteReply: Reply, insertReply: Reply, ids: seq<string>)
      requires |ids| == |form.clinicIds|
      modifies this, professionals, links
      ensures old(editing).Some? ==> professionals.requests == old(professionals.requests) + [Update(old(editing).value.id)]
      ensures old(editing).Some? && reply.Ok? ==> professionals.rows == Patched(old(professionals.rows), old(editing).value.id, Patch(old(form)))
      ensures old(editing).None? ==> professionals.requests == old(professionals.requests) + [Insert(1)]
      ensures old(editing).None? && reply.Ok? ==> professionals.rows == old(professionals.rows) + [Row(newId, Written(old(form)))]
      ensures reply.Fail? ==> professionals.rows == old(professionals.rows)
      // the clinic links
      ensures reply.Fail? || (old(editing).None? && newId == "") ==>
        links.rows == old(links.rows) && links.requests == old(links.requests)
      ensures reply.Ok? && (old(editing).Some? || newId != "") ==>
        var owner := if old(editing).Some? then old(editing).value.id else newId;
        links.rows == Links.Rewrite(old(links.rows), Links.ByMember, owner, old(form).clinicIds, ids, deleteReply.Ok?, insertReply.Ok?)
        && links.requests == old(links.requests) + [Delete] + (if |old(form).clinicIds| > 0 then [Insert(|ids|)] else [])
      // the outcome shown
      ensures reply.Fail? ==> toast == Some(Error("Erro ao salvar", reply.message))
      ensures reply.Ok? && LinkInsertFails(old(editing), newId, old(form).clinicIds, insertReply) ==>
        toast == Some(Error("Erro ao salvar", insertReply.message))
      ensures reply.Ok? && !LinkInsertFails(old(editing), newId, old(form).clinicIds, insertReply) ==>
        toast == Some(Info(if old(editing).Some? then "Profissional atualizado" else "Profissional adicionado"))
        && form == EmptyForm && editing == None && !dialogOpen && reloads == old(reloads) + 1
      ensures reply.Fail? || LinkInsertFails(old(editing), newId, old(form).clinicIds, insertReply) ==>
        form == old(form) && editing == old(editing) && dialogOpen == old(dialogOpen) && reloads == old(reloads)
      ensures !saving
    {
      saving := true;
      WriteProfessional(professionals, reply, newId);
      var failure: Option<string> := None;
      if reply.Fail? {
        failure := Some(reply.message);
      } else if editing.Some? || newId != "" {
        var owner := if editing.Some? then editing.value.id else newId;
        failure := UpdateClinicProfessionals(links, owner, form.clinicIds, deleteReply, insertReply, ids);
      }
      if failure.None? {
        toast := Some(Info(if editing.Some? then "Profissional atualizado" else "Profissional adicionado"));
        dialogOpen := false;
        ResetForm();
        reloads := reloads + 1;
      } else {
        toast := Some(Error("Erro ao salvar", failure.value));
      }
      saving := false;
    }
  }

  /** Whether a save whose row write succeeded then fails on the clinic insert. */
  predicate LinkInsertFails(editing: Option<Row<Professional>>, newId: string, clinicIds: seq<string>, insertReply: Reply)
  {
    (editing.Some? || newId != "") && |clinicIds| > 0 && insertReply.Fail?
  }

  /**
   * After a fully successful save the professional's clinics, as the next
   * listing joins them in, are exactly the checked ones, so editing it again
   * shows the same checkboxes; other professionals keep their clinics.
   */
  lemma SavedClinicsReload(rows: seq<Row<Links.Link>>, owner: string, f: ProfessionalForm, ids: seq<string>, other: string)
    requires |ids| == |f.clinicIds|
    ensures var after := Links.Rewrite(rows, Links.ByMember, owner, f.clinicIds, ids, true, true);
      FormOf(Written(f), Some(Links.TargetsOf(after, Links.ByMember, owner))) == f
      && (other != owner ==> Links.RowsOf(after, Links.ByMember, other) == Links.RowsOf(rows, Links.ByMember, other))
  {
    Links.RewriteExact(rows, Links.ByMember, owner, f.clinicIds, ids);
    if other != owner {
      Links.RewriteFramesOthers(rows, Links.ByMember, owner, f.clinicIds, ids, true, true, other);
    }
  }
}
