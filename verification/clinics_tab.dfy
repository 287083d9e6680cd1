/**
 * The clinics tab of the admin area: the clinic form (create and edit), the
 * payload it writes, and the dialog that rewrites a clinic's professionals
 * in `clinic_professionals`.
 */
module ClinicsAdmin {
  import opened Wrappers
  import opened Backend
  import Links
  import Slug
  import Selection
  import BannerList

  /** A stored `clinics` row (its columns; the identifier is in the `Row`). */
  datatype Clinic = Clinic(
    name: string, description: Option<string>, imageUrl: Option<string>,
    banners: Option<seq<string>>, address: Option<string>, city: string,
    state: Option<string>, phone: Option<string>, email: Option<string>,
    schedule: Option<string>, website: Option<string>, slug: string,
    category: Option<string>, isActive: bool, isFeatured: bool,
    instagram: Option<string>, facebook: Option<string>,
    linkedin: Option<string>, youtube: Option<string>)

  /** The form state (`formData`). */
  datatype ClinicForm = ClinicForm(
    name: string, description: string, imageUrl: string, banners: seq<string>,
    address: string, city: string, state: string, phone: string, email: string,
    schedule: string, website: string, category: string, isActive: bool,
    isFeatured: bool, instagram: string, facebook: string, linkedin: string,
    youtube: string)

  /** The form `resetForm` restores. */
  const EmptyForm := ClinicForm("", "", "", [], "", "", "", "", "", "", "", "", true, false, "", "", "", "")

  /** `handleEdit`: the form filled from a stored clinic, null text as `""`. */
  function FormOf(c: Clinic): ClinicForm
  {
    ClinicForm(
      c.name, OrEmpty(c.description), OrEmpty(c.imageUrl),
      if c.banners.Some? then c.banners.value else [],
      OrEmpty(c.address), c.city, OrEmpty(c.state), OrEmpty(c.phone),
      OrEmpty(c.email), OrEmpty(c.schedule), OrEmpty(c.website),
      OrEmpty(c.category), c.isActive, c.isFeatured, OrEmpty(c.instagram),
      OrEmpty(c.facebook), OrEmpty(c.linkedin), OrEmpty(c.youtube))
  }

  /**
   * The columns `handleSubmit` writes over a clinic `c`: name, city, banners
   * and is_active as typed, slug from the name, every other text field with
   * `""` as null.  `is_featured` is not in the payload.
   */
  function Written(f: ClinicForm, c: Clinic): (r: Clinic)
    ensures r.isFeatured == c.isFeatured
    ensures r.slug == Slug.GenerateSlug(f.name) && Slug.IsSlug(r.slug)
    ensures r.name == f.name && r.city == f.city && r.banners == Some(f.banners) && r.isActive == f.isActive
    ensures r.description == NullIfEmpty(f.description) && r.youtube == NullIfEmpty(f.youtube)
  {
    Slug.GenerateSlugIsSlug(f.name);
    Clinic(
      f.name, NullIfEmpty(f.description), NullIfEmpty(f.imageUrl), Some(f.banners),
      NullIfEmpty(f.address), f.city, NullIfEmpty(f.state), NullIfEmpty(f.phone),
      NullIfEmpty(f.email), NullIfEmpty(f.schedule), NullIfEmpty(f.website),
      Slug.GenerateSlug(f.name), NullIfEmpty(f.category), f.isActive, c.isFeatured,
      NullIfEmpty(f.instagram), NullIfEmpty(f.facebook), NullIfEmpty(f.linkedin),
      NullIfEmpty(f.youtube))
  }

  /** The update sent for an edited clinic. */
  function Patch(f: ClinicForm): Clinic -> Clinic
  {
    (c: Clinic) => Written(f, c)
  }

  /** The row an insert creates; `is_featured` takes the column default. */
  function Inserted(f: ClinicForm, featuredDefault: bool): Clinic
  {
    Written(f, Clinic("", None, None, None, None, "", None, None, None, None, None, "", None, false, featuredDefault, None, None, None, None))
  }

  /** The "is featured" checkbox has no effect on what a save stores. */
  lemma FeaturedNotPersisted(f: ClinicForm, c: Clinic, b: bool)
    ensures Written(f.(isFeatured := b), c) == Written(f, c)
    ensures Written(f, c).isFeatured == c.isFeatured
  {
  }

  /**
   * Saving a form and editing the stored clinic again gives back the form,
   * except `is_featured`, which shows the stored value.
   */
  lemma EditAfterSave(f: ClinicForm, c: Clinic)
    ensures FormOf(Written(f, c)) == f.(isFeatured := c.isFeatured)
  {
  }

  /** Editing a clinic and saving it unchanged stores the same row, except that the slug is recomputed and empty text becomes null. */
  lemma SaveAfterEdit(c: Clinic)
    requires c.description != Some("") && c.imageUrl != Some("") && c.address != Some("")
    requires c.state != Some("") && c.phone != Some("") && c.email != Some("")
    requires c.schedule != Some("") && c.website != Some("") && c.category != Some("")
    requires c.instagram != Some("") && c.facebook != Some("") && c.linkedin != Some("") && c.youtube != Some("")
    requires c.banners.Some?
    ensures Written(FormOf(c), c) == c.(slug := Slug.GenerateSlug(c.name))
  {
    NullIfEmptyOrEmpty(c.description);
    NullIfEmptyOrEmpty(c.imageUrl);
    NullIfEmptyOrEmpty(c.address);
    NullIfEmptyOrEmpty(c.state);
    NullIfEmptyOrEmpty(c.phone);
    NullIfEmptyOrEmpty(c.email);
    NullIfEmptyOrEmpty(c.schedule);
    NullIfEmptyOrEmpty(c.website);
    NullIfEmptyOrEmpty(c.category);
    NullIfEmptyOrEmpty(c.instagram);
    NullIfEmptyOrEmpty(c.facebook);
    NullIfEmptyOrEmpty(c.linkedin);
    NullIfEmptyOrEmpty(c.youtube);
  }

  /**
   * The writes of `handleSaveProfessionals`: delete the clinic's join rows
   * (the outcome is not checked), then insert one row per selected id unless
   * the selection is empty.  The result is the insert's error.
   */
  method RewriteClinicLinks(links: Table<Links.Link>, clinicId: string, professionalIds: seq<string>,
                            deleteReply: Reply, insertReply: Reply, ids: seq<string>)
    returns (error: Option<string>)
    requires |ids| == |professionalIds|
    modifies links
    ensures links.rows == Links.Rewrite(old(links.rows), Links.ByClinic, clinicId, professionalIds, ids, deleteReply.Ok?, insertReply.Ok?)
    ensures links.requests == old(links.requests) + [Delete] + (if |professionalIds| > 0 then [Insert(|ids|)] else [])
    ensures error.Some? <==> |professionalIds| > 0 && insertReply.Fail?
    ensures error.Some? ==> error.value == insertReply.message
  {
    links.Remove(Links.NotOwnedBy(Links.ByClinic, clinicId), deleteReply);
    error := None;
    if |professionalIds| > 0 {
      links.Add(Links.NewLinks(Links.ByClinic, clinicId, professionalIds), ids, insertReply);
      if insertReply.Fail? {
        error := Some(insertReply.message);
      }
    }
  }

  class ClinicsTab {
    var form: ClinicForm
    var editing: Option<Row<Clinic>>
    var dialogOpen: bool
    var professionalsDialogOpen: bool
    var selectedClinicId: Option<string>
    var selectedProfessionalIds: seq<string>
    var saving: bool
    /** Number of list refetches requested (`fetchClinics()`, not awaited). */
    var reloads: nat
    var toast: Option<Toast>

    constructor ()
      ensures form == EmptyForm && editing == None && !dialogOpen && !professionalsDialogOpen
      ensures selectedClinicId == None && selectedProfessionalIds == [] && !saving
      ensures reloads == 0 && toast == None
    {
      form := EmptyForm;
      editing := None;
      dialogOpen := false;
      professionalsDialogOpen := false;
      selectedClinicId := None;
      selectedProfessionalIds := [];
      saving := false;
      reloads := 0;
      toast := None;
    }

    /** `resetForm`. */
    method ResetForm()
      modifies this
      ensures form == EmptyForm && editing == None
      ensures dialogOpen == old(dialogOpen) && professionalsDialogOpen == old(professionalsDialogOpen)
      ensures selectedClinicId == old(selectedClinicId) && selectedProfessionalIds == old(selectedProfessionalIds)
      ensures saving == old(saving) && reloads == old(reloads) && toast == old(toast)
    {
      form := EmptyForm;
      editing := None;
    }

    /** `handleEdit`: the clinic becomes the one being edited and the dialog opens. */
    method HandleEdit(clinic: Row<Clinic>)
      modifies this
      ensures editing == Some(clinic) && form == FormOf(clinic.cols) && dialogOpen
      ensures professionalsDialogOpen == old(professionalsDialogOpen)
      ensures selectedClinicId == old(selectedClinicId) && selectedProfessionalIds == old(selectedProfessionalIds)
      ensures saving == old(saving) && reloads == old(reloads) && toast == old(toast)
    {
      editing := Some(clinic);
      form := FormOf(clinic.cols);
      dialogOpen := true;
    }

    /** The "is featured" checkbox. */
    method SetFeatured(checked: bool)
      modifies this
      ensures form == old(form).(isFeatured := checked)
      ensures editing == old(editing) && dialogOpen == old(dialogOpen)
      ensures professionalsDialogOpen == old(professionalsDialogOpen)
      ensures selectedClinicId == old(selectedClinicId) && selectedProfessionalIds == old(selectedProfessionalIds)
      ensures saving == old(saving) && reloads == old(reloads) && toast == old(toast)
    {
      form := form.(isFeatured := checked);
    }

    /** The "add banner" button. */
    method AddBanner()
      modifies this
      ensures form == old(form).(banners := BannerList.Add(old(form).banners))
      ensures editing == old(editing) && dialogOpen == old(dialogOpen)
      ensures professionalsDialogOpen == old(professionalsDialogOpen)
      ensures selectedClinicId == old(selectedClinicId) && selectedProfessionalIds == old(selectedProfessionalIds)
      ensures saving == old(saving) && reloads == old(reloads) && toast == old(toast)
    {
      form := form.(banners := BannerList.Add(form.banners));
    }

    /** A banner's delete button. */
    method RemoveBanner(index: nat)
      requires index < |form.banners|
      modifies this
      ensures form == old(form).(banners := BannerList.RemoveAt(old(form).banners, index))
      ensures editing == old(editing) && dialogOpen == old(dialogOpen)
      ensures professionalsDialogOpen == old(professionalsDialogOpen)
      ensures selectedClinicId == old(selectedClinicId) && selectedProfessionalIds == old(selectedProfessionalIds)
      ensures saving == old(saving) && reloads == old(reloads) && toast == old(toast)
    {
      form := form.(banners := BannerList.RemoveAt(form.banners, index));
    }

    /**
     * A banner's upload field reporting a URL through `onChange`.  The field's
     * callback writes into the form it captured, `snapshot`: the current form
     * when the image is cleared with the remove button, but the form as it was when the file was
     * chosen when an upload finishes, so edits made while the upload ran are
     * replaced by that earlier form.
     */
    method SetBanner(snapshot: ClinicForm, index: nat, url: string)
      requires index < |snapshot.banners|
      modifies this
      ensures form == snapshot.(banners := BannerList.SetAt(snapshot.banners, index, url))
      ensures editing == old(editing) && dialogOpen == old(dialogOpen)
      ensures professionalsDialogOpen == old(professionalsDialogOpen)
      ensures selectedClinicId == old(selectedClinicId) && selectedProfessionalIds == old(selectedProfessionalIds)
      ensures saving == old(saving) && reloads == old(reloads) && toast == old(toast)
    {
      form := snapshot.(banners := BannerList.SetAt(snapshot.banners, index, url));
    }
    /**
     * The logo upload field reporting a URL; as for `SetBanner`, the
     * URL is written into the form the callback captured.
     */
    method SetImageUrl(snapshot: ClinicForm, url: string)
      modifies this
      ensures form == snapshot.(imageUrl := url)
      ensures editing == old(editing) && dialogOpen == old(dialogOpen)
      ensures professionalsDialogOpen == old(professionalsDialogOpen)
      ensures selectedClinicId == old(selectedClinicId) && selectedProfessionalIds == old(selectedProfessionalIds)
      ensures saving == old(saving) && reloads == old(reloads) && toast == old(toast)
    {
      form := snapshot.(imageUrl := url);
    }

    /**
     * `handleSubmit`: update the edited clinic or insert a new one.  On
     * success the dialog closes, the form resets and the list is refetched;
     * on failure the form stays as it was.  `saving` ends false either way.
     */
    method HandleSubmit(clinics: Table<Clinic>, reply: Reply, newId: string, featuredDefault: bool)
      modifies this, clinics
      ensures old(editing).Some? ==> clinics.requests == old(clinics.requests) + [Update(old(editing).value.id)]
      ensures old(editing).Some? && reply.Ok? ==> clinics.rows == Patched(old(clinics.rows), old(editing).value.id, Patch(old(form)))
      ensures old(editing).None? ==> clinics.requests == old(clinics.requests) + [Insert(1)]
      ensures old(editing).None? && reply.Ok? ==> clinics.rows == old(clinics.rows) + [Row(newId, Inserted(old(form), featuredDefault))]
      ensures reply.Fail? ==> clinics.rows == old(clinics.rows)
      ensures reply.Ok? ==> form == EmptyForm && editing == None && !dialogOpen && reloads == old(reloads) + 1
      ensures reply.Ok? ==> toast == Some(Info(if old(editing).Some? then "Clínica atualizada" else "Clínica adicionada"))
      ensures reply.Fail? ==> form == old(form) && editing == old(editing) && dialogOpen == old(dialogOpen) && reloads == old(reloads)
      ensures reply.Fail? ==> toast == Some(Error("Erro ao salvar", reply.message))
      ensures !saving
      ensures professionalsDialogOpen == old(professionalsDialogOpen)
      ensures selectedClinicId == old(selectedClinicId) && selectedProfessionalIds == old(selectedProfessionalIds)
    {
      saving := true;
      if editing.Some? {
        clinics.Change(editing.value.id, Patch(form), reply);
      } else {
        clinics.Add([Inserted(form, featuredDefault)], [newId], reply);
        assert Zip([newId], [Inserted(old(form), featuredDefault)]) == [Row(newId, Inserted(old(form), featuredDefault))];
      }
      if reply.Ok? {
        toast := Some(Info(if editing.Some? then "Clínica atualizada" else "Clínica adicionada"));
        dialogOpen := false;
        ResetForm();
        reloads := reloads + 1;
      } else {
        toast := Some(Error("Erro ao salvar", reply.message));
      }
      saving := false;
    }

    /**
     * `fetchClinicProfessionals`: on success the selection becomes the
     * clinic's professional ids in row order; on error it is left as it was.
     */
    method FetchClinicProfessionals(links: Table<Links.Link>, clinicId: string, reply: Reply)
      modifies this, links
      ensures links.rows == old(links.rows) && links.requests == old(links.requests) + [Select]
      ensures reply.Ok? ==> selectedProfessionalIds == Links.TargetsOf(links.rows, Links.ByClinic, clinicId) && toast == old(toast)
      ensures reply.Fail? ==> selectedProfessionalIds == old(selectedProfessionalIds)
      ensures reply.Fail? ==> toast == Some(Error("Erro ao carregar profissionais da clínica", reply.message))
      ensures form == old(form) && editing == old(editing) && dialogOpen == old(dialogOpen)
      ensures professionalsDialogOpen == old(professionalsDialogOpen) && selectedClinicId == old(selectedClinicId)
      ensures saving == old(saving) && reloads == old(reloads)
    {
      var r := links.Query(Links.OwnedBy(Links.ByClinic, clinicId), reply);
      if r.Success? {
        selectedProfessionalIds := Links.TargetsOf(links.rows, Links.ByClinic, clinicId);
      } else {
        toast := Some(Error("Erro ao carregar profissionais da clínica", r.error));
      }
    }

    /** `handleManageProfessionals`: select the clinic, load its professionals, open the dialog. */
    method HandleManageProfessionals(links: Table<Links.Link>, clinicId: string, reply: Reply)
      modifies this, links
      ensures links.rows == old(links.rows) && links.requests == old(links.requests) + [Select]
      ensures selectedClinicId == Some(clinicId) && professionalsDialogOpen
      ensures reply.Ok? ==> selectedProfessionalIds == Links.TargetsOf(links.rows, Links.ByClinic, clinicId)
      ensures reply.Ok? ==> toast == old(toast)
      ensures reply.Fail? ==> selectedProfessionalIds == old(selectedProfessionalIds)
      ensures reply.Fail? ==> toast == Some(Error("Erro ao carregar profissionais da clínica", reply.message))
      ensures form == old(form) && editing == old(editing) && dialogOpen == old(dialogOpen)
      ensures saving == old(saving) && reloads == old(reloads)
    {
      selectedClinicId := Some(clinicId);
      FetchClinicProfessionals(links, clinicId, reply);
      professionalsDialogOpen := true;
    }

    /** A professional's checkbox in the dialog. */
    method ToggleProfessionalSelection(professionalId: string)
      modifies this
      ensures selectedProfessionalIds == Selection.Toggle(old(selectedProfessionalIds), professionalId)
      ensures form == old(form) && editing == old(editing) && dialogOpen == old(dialogOpen)
      ensures professionalsDialogOpen == old(professionalsDialogOpen) && selectedClinicId == old(selectedClinicId)
      ensures saving == old(saving) && reloads == old(reloads) && toast == old(toast)
    {
      selectedProfessionalIds := Selection.Toggle(selectedProfessionalIds, professionalId);
    }

    /**
     * `handleSaveProfessionals`: delete the clinic's join rows (the outcome is
     * not checked), then insert one row per selected id unless the selection
     * is empty.  `ids` are the identifiers the backend gives the new rows.
     */
    method HandleSaveProfessionals(links: Table<Links.Link>, deleteReply: Reply, insertReply: Reply, ids: seq<string>)
      requires |ids| == |selectedProfessionalIds|
      modifies this, links
      ensures old(selectedClinicId).None? ==> links.rows == old(links.rows) && links.requests == old(links.requests)
      ensures old(selectedClinicId).None? ==> selectedProfessionalIds == old(selectedProfessionalIds) && saving == old(saving)
      ensures old(selectedClinicId).None? ==> professionalsDialogOpen == old(professionalsDialogOpen) && toast == old(toast)
      ensures old(selectedClinicId).Some? ==>
        links.rows == Links.Rewrite(old(links.rows), Links.ByClinic, old(selectedClinicId).value,
                                    old(selectedProfessionalIds), ids, deleteReply.Ok?, insertReply.Ok?)
      ensures old(selectedClinicId).Some? ==>
        links.requests == old(links.requests) + [Delete] + (if |old(selectedProfessionalIds)| > 0 then [Insert(|ids|)] else [])
      ensures old(selectedClinicId).Some? && (|old(selectedProfessionalIds)| == 0 || insertReply.Ok?) ==>
        !professionalsDialogOpen && selectedClinicId == None && selectedProfessionalIds == [] && toast == Some(Info("Profissionais atualizados"))
      ensures old(selectedClinicId).Some? && |old(selectedProfessionalIds)| > 0 && insertReply.Fail? ==>
        professionalsDialogOpen == old(professionalsDialogOpen) && selectedClinicId == old(selectedClinicId)
        && selectedProfessionalIds == old(selectedProfessionalIds)
        && toast == Some(Error("Erro ao salvar profissionais", insertReply.message))
      ensures old(selectedClinicId).Some? ==> !saving
      ensures form == old(form) && editing == old(editing) && dialogOpen == old(dialogOpen) && reloads == old(reloads)
    {
      if selectedClinicId.None? {
        return;
      }
      saving := true;
      var error := RewriteClinicLinks(links, selectedClinicId.value, selectedProfessionalIds, deleteReply, insertReply, ids);
      if error.Some? {
        toast := Some(Error("Erro ao salvar profissionais", error.value));
      } else {
        toast := Some(Info("Profissionais atualizados"));
        professionalsDialogOpen := false;
        selectedClinicId := None;
        selectedProfessionalIds := [];
      }
      saving := false;
    }
  }

  /**
   * A successful save of the professionals dialog links the clinic to exactly
   * the selected professionals and leaves every other clinic's rows alone.
   */
  lemma SaveProfessionalsExact(rows: seq<Row<Links.Link>>, clinicId: string, selected: seq<string>, ids: seq<string>, other: string)
    requires |ids| == |selected| && other != clinicId
    ensures Links.TargetsOf(Links.Rewrite(rows, Links.ByClinic, clinicId, selected, ids, true, true), Links.ByClinic, clinicId) == selected
    ensures Links.RowsOf(Links.Rewrite(rows, Links.ByClinic, clinicId, selected, ids, true, true), Links.ByClinic, other)
         == Links.RowsOf(rows, Links.ByClinic, other)
  {
    Links.RewriteExact(rows, Links.ByClinic, clinicId, selected, ids);
    Links.RewriteFramesOthers(rows, Links.ByClinic, clinicId, selected, ids, true, true, other);
  }
}
