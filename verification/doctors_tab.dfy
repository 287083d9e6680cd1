/**
 * The doctors tab of the admin area: the doctor form, the record it writes
 * (the whole form plus the slug), the rewrite of the doctor's clinics in
 * `clinic_doctors`, and the search over the listed doctors.
 */
module DoctorsAdmin {
  import opened Wrappers
  import opened Backend
  import Links
  import Seqs
  import Text
  import Slug
  import Selection

  /** A stored `doctors` row. */
  datatype Doctor = Doctor(
    name: string, specialty: string, crm: Option<string>, bio: Option<string>,
    photoUrl: Option<string>, schedule: Option<string>,
    appointmentLink: Option<string>, slug: string, isActive: bool)

  /** The form state (`formData`). */
  datatype DoctorForm = DoctorForm(
    name: string, specialty: string, crm: string, bio: string, photoUrl: string,
    schedule: string, appointmentLink: string, isActive: bool)

  const EmptyForm := DoctorForm("", "", "", "", "", "", "", true)

  /** `handleEdit`: null text becomes `""`. */
  function FormOf(d: Doctor): DoctorForm
  {
    DoctorForm(d.name, d.specialty, OrEmpty(d.crm), OrEmpty(d.bio), OrEmpty(d.photoUrl),
               OrEmpty(d.schedule), OrEmpty(d.appointmentLink), d.isActive)
  }

  /**
   * `{ ...formData, slug }`: every form field as typed (an empty field is
   * stored as `""`, never as null) plus the slug of the name.
   */
  function Written(f: DoctorForm): (r: Doctor)
    ensures r.crm == Some(f.crm) && r.bio == Some(f.bio) && r.photoUrl == Some(f.photoUrl)
    ensures r.schedule == Some(f.schedule) && r.appointmentLink == Some(f.appointmentLink)
    ensures r.slug == Slug.GenerateSlug(f.name) && Slug.IsSlug(r.slug)
  {
    Slug.SlugVariantsAgree(f.name);
    Slug.GenerateSlugIsSlug(f.name);
    Doctor(f.name, f.specialty, Some(f.crm), Some(f.bio), Some(f.photoUrl), Some(f.schedule),
           Some(f.appointmentLink), Slug.GenerateSlugOneHyphen(f.name), f.isActive)
  }

  function Patch(f: DoctorForm): Doctor -> Doctor
  {
    (d: Doctor) => Written(f)
  }

  /** Saving a form and editing the saved doctor gives back the form. */
  lemma EditAfterSave(f: DoctorForm)
    ensures FormOf(Written(f)) == f
  {
  }

  /** Editing a doctor and saving it unchanged stores no null text and recomputes the slug; nothing else changes. */
  lemma SaveAfterEdit(d: Doctor)
    ensures Written(FormOf(d)) == d.(crm := Some(OrEmpty(d.crm)), bio := Some(OrEmpty(d.bio)),
                                      photoUrl := Some(OrEmpty(d.photoUrl)), schedule := Some(OrEmpty(d.schedule)),
                                      appointmentLink := Some(OrEmpty(d.appointmentLink)),
                                      slug := Slug.GenerateSlug(d.name))
  {
    Slug.SlugVariantsAgree(d.name);
  }

  /**
   * `fetchDoctorClinics`: the doctor's clinic ids in row order; an error is
   * not reported and yields the empty list.
   */
  method FetchDoctorClinics(links: Table<Links.Link>, doctorId: string, reply: Reply) returns (clinicIds: seq<string>)
    modifies links
    ensures links.rows == old(links.rows) && links.requests == old(links.requests) + [Select]
    ensures reply.Ok? ==> clinicIds == Links.TargetsOf(links.rows, Links.ByMember, doctorId)
    ensures reply.Fail? ==> clinicIds == []
  {
    var r := links.Query(Links.OwnedBy(Links.ByMember, doctorId), reply);
    if r.Success? {
      clinicIds := Links.TargetsOf(links.rows, Links.ByMember, doctorId);
    } else {
      clinicIds := [];
    }
  }

  /** `doctor.name` or `doctor.specialty` includes the search term, both lower-cased. */
  predicate Matches(d: Row<Doctor>, term: string)
  {
    Text.Contains(Text.Lower(d.cols.name), Text.Lower(term))
    || Text.Contains(Text.Lower(d.cols.specialty), Text.Lower(term))
  }

  /** `filteredDoctors`. */
  function FilteredDoctors(doctors: seq<Row<Doctor>>, term: string): (r: seq<Row<Doctor>>)
    ensures forall d :: d in r <==> d in doctors && Matches(d, term)
    ensures Seqs.IsSubsequence(r, doctors)
  {
    Seqs.FilterIsSubsequence(doctors, (d: Row<Doctor>) => Matches(d, term));
    Seqs.Filter(doctors, (d: Row<Doctor>) => Matches(d, term))
  }

  /** An empty search lists every doctor. */
  lemma EmptySearchKeepsAll(doctors: seq<Row<Doctor>>)
    ensures FilteredDoctors(doctors, "") == doctors
  {
    forall d | d in doctors ensures Matches(d, "") {
      Text.ContainsEmpty(Text.Lower(d.cols.name));
    }
    Seqs.FilterKeepsAll(doctors, (d: Row<Doctor>) => Matches(d, ""));
  }

  class DoctorsTab {
    var form: DoctorForm
    var editing: Option<Row<Doctor>>
    var selectedClinics: seq<string>
    var dialogOpen: bool
    var saving: bool
    var searchTerm: string
    var reloads: nat
    /** Every toast shown, oldest first (a save can show a confirmation and then an error). */
    var toasts: seq<Toast>

    constructor ()
      ensures form == EmptyForm && editing == None && selectedClinics == [] && !dialogOpen
      ensures !saving && searchTerm == "" && reloads == 0 && toasts == []
    {
      form := EmptyForm;
      editing := None;
      selectedClinics := [];
      dialogOpen := false;
      saving := false;
      searchTerm := "";
      reloads := 0;
      toasts := [];
    }

    /** `resetForm`: also clears the selected clinics. */
    method ResetForm()
      modifies this
      ensures form == EmptyForm && editing == None && selectedClinics == []
      ensures dialogOpen == old(dialogOpen) && saving == old(saving) && searchTerm == old(searchTerm)
      ensures reloads == old(reloads) && toasts == old(toasts)
    {
      form := EmptyForm;
      selectedClinics := [];
      editing := None;
    }

    /** `handleEdit`: fill the form, load the doctor's clinics, open the dialog. */
    method HandleEdit(doctor: Row<Doctor>, links: Table<Links.Link>, reply: Reply)
      modifies this, links
      ensures editing == Some(doctor) && form == FormOf(doctor.cols) && dialogOpen
      ensures links.rows == old(links.rows) && links.requests == old(links.requests) + [Select]
      ensures reply.Ok? ==> selectedClinics == Links.TargetsOf(links.rows, Links.ByMember, doctor.id)
      ensures reply.Fail? ==> selectedClinics == []
      ensures saving == old(saving) && searchTerm == old(searchTerm) && reloads == old(reloads) && toasts == old(toasts)
    {
      editing := Some(doctor);
      form := FormOf(doctor.cols);
      selectedClinics := FetchDoctorClinics(links, doctor.id, reply);
      dialogOpen := true;
    }

    /** `toggleClinic`. */
    method ToggleClinic(clinicId: string)
      modifies this
      ensures selectedClinics == Selection.Toggle(old(selectedClinics), clinicId)
      ensures form == old(form) && editing == old(editing) && dialogOpen == old(dialogOpen)
      ensures saving == old(saving) && searchTerm == old(searchTerm) && reloads == old(reloads) && toasts == old(toasts)
    {
      selectedClinics := Selection.Toggle(selectedClinics, clinicId);
    }

    /** The doctor write of `handleSubmit`: update the edited row, or insert the form as a new row. */
    method WriteDoctor(doctors: Table<Doctor>, reply: Reply, newId: string) returns (doctorId: string)
      modifies doctors
      ensures doctorId == if editing.Some? then editing.value.id else newId
      ensures editing.Some? ==> doctors.requests == old(doctors.requests) + [Update(editing.value.id)]
      ensures editing.Some? && reply.Ok? ==> doctors.rows == Patched(old(doctors.rows), editing.value.id, Patch(form))
      ensures editing.None? ==> doctors.requests == old(doctors.requests) + [Insert(1)]
      ensures editing.None? && reply.Ok? ==> doctors.rows == old(doctors.rows) + [Row(newId, Written(form))]
      ensures reply.Fail? ==> doctors.rows == old(doctors.rows)
    {
      if editing.Some? {
        doctors.Change(editing.value.id, Patch(form), reply);
        doctorId := editing.value.id;
      } else {
        doctors.Add([Written(form)], [newId], reply);
        assert Zip([newId], [Written(form)]) == [Row(newId, Written(form))];
        doctorId := newId;
      }
    }

    /**
     * `handleSubmit`.  Editing: update the row, then delete the doctor's
     * clinic rows (outcome not checked).  Creating: insert the row and take
     * the identifier it returns; no delete.  Then, for a non-empty selection,
     * insert one clinic row per selected id.  The confirmation toast is shown
     * before the clinic insert, so a failing insert shows it and then the error.
     */
    method HandleSubmit(doctors: Table<Doctor>, links: Table<Links.Link>, reply: Reply, newId: string,
                        deleteReply: Reply, insertReply: Reply, ids: seq<string>)
      requires |ids| == |selectedClinics|
      modifies this, doctors, links
      ensures old(editing).Some? ==> doctors.requests == old(doctors.requests) + [Update(old(editing).value.id)]
      ensures old(editing).Some? && reply.Ok? ==> doctors.rows == Patched(old(doctors.rows), old(editing).value.id, Patch(old(form)))
      ensures old(editing).None? ==> doctors.requests == old(doctors.requests) + [Insert(1)]
      ensures old(editing).None? && reply.Ok? ==> doctors.rows == old(doctors.rows) + [Row(newId, Written(old(form)))]
      ensures reply.Fail? ==> doctors.rows == old(doctors.rows)
      ensures reply.Fail? ==> links.rows == old(links.rows) && links.requests == old(links.requests)
      ensures reply.Ok? && old(editing).Some? ==>
        links.rows == Links.Rewrite(old(links.rows), Links.ByMember, old(editing).value.id, old(selectedClinics), ids, deleteReply.Ok?, insertReply.Ok?)
        && links.requests == old(links.requests) + [Delete] + (if |ids| > 0 then [Insert(|ids|)] else [])
      ensures reply.Ok? && old(editing).None? ==>
        links.rows == Links.Rewrite(old(links.rows), Links.ByMember, newId, old(selectedClinics), ids, false, insertReply.Ok?)
        && links.requests == old(links.requests) + (if |ids| > 0 then [Insert(|ids|)] else [])
      ensures reply.Fail? ==> toasts == old(toasts) + [Error("Erro ao salvar", reply.message)]
      ensures reply.Ok? ==> toasts == old(toasts) + [Info(if old(editing).Some? then "Médico atualizado" else "Médico adicionado")]
                                     + (if |ids| > 0 && insertReply.Fail? then [Error("Erro ao salvar", insertReply.message)] else [])
      ensures reply.Ok? && (|ids| == 0 || insertReply.Ok?) ==>
        form == EmptyForm && editing == None && selectedClinics == [] && !dialogOpen && reloads == old(reloads) + 1
      ensures reply.Fail? || (|ids| > 0 && insertReply.Fail?) ==>
        form == old(form) && editing == old(editing) && selectedClinics == old(selectedClinics)
        && dialogOpen == old(dialogOpen) && reloads == old(reloads)
      ensures !saving && searchTerm == old(searchTerm)
    {
      saving := true;
      var doctorId := WriteDoctor(doctors, reply, newId);
      if reply.Fail? {
        toasts := toasts + [Error("Erro ao salvar", reply.message)];
      } else {
        var saved := Info(if editing.Some? then "Médico atualizado" else "Médico adicionado");
        var error := SaveLinks(links, doctorId, selectedClinics, editing.Some?, deleteReply, insertReply, ids);
        if error.Some? {
          toasts := toasts + [saved] + [Error("Erro ao salvar", error.value)];
        } else {
          toasts := toasts + [saved];
          dialogOpen := false;
          ResetForm();
          reloads := reloads + 1;
        }
      }
      saving := false;
    }
  }

  /**
   * The clinic rewrite of a successful `handleSubmit`: when editing, delete
   * the doctor's clinic rows (outcome not checked), then insert the selection.
   */
  method SaveLinks(links: Table<Links.Link>, doctorId: string, clinicIds: seq<string>, editing: bool,
                   deleteReply: Reply, insertReply: Reply, ids: seq<string>) returns (error: Option<string>)
    requires |ids| == |clinicIds|
    modifies links
    ensures links.rows == Links.Rewrite(old(links.rows), Links.ByMember, doctorId, clinicIds, ids, editing && deleteReply.Ok?, insertReply.Ok?)
    ensures links.requests == old(links.requests) + (if editing then [Delete] else []) + (if |ids| > 0 then [Insert(|ids|)] else [])
    ensures error.Some? <==> |ids| > 0 && insertReply.Fail?
    ensures error.Some? ==> error.value == insertReply.message
  {
    if editing {
      links.Remove(Links.NotOwnedBy(Links.ByMember, doctorId), deleteReply);
    }
    error := InsertLinks(links, doctorId, clinicIds, insertReply, ids);
  }

  /** The clinic insert of `handleSubmit`: skipped for an empty selection; the result is its error. */
  method InsertLinks(links: Table<Links.Link>, doctorId: string, clinicIds: seq<string>, insertReply: Reply, ids: seq<string>)
    returns (error: Option<string>)
    requires |ids| == |clinicIds|
    modifies links
    ensures links.rows == Links.Rewrite(old(links.rows), Links.ByMember, doctorId, clinicIds, ids, false, insertReply.Ok?)
    ensures links.requests == old(links.requests) + (if |ids| > 0 then [Insert(|ids|)] else [])
    ensures error.Some? <==> |ids| > 0 && insertReply.Fail?
    ensures error.Some? ==> error.value == insertReply.message
  {
    error := None;
    if |clinicIds| > 0 {
      links.Add(Links.NewLinks(Links.ByMember, doctorId, clinicIds), ids, insertReply);
      if insertReply.Fail? {
        error := Some(insertReply.message);
      }
    }
  }

  /**
   * A new doctor has no clinic rows yet, so a successful create links it to
   * exactly the selected clinics even though nothing was deleted.
   */
  lemma CreateLinksExact(rows: seq<Row<Links.Link>>, newId: string, selected: seq<string>, ids: seq<string>)
    requires |ids| == |selected|
    requires forall x :: x in rows ==> x.cols.memberId != newId
    ensures Links.TargetsOf(Links.Rewrite(rows, Links.ByMember, newId, selected, ids, false, true), Links.ByMember, newId) == selected
  {
    Seqs.FilterNone(rows, Links.OwnedBy(Links.ByMember, newId));
    Links.RewriteDeleteFailure(rows, Links.ByMember, newId, selected, ids);
  }

  /**
   * When the clinic lookup of `handleEdit` fails, the selection is empty, so
   * the next successful save deletes every clinic row of the doctor and
   * inserts none.
   */
  lemma FailedLookupWipesLinks(rows: seq<Row<Links.Link>>, doctorId: string, insertOk: bool)
    ensures Links.RowsOf(Links.Rewrite(rows, Links.ByMember, doctorId, [], [], true, insertOk), Links.ByMember, doctorId) == []
  {
    Links.RowsOfWithoutOwner(rows, Links.ByMember, doctorId, doctorId);
  }

  /** After a successful edit-save the doctor's clinics are exactly the selection; other doctors keep theirs. */
  lemma EditLinksExact(rows: seq<Row<Links.Link>>, doctorId: string, selected: seq<string>, ids: seq<string>, other: string)
    requires |ids| == |selected|
    ensures Links.TargetsOf(Links.Rewrite(rows, Links.ByMember, doctorId, selected, ids, true, true), Links.ByMember, doctorId) == selected
    ensures other != doctorId ==>
      Links.RowsOf(Links.Rewrite(rows, Links.ByMember, doctorId, selected, ids, true, true), Links.ByMember, other)
      == Links.RowsOf(rows, Links.ByMember, other)
  {
    Links.RewriteExact(rows, Links.ByMember, doctorId, selected, ids);
    if other != doctorId {
      Links.RewriteFramesOthers(rows, Links.ByMember, doctorId, selected, ids, true, true, other);
    }
  }
}
