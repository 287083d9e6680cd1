/**
 * The specialties tab of the admin area: the specialty form and the delete
 * guarded by a lookup of the professionals that use the specialty.
 */
module SpecialtiesAdmin {
  import opened Wrappers
  import opened Backend
  import ProfessionalsAdmin

  /** A stored `specialties` row. */
  datatype Specialty = Specialty(name: string, description: Option<string>, icon: Option<string>)

  datatype SpecialtyForm = SpecialtyForm(name: string, description: string, icon: string)

  const EmptyForm := SpecialtyForm("", "", "")

  /** `handleEdit`: null text becomes `""`. */
  function FormOf(s: Specialty): SpecialtyForm
  {
    SpecialtyForm(s.name, OrEmpty(s.description), OrEmpty(s.icon))
  }

  /** The payload of insert and update: the name as typed, description and icon with `""` as null. */
  function Written(f: SpecialtyForm): (r: Specialty)
    ensures r.name == f.name
    ensures r.description.None? <==> f.description == ""
    ensures r.icon.None? <==> f.icon == ""
  {
    Specialty(f.name, NullIfEmpty(f.description), NullIfEmpty(f.icon))
  }

  function Patch(f: SpecialtyForm): Specialty -> Specialty
  {
    (s: Specialty) => Written(f)
  }

  lemma EditAfterSave(f: SpecialtyForm)
    ensures FormOf(Written(f)) == f
  {
  }

  /** Editing and saving unchanged stores the same row, except that `""` text becomes null. */
  lemma SaveAfterEdit(s: Specialty)
    ensures Written(FormOf(s)) == s <==> s.description != Some("") && s.icon != Some("")
  {
    NullIfEmptyOrEmpty(s.description);
    NullIfEmptyOrEmpty(s.icon);
  }

  /** The professionals' lookup `.eq("specialty_id", id)`. */
  function UsesSpecialty(id: string): Row<ProfessionalsAdmin.Professional> -> bool
  {
    (p: Row<ProfessionalsAdmin.Professional>) => p.cols.specialtyId == Some(id)
  }

  class SpecialtiesTab {
    var form: SpecialtyForm
    var editing: Option<Row<Specialty>>
    var dialogOpen: bool
    var saving: bool
    var reloads: nat
    var toast: Option<Toast>

    constructor ()
      ensures form == EmptyForm && editing == None && !dialogOpen && !saving && reloads == 0 && toast == None
    {
      form := EmptyForm;
      editing := None;
      dialogOpen := false;
      saving := false;
      reloads := 0;
      toast := None;
    }

    method ResetForm()
      modifies this
      ensures form == EmptyForm && editing == None
      ensures dialogOpen == old(dialogOpen) && saving == old(saving) && reloads == old(reloads) && toast == old(toast)
    {
      form := EmptyForm;
      editing := None;
    }

    method HandleEdit(specialty: Row<Specialty>)
      modifies this
      ensures form == FormOf(specialty.cols) && editing == Some(specialty) && dialogOpen
      ensures saving == old(saving) && reloads == old(reloads) && toast == old(toast)
    {
      editing := Some(specialty);
      form := FormOf(specialty.cols);
      dialogOpen := true;
    }

    /** `handleSubmit`: update the edited specialty or insert a new one; refetch only on success. */
    method HandleSubmit(specialties: Table<Specialty>, reply: Reply, newId: string)
      modifies this, specialties
      ensures old(editing).Some? ==> specialties.requests == old(specialties.requests) + [Update(old(editing).value.id)]
      ensures old(editing).Some? && reply.Ok? ==> specialties.rows == Patched(old(specialties.rows), old(editing).value.id, Patch(old(form)))
      ensures old(editing).None? ==> specialties.requests == old(specialties.requests) + [Insert(1)]
      ensures old(editing).None? && reply.Ok? ==> specialties.rows == old(specialties.rows) + [Row(newId, Written(old(form)))]
      ensures reply.Fail? ==> specialties.rows == old(specialties.rows)
      ensures reply.Ok? ==> form == EmptyForm && editing == None && !dialogOpen && reloads == old(reloads) + 1
      ensures reply.Ok? ==> toast == Some(Info(if old(editing).Some? then "Especialidade atualizada" else "Especialidade adicionada"))
      ensures reply.Fail? ==> form == old(form) && editing == old(editing) && dialogOpen == old(dialogOpen) && reloads == old(reloads)
      ensures reply.Fail? ==> toast == Some(Error("Erro ao salvar", reply.message))
      ensures !saving
    {
      saving := true;
      if editing.Some? {
        specialties.Change(editing.value.id, Patch(form), reply);
      } else {
        specialties.Add([Written(form)], [newId], reply);
        assert Zip([newId], [Written(old(form))]) == [Row(newId, Written(old(form)))];
      }
      if reply.Ok? {
        toast := Some(Info(if editing.Some? then "Especialidade atualizada" else "Especialidade adicionada"));
        dialogOpen := false;
        ResetForm();
        reloads := reloads + 1;
      } else {
        toast := Some(Error("Erro ao salvar", reply.message));
      }
      saving := false;
    }

    /**
     * `handleDelete`: nothing unless confirmed; then look up the
     * professionals with this specialty and refuse when the lookup returned
     * at least one.  A failed lookup has no data, so the delete goes ahead.
     */
    method HandleDelete(professionals: Table<ProfessionalsAdmin.Professional>, specialties: Table<Specialty>,
                        confirmed: bool, id: string, lookupReply: Reply, deleteReply: Reply)
      modifies this, professionals, specialties
      ensures professionals.rows == old(professionals.rows)
      ensures professionals.requests == old(professionals.requests) + (if confirmed then [Select] else [])
      ensures !confirmed ==> specialties.requests == old(specialties.requests) && toast == old(toast)
      ensures confirmed && lookupReply.Ok? && Matching(professionals.rows, UsesSpecialty(id)) != [] ==>
        specialties.requests == old(specialties.requests) && toast == Some(Error("Não é possível excluir", ""))
      ensures DeleteSent(confirmed, lookupReply, professionals.rows, id) ==>
        specialties.requests == old(specialties.requests) + [Delete]
      ensures DeleteSent(confirmed, lookupReply, professionals.rows, id) && deleteReply.Ok? ==>
        specialties.rows == Matching(old(specialties.rows), IdIsNot(id))
        && toast == Some(Info("Especialidade excluída")) && reloads == old(reloads) + 1
      ensures DeleteSent(confirmed, lookupReply, professionals.rows, id) && deleteReply.Fail? ==>
        toast == Some(Error("Erro ao excluir", deleteReply.message))
      ensures !(DeleteSent(confirmed, lookupReply, professionals.rows, id) && deleteReply.Ok?) ==>
        specialties.rows == old(specialties.rows) && reloads == old(reloads)
      ensures form == old(form) && editing == old(editing) && dialogOpen == old(dialogOpen) && saving == old(saving)
    {
      if !confirmed {
        return;
      }
      var users := professionals.Query(UsesSpecialty(id), lookupReply);
      if users.Success? && |users.value| > 0 {
        toast := Some(Error("Não é possível excluir", ""));
        return;
      }
      specialties.Remove(IdIsNot(id), deleteReply);
      if deleteReply.Fail? {
        toast := Some(Error("Erro ao excluir", deleteReply.message));
      } else {
        toast := Some(Info("Especialidade excluída"));
        reloads := reloads + 1;
      }
    }
  }

  /** Whether `handleDelete` sends the delete: confirmed, and the lookup did not return a user. */
  predicate DeleteSent(confirmed: bool, lookupReply: Reply, professionals: seq<Row<ProfessionalsAdmin.Professional>>, id: string)
  {
    confirmed && (lookupReply.Fail? || Matching(professionals, UsesSpecialty(id)) == [])
  }

  /** When the lookup succeeds, a specialty in use is never deleted. */
  lemma GuardProtectsUsedSpecialty(professionals: seq<Row<ProfessionalsAdmin.Professional>>, id: string, p: Row<ProfessionalsAdmin.Professional>)
    requires p in professionals && p.cols.specialtyId == Some(id)
    ensures !DeleteSent(true, Ok, professionals, id)
  {
    assert p in Matching(professionals, UsesSpecialty(id));
  }

  /** When the lookup fails, the delete is sent even though professionals use the specialty. */
  lemma FailedLookupSkipsGuard(professionals: seq<Row<ProfessionalsAdmin.Professional>>, id: string, message: string)
    ensures DeleteSent(true, Fail(message), professionals, id)
  {
  }
}
