/**
 * The partners tab of the admin area: the partner form with its two checks
 * (required fields, description length), the search and area filter over the
 * list, and deletion through a confirmation dialog.
 */
module PartnersAdmin {
  import opened Wrappers
  import opened Backend
  import Seqs
  import Text

  /** A stored `partners` row. */
  datatype Partner = Partner(
    companyName: string, description: Option<string>, businessArea: string,
    logoUrl: Option<string>, websiteUrl: Option<string>, isActive: bool,
    createdAt: string)

  /** The form state (`formData`). */
  datatype PartnerForm = PartnerForm(
    companyName: string, description: string, businessArea: string,
    logoUrl: string, websiteUrl: string, isActive: bool)

  const EmptyForm := PartnerForm("", "", "", "", "", true)

  /** The longest description accepted, in UTF-16 code units. */
  const MaxDescription: nat := 200

  const RequiredMessage := "Preencha os campos obrigatórios"
  const TooLongMessage := "Descrição deve ter no máximo 200 caracteres"

  /** `s.length` in JavaScript: characters outside the Basic Multilingual Plane count twice. */
  function Utf16Length(s: string): (n: nat)
    ensures |s| <= n <= 2 * |s|
  {
    if s == [] then 0 else (if s[0] as int > 0xFFFF then 2 else 1) + Utf16Length(s[1..])
  }

  /** On text made of Basic Multilingual Plane characters, `length` is the number of characters. */
  lemma {:induction false} Utf16LengthBmp(s: string)
    requires forall i :: 0 <= i < |s| ==> s[i] as int <= 0xFFFF
    ensures Utf16Length(s) == |s|
  {
    if s != [] {
      Utf16LengthBmp(s[1..]);
    }
  }

  /**
   * The checks at the top of `handleSubmit`: the error message shown, or
   * `None` when the form may be saved.  The required fields are checked first.
   */
  function Validate(f: PartnerForm): (r: Option<string>)
    ensures r == Some(RequiredMessage) <==> f.companyName == "" || f.businessArea == ""
    ensures r == Some(TooLongMessage) <==> f.companyName != "" && f.businessArea != "" && Utf16Length(f.description) > MaxDescription
    ensures r.None? <==> f.companyName != "" && f.businessArea != "" && Utf16Length(f.description) <= MaxDescription
  {
    if f.companyName == "" || f.businessArea == "" then Some(RequiredMessage)
    else if f.description != "" && Utf16Length(f.description) > MaxDescription then Some(TooLongMessage)
    else None
  }

  /** A description of exactly 200 code units is accepted; one more is rejected. */
  lemma DescriptionBoundary(f: PartnerForm)
    requires f.companyName != "" && f.businessArea != ""
    ensures Utf16Length(f.description) == MaxDescription ==> Validate(f).None?
    ensures Utf16Length(f.description) == MaxDescription + 1 ==> Validate(f) == Some(TooLongMessage)
  {
  }

  /** `handleEdit`: null text becomes `""`. */
  function FormOf(p: Partner): PartnerForm
  {
    PartnerForm(p.companyName, OrEmpty(p.description), p.businessArea,
                OrEmpty(p.logoUrl), OrEmpty(p.websiteUrl), p.isActive)
  }

  /** `update(formData)`: every form field as it stands (`""` is stored, not null). */
  function Written(f: PartnerForm, p: Partner): (r: Partner)
    ensures r.companyName == f.companyName && r.businessArea == f.businessArea
    ensures r.description == Some(f.description) && r.createdAt == p.createdAt
  {
    Partner(f.companyName, Some(f.description), f.businessArea, Some(f.logoUrl),
            Some(f.websiteUrl), f.isActive, p.createdAt)
  }

  function Patch(f: PartnerForm): Partner -> Partner
  {
    (p: Partner) => Written(f, p)
  }

  lemma EditAfterSave(f: PartnerForm, p: Partner)
    ensures FormOf(Written(f, p)) == f
  {
  }

  // ----- the list filter -----

  /** The search box: an empty term matches everything, otherwise a case-insensitive `includes`. */
  predicate MatchesSearch(p: Row<Partner>, term: string)
  {
    term == "" || Text.Contains(Text.Lower(p.cols.companyName), Text.Lower(term))
  }

  /** The area select: `"all"` matches everything, otherwise the area must be equal. */
  predicate MatchesArea(p: Row<Partner>, area: string)
  {
    area == "all" || p.cols.businessArea == area
  }

  /** `filterPartners`: the search filter, then the area filter. */
  function FilterPartners(partners: seq<Row<Partner>>, term: string, area: string): (r: seq<Row<Partner>>)
    ensures forall p :: p in r <==> p in partners && MatchesSearch(p, term) && MatchesArea(p, area)
    ensures Seqs.IsSubsequence(r, partners)
  {
    var bySearch := if term != "" then Seqs.Filter(partners, (p: Row<Partner>) => MatchesSearch(p, term)) else partners;
    assert Seqs.IsSubsequence(bySearch, partners) by {
      if term != "" {
        Seqs.FilterIsSubsequence(partners, (p: Row<Partner>) => MatchesSearch(p, term));
      } else {
        Seqs.SubsequenceRefl(partners);
      }
    }
    var byArea := if area != "all" then Seqs.Filter(bySearch, (p: Row<Partner>) => MatchesArea(p, area)) else bySearch;
    assert Seqs.IsSubsequence(byArea, bySearch) by {
      if area != "all" {
        Seqs.FilterIsSubsequence(bySearch, (p: Row<Partner>) => MatchesArea(p, area));
      } else {
        Seqs.SubsequenceRefl(bySearch);
      }
    }
    Seqs.SubsequenceTrans(byArea, bySearch, partners);
    byArea
  }

  /** With no search term and every area, the whole list is shown. */
  lemma NoFilterShowsAll(partners: seq<Row<Partner>>)
    ensures FilterPartners(partners, "", "all") == partners
  {
  }

  class PartnersTab {
    var form: PartnerForm
    /** The partner being edited, or the one chosen for deletion. */
    var selected: Option<Row<Partner>>
    var dialogOpen: bool
    var deleteDialogOpen: bool
    var reloads: nat
    var toast: Option<Toast>

    constructor ()
      ensures form == EmptyForm && selected == None && !dialogOpen && !deleteDialogOpen
      ensures reloads == 0 && toast == None
    {
      form := EmptyForm;
      selected := None;
      dialogOpen := false;
      deleteDialogOpen := false;
      reloads := 0;
      toast := None;
    }

    /** `resetForm`. */
    method ResetForm()
      modifies this
      ensures form == EmptyForm && selected == None
      ensures dialogOpen == old(dialogOpen) && deleteDialogOpen == old(deleteDialogOpen)
      ensures reloads == old(reloads) && toast == old(toast)
    {
      form := EmptyForm;
      selected := None;
    }

    /** `handleEdit`. */
    method HandleEdit(partner: Row<Partner>)
      modifies this
      ensures form == FormOf(partner.cols) && selected == Some(partner) && dialogOpen
      ensures deleteDialogOpen == old(deleteDialogOpen) && reloads == old(reloads) && toast == old(toast)
    {
      selected := Some(partner);
      form := FormOf(partner.cols);
      dialogOpen := true;
    }

    /** A row's delete button: choose the partner and open the confirmation. */
    method SelectForDelete(partner: Row<Partner>)
      modifies this
      ensures selected == Some(partner) && deleteDialogOpen
      ensures form == old(form) && dialogOpen == old(dialogOpen) && reloads == old(reloads) && toast == old(toast)
    {
      selected := Some(partner);
      deleteDialogOpen := true;
    }

    /**
     * `handleSubmit`: a form that fails a check is reported and nothing is
     * sent; otherwise update the selected partner or insert a new one.
     */
    method HandleSubmit(partners: Table<Partner>, reply: Reply, newId: string, createdAt: string)
      modifies this, partners
      ensures Validate(old(form)).Some? ==>
        partners.rows == old(partners.rows) && partners.requests == old(partners.requests)
        && toast == Some(Error(Validate(old(form)).value, ""))
        && form == old(form) && selected == old(selected) && dialogOpen == old(dialogOpen) && reloads == old(reloads)
      ensures Validate(old(form)).None? && old(selected).Some? ==>
        partners.requests == old(partners.requests) + [Update(old(selected).value.id)]
        && (reply.Ok? ==> partners.rows == Patched(old(partners.rows), old(selected).value.id, Patch(old(form))))
      ensures Validate(old(form)).None? && old(selected).None? ==>
        partners.requests == old(partners.requests) + [Insert(1)]
        && (reply.Ok? ==> partners.rows == old(partners.rows) + [Row(newId, Written(old(form), Partner("", None, "", None, None, false, createdAt)))])
      ensures Validate(old(form)).None? && reply.Fail? ==>
        partners.rows == old(partners.rows) && toast == Some(Error("Erro ao salvar parceiro", ""))
        && form == old(form) && selected == old(selected) && dialogOpen == old(dialogOpen) && reloads == old(reloads)
      ensures Validate(old(form)).None? && reply.Ok? ==>
        toast == Some(Info(if old(selected).Some? then "Parceiro atualizado com sucesso!" else "Parceiro adicionado com sucesso!"))
        && form == EmptyForm && selected == None && !dialogOpen && reloads == old(reloads) + 1
      ensures deleteDialogOpen == old(deleteDialogOpen)
    {
      var invalid := Validate(form);
      if invalid.Some? {
        toast := Some(Error(invalid.value, ""));
        return;
      }
      if selected.Some? {
        partners.Change(selected.value.id, Patch(form), reply);
      } else {
        var row := Written(form, Partner("", None, "", None, None, false, createdAt));
        partners.Add([row], [newId], reply);
        assert Zip([newId], [row]) == [Row(newId, row)];
      }
      if reply.Ok? {
        toast := Some(Info(if selected.Some? then "Parceiro atualizado com sucesso!" else "Parceiro adicionado com sucesso!"));
        dialogOpen := false;
        ResetForm();
        reloads := reloads + 1;
      } else {
        toast := Some(Error("Erro ao salvar parceiro", ""));
      }
    }

    /** `handleDelete`: nothing without a chosen partner; otherwise delete it by identifier. */
    method HandleDelete(partners: Table<Partner>, reply: Reply)
      modifies this, partners
      ensures old(selected).None? ==>
        partners.rows == old(partners.rows) && partners.requests == old(partners.requests)
        && toast == old(toast) && deleteDialogOpen == old(deleteDialogOpen) && reloads == old(reloads)
      ensures old(selected).Some? ==> partners.requests == old(partners.requests) + [Delete]
      ensures old(selected).Some? && reply.Ok? ==>
        partners.rows == Matching(old(partners.rows), IdIsNot(old(selected).value.id))
        && toast == Some(Info("Parceiro excluído com sucesso!"))
        && !deleteDialogOpen && selected == None && reloads == old(reloads) + 1
      ensures old(selected).Some? && reply.Fail? ==>
        partners.rows == old(partners.rows) && toast == Some(Error("Erro ao excluir parceiro", ""))
        && deleteDialogOpen == old(deleteDialogOpen) && selected == old(selected) && reloads == old(reloads)
      ensures form == old(form) && dialogOpen == old(dialogOpen)
    {
      if selected.None? {
        return;
      }
      partners.Remove(IdIsNot(selected.value.id), reply);
      if reply.Ok? {
        toast := Some(Info("Parceiro excluído com sucesso!"));
        deleteDialogOpen := false;
        selected := None;
        reloads := reloads + 1;
      } else {
        toast := Some(Error("Erro ao excluir parceiro", ""));
      }
    }
  }
}
