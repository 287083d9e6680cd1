/**
 * The health plans tab of the admin area: the plan form, the list ordered
 * with private-pay plans first, and the switch that flips a plan's
 * `is_active`.
 */
module HealthPlansAdmin {
  import opened Wrappers
  import opened Backend
  import Seqs

  /** A stored `health_plans` row. */
  datatype HealthPlan = HealthPlan(name: string, isParticular: bool, isActive: bool)

  datatype PlanForm = PlanForm(name: string, isParticular: bool, isActive: bool)

  const EmptyForm := PlanForm("", false, true)

  /** `handleEdit`: the three fields copied unchanged. */
  function FormOf(h: HealthPlan): PlanForm
  {
    PlanForm(h.name, h.isParticular, h.isActive)
  }

  /** The payload of insert and update: exactly the three form fields. */
  function Written(f: PlanForm): HealthPlan
  {
    HealthPlan(f.name, f.isParticular, f.isActive)
  }

  function Patch(f: PlanForm): HealthPlan -> HealthPlan
  {
    (h: HealthPlan) => Written(f)
  }

  /** Form and row carry the same information: each round trip is the identity. */
  lemma FormRoundTrips(f: PlanForm, h: HealthPlan)
    ensures FormOf(Written(f)) == f
    ensures Written(FormOf(h)) == h
  {
  }

  /** The update `toggleActive` sends: `is_active` only. */
  function SetActive(value: bool): HealthPlan -> HealthPlan
  {
    (h: HealthPlan) => h.(isActive := value)
  }

  /** Flipping a plan and flipping it back (from the refreshed row) restores the table. */
  lemma ToggleTwice(rows: seq<Row<HealthPlan>>, plan: Row<HealthPlan>)
    requires forall r :: r in rows && r.id == plan.id ==> r.cols.isActive == plan.cols.isActive
    ensures Patched(Patched(rows, plan.id, SetActive(!plan.cols.isActive)), plan.id, SetActive(plan.cols.isActive)) == rows
  {
    var once := Patched(rows, plan.id, SetActive(!plan.cols.isActive));
    var twice := Patched(once, plan.id, SetActive(plan.cols.isActive));
    forall i | 0 <= i < |rows| ensures twice[i] == rows[i] {
      assert rows[i] in rows;
    }
  }

  /** `.order("is_particular", { ascending: false }).order("name")`. */
  predicate PlanLe(a: Row<HealthPlan>, b: Row<HealthPlan>)
  {
    (a.cols.isParticular && !b.cols.isParticular)
    || (a.cols.isParticular == b.cols.isParticular && Seqs.StrLe(a.cols.name, b.cols.name))
  }

  lemma PlanLeIsTotalPreorder()
    ensures Seqs.TotalPreorder(PlanLe)
  {
    forall a: Row<HealthPlan>, b: Row<HealthPlan> ensures PlanLe(a, b) || PlanLe(b, a) {
      Seqs.StrLeTotal(a.cols.name, b.cols.name);
    }
    forall a: Row<HealthPlan>, b: Row<HealthPlan>, c: Row<HealthPlan> | PlanLe(a, b) && PlanLe(b, c)
      ensures PlanLe(a, c)
    {
      if a.cols.isParticular == b.cols.isParticular == c.cols.isParticular {
        Seqs.StrLeTransitive(a.cols.name, b.cols.name, c.cols.name);
      }
    }
  }

  /** In a list in this order every private-pay plan comes before every other plan, and each group is in name order. */
  lemma OrderedListShape(plans: seq<Row<HealthPlan>>, i: int, j: int)
    requires Seqs.SortedBy(plans, PlanLe)
    requires 0 <= i < j < |plans|
    ensures plans[j].cols.isParticular ==> plans[i].cols.isParticular
    ensures plans[i].cols.isParticular == plans[j].cols.isParticular ==> Seqs.StrLe(plans[i].cols.name, plans[j].cols.name)
  {
    assert PlanLe(plans[i], plans[j]);
  }

  /** The select of `fetchHealthPlans` has no filter. */
  predicate AnyPlan(h: Row<HealthPlan>)
  {
    true
  }

  lemma AllPlansSelected(rows: seq<Row<HealthPlan>>)
    ensures Matching(rows, AnyPlan) == rows
  {
    Seqs.FilterKeepsAll(rows, AnyPlan);
  }

  /** The rows of the list, permuted into the requested order. */
  function Ordered(rows: seq<Row<HealthPlan>>): (r: seq<Row<HealthPlan>>)
    ensures multiset(r) == multiset(rows) && Seqs.SortedBy(r, PlanLe)
  {
    PlanLeIsTotalPreorder();
    Seqs.SortBySorted(rows, PlanLe);
    Seqs.SortBy(rows, PlanLe)
  }

  class HealthPlansTab {
    var plans: seq<Row<HealthPlan>>
    var loading: bool
    var form: PlanForm
    var editing: Option<Row<HealthPlan>>
    var dialogOpen: bool
    var saving: bool
    var toast: Option<Toast>

    constructor ()
      ensures plans == [] && loading && form == EmptyForm && editing == None
      ensures !dialogOpen && !saving && toast == None
    {
      plans := [];
      loading := true;
      form := EmptyForm;
      editing := None;
      dialogOpen := false;
      saving := false;
      toast := None;
    }

    /** `fetchHealthPlans`: on success the list is every plan, in the requested order. */
    method FetchHealthPlans(table: Table<HealthPlan>, reply: Reply)
      modifies this, table
      ensures table.rows == old(table.rows) && table.requests == old(table.requests) + [Select]
      ensures reply.Ok? ==> multiset(plans) == multiset(table.rows) && Seqs.SortedBy(plans, PlanLe)
      ensures reply.Ok? ==> toast == old(toast)
      ensures reply.Fail? ==> plans == old(plans) && toast == Some(Error("Erro ao carregar planos", reply.message))
      ensures !loading
      ensures form == old(form) && editing == old(editing) && dialogOpen == old(dialogOpen) && saving == old(saving)
    {
      AllPlansSelected(table.rows);
      var r := table.Query(AnyPlan, reply);
      if r.Success? {
        plans := Ordered(r.value);
      } else {
        toast := Some(Error("Erro ao carregar planos", r.error));
      }
      loading := false;
    }

    method ResetForm()
      modifies this
      ensures form == EmptyForm && editing == None
      ensures plans == old(plans) && loading == old(loading) && dialogOpen == old(dialogOpen)
      ensures saving == old(saving) && toast == old(toast)
    {
      form := EmptyForm;
      editing := None;
    }

    method HandleEdit(plan: Row<HealthPlan>)
      modifies this
      ensures form == FormOf(plan.cols) && editing == Some(plan) && dialogOpen
      ensures plans == old(plans) && loading == old(loading) && saving == old(saving) && toast == old(toast)
    {
      editing := Some(plan);
      form := FormOf(plan.cols);
      dialogOpen := true;
    }

    /** The first step of `handleSubmit`: the form shows that a save is in progress. */
    method StartSaving()
      modifies this
      ensures saving
      ensures plans == old(plans) && loading == old(loading) && form == old(form) && editing == old(editing)
      ensures dialogOpen == old(dialogOpen) && toast == old(toast)
    {
      saving := true;
    }

    /** The row write of the submit: update the edited plan, or insert the form as a new plan. */
    method WritePlan(table: Table<HealthPlan>, reply: Reply, newId: string)
      modifies table
      ensures editing.Some? ==> table.requests == old(table.requests) + [Update(editing.value.id)]
      ensures editing.Some? && reply.Ok? ==> table.rows == Patched(old(table.rows), editing.value.id, Patch(form))
      ensures editing.None? ==> table.requests == old(table.requests) + [Insert(1)]
      ensures editing.None? && reply.Ok? ==> table.rows == old(table.rows) + [Row(newId, Written(form))]
      ensures reply.Fail? ==> table.rows == old(table.rows)
    {
      if editing.Some? {
        table.Change(editing.value.id, Patch(form), reply);
      } else {
        table.Add([Written(form)], [newId], reply);
        assert Zip([newId], [Written(form)]) == [Row(newId, Written(form))];
      }
    }

    /**
     * `handleSubmit` after its first step: update the edited plan or insert a
     * new one; on success close the dialog, reset the form and reload the
     * list (with `listReply` as the reload's outcome).
     */
    method FinishSaving(table: Table<HealthPlan>, reply: Reply, newId: string, listReply: Reply)
      modifies this, table
      ensures old(editing).Some? && reply.Ok? ==>
        table.rows == Patched(old(table.rows), old(editing).value.id, Patch(old(form)))
        && table.requests == old(table.requests) + [Update(old(editing).value.id), Select]
      ensures old(editing).None? && reply.Ok? ==>
        table.rows == old(table.rows) + [Row(newId, Written(old(form)))]
        && table.requests == old(table.requests) + [Insert(1), Select]
      ensures reply.Ok? ==> form == EmptyForm && editing == None && !dialogOpen
      ensures reply.Ok? && listReply.Ok? ==> multiset(plans) == multiset(table.rows) && Seqs.SortedBy(plans, PlanLe)
      ensures reply.Ok? && listReply.Ok? ==>
        toast == Some(Info(if old(editing).Some? then "Plano atualizado" else "Plano adicionado"))
      ensures reply.Ok? && listReply.Fail? ==>
        plans == old(plans) && toast == Some(Error("Erro ao carregar planos", listReply.message))
      ensures reply.Fail? ==>
        table.rows == old(table.rows)
        && table.requests == old(table.requests) + [if old(editing).Some? then Update(old(editing).value.id) else Insert(1)]
      ensures reply.Fail? ==> form == old(form) && editing == old(editing) && dialogOpen == old(dialogOpen) && plans == old(plans)
      ensures reply.Fail? ==> toast == Some(Error("Erro ao salvar", reply.message))
      ensures !saving
    {
      WritePlan(table, reply, newId);
      if reply.Ok? {
        toast := Some(Info(if editing.Some? then "Plano atualizado" else "Plano adicionado"));
        dialogOpen := false;
        ResetForm();
        FetchHealthPlans(table, listReply);
      } else {
        toast := Some(Error("Erro ao salvar", reply.message));
      }
      saving := false;
    }

    /** `handleSubmit`. */
    method HandleSubmit(table: Table<HealthPlan>, reply: Reply, newId: string, listReply: Reply)
      modifies this, table
      ensures old(editing).Some? && reply.Ok? ==>
        table.rows == Patched(old(table.rows), old(editing).value.id, Patch(old(form)))
        && table.requests == old(table.requests) + [Update(old(editing).value.id), Select]
      ensures old(editing).None? && reply.Ok? ==>
        table.rows == old(table.rows) + [Row(newId, Written(old(form)))]
        && table.requests == old(table.requests) + [Insert(1), Select]
      ensures reply.Ok? ==> form == EmptyForm && editing == None && !dialogOpen
      ensures reply.Ok? && listReply.Ok? ==> multiset(plans) == multiset(table.rows) && Seqs.SortedBy(plans, PlanLe)
      ensures reply.Ok? && listReply.Ok? ==>
        toast == Some(Info(if old(editing).Some? then "Plano atualizado" else "Plano adicionado"))
      ensures reply.Ok? && listReply.Fail? ==>
        plans == old(plans) && toast == Some(Error("Erro ao carregar planos", listReply.message))
      ensures reply.Fail? ==>
        table.rows == old(table.rows)
        && table.requests == old(table.requests) + [if old(editing).Some? then Update(old(editing).value.id) else Insert(1)]
      ensures reply.Fail? ==> form == old(form) && editing == old(editing) && dialogOpen == old(dialogOpen) && plans == old(plans)
      ensures reply.Fail? ==> toast == Some(Error("Erro ao salvar", reply.message))
      ensures !saving
    {
      StartSaving();
      FinishSaving(table, reply, newId, listReply);
    }

    /**
     * `toggleActive`: writes `is_active := !plan.is_active` for that plan
     * only, from the value the list shows; on success the list is reloaded.
     */
    method ToggleActive(table: Table<HealthPlan>, plan: Row<HealthPlan>, reply: Reply, listReply: Reply)
      modifies this, table
      ensures table.rows == (if reply.Ok? then Patched(old(table.rows), plan.id, SetActive(!plan.cols.isActive)) else old(table.rows))
      ensures table.requests == old(table.requests) + [Update(plan.id)] + (if reply.Ok? then [Select] else [])
      ensures reply.Ok? && listReply.Ok? ==> multiset(plans) == multiset(table.rows) && Seqs.SortedBy(plans, PlanLe)
      ensures reply.Ok? && listReply.Ok? ==> toast == old(toast)
      ensures reply.Ok? && listReply.Fail? ==>
        plans == old(plans) && toast == Some(Error("Erro ao carregar planos", listReply.message))
      ensures reply.Ok? ==> !loading
      ensures reply.Fail? ==> plans == old(plans) && toast == Some(Error("Erro ao atualizar", reply.message))
      ensures reply.Fail? ==> loading == old(loading)
      ensures form == old(form) && editing == old(editing) && dialogOpen == old(dialogOpen) && saving == old(saving)
    {
      table.Change(plan.id, SetActive(!plan.cols.isActive), reply);
      if reply.Fail? {
        toast := Some(Error("Erro ao atualizar", reply.message));
      } else {
        FetchHealthPlans(table, listReply);
      }
    }
  }

  /** Toggling changes `is_active` of the rows with that identifier and nothing else. */
  lemma ToggleOnlyActive(rows: seq<Row<HealthPlan>>, plan: Row<HealthPlan>, i: int)
    requires 0 <= i < |rows|
    ensures var after := Patched(rows, plan.id, SetActive(!plan.cols.isActive));
      after[i].id == rows[i].id && after[i].cols.name == rows[i].cols.name
      && after[i].cols.isParticular == rows[i].cols.isParticular
      && after[i].cols.isActive == (if rows[i].id == plan.id then !plan.cols.isActive else rows[i].cols.isActive)
  {
  }
}
