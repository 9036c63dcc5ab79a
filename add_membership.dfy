/** The add-membership form: field edits, its own plan list, the price taken
    from the selected plan, and submit. */
module AddMembership {
  import opened Common
  import opened Plans

  /** The form's fields. */
  datatype Form = Form(name: string, phone: string, startDate: string, endDate: string, plan: string, price: string, picture: string)

  const BlankForm: Form := Form("", "", "", "", "", "", "")

  /** The inputs a change can come from (`e.target.name`). */
  datatype FieldName = NameField | PhoneField | StartDateField | EndDateField | PlanField | PriceField | PictureField

  /** `{ ...form, [name]: value }`. */
  function SetField(f: Form, field: FieldName, value: string): (r: Form)
    ensures field == NameField ==> r == f.(name := value)
    ensures field == PhoneField ==> r == f.(phone := value)
    ensures field == StartDateField ==> r == f.(startDate := value)
    ensures field == EndDateField ==> r == f.(endDate := value)
    ensures field == PlanField ==> r == f.(plan := value)
    ensures field == PriceField ==> r == f.(price := value)
    ensures field == PictureField ==> r == f.(picture := value)
  {
    match field
    case NameField => f.(name := value)
    case PhoneField => f.(phone := value)
    case StartDateField => f.(startDate := value)
    case EndDateField => f.(endDate := value)
    case PlanField => f.(plan := value)
    case PriceField => f.(price := value)
    case PictureField => f.(picture := value)
  }

  /** `plans.find(p => p.value === v)`: the first plan with that value. */
  function FindPlan(plans: seq<Plan>, v: string): (r: Option<Plan>)
    ensures r.Some? ==> r.value in plans && r.value.value == v
    ensures r.Some? ==> exists k :: 0 <= k < |plans| && plans[k] == r.value && forall j :: 0 <= j < k ==> plans[j].value != v
    ensures r.None? <==> !HasValue(plans, v)
  {
    if plans == [] then None
    else if plans[0].value == v then Some(plans[0])
    else
      var r := FindPlan(plans[1..], v);
      assert r.Some? ==> exists k :: 0 <= k < |plans| && plans[k] == r.value && forall j :: 0 <= j < k ==> plans[j].value != v by {
        if r.Some? {
          var k :| 0 <= k < |plans[1..]| && plans[1..][k] == r.value && forall j :: 0 <= j < k ==> plans[1..][j].value != v;
          assert plans[k + 1] == r.value;
          forall j | 0 <= j < k + 1 ensures plans[j].value != v {
            if j > 0 {
              assert plans[j] == plans[1..][j - 1];
            }
          }
        }
      }
      assert HasValue(plans, v) <==> HasValue(plans[1..], v) by {
        if HasValue(plans, v) {
          var k :| 0 <= k < |plans| && plans[k].value == v;
          assert k > 0 && plans[1..][k - 1] == plans[k];
        }
        if HasValue(plans[1..], v) {
          var k :| 0 <= k < |plans[1..]| && plans[1..][k].value == v;
          assert plans[k + 1] == plans[1..][k];
        }
      }
      r
  }

  /** The plan→price effect: when the selected plan has a non-empty price,
      it is copied into the form; otherwise the form is untouched. */
  function WithPlanPrice(f: Form, plans: seq<Plan>): (r: Form)
    ensures r.(price := f.price) == f
    ensures r.price != f.price ==> exists p :: p in plans && p.value == f.plan && p.price == Some(r.price) && r.price != ""
  {
    match FindPlan(plans, f.plan)
    case Some(p) =>
      if p.price.Some? && p.price.value != "" then f.(price := p.price.value) else f
    case None => f
  }

  /** With plan values unique, selecting a plan that has a non-empty price
      puts exactly that price in the form, and selecting any other value
      leaves the form as it was. */
  lemma WithPlanPriceCopies(f: Form, plans: seq<Plan>)
    requires ValuesUnique(plans)
    ensures forall p :: p in plans && p.value == f.plan && p.price.Some? && p.price.value != "" ==>
      WithPlanPrice(f, plans) == f.(price := p.price.value)
    ensures (forall p :: p in plans && p.value == f.plan ==> p.price.None? || p.price.value == "") ==>
      WithPlanPrice(f, plans) == f
  {
    forall p | p in plans && p.value == f.plan && p.price.Some? && p.price.value != ""
      ensures WithPlanPrice(f, plans) == f.(price := p.price.value)
    {
      var i :| 0 <= i < |plans| && plans[i] == p;
      assert HasValue(plans, f.plan);
      var q := FindPlan(plans, f.plan).value;
      var k :| 0 <= k < |plans| && plans[k] == q && forall j :: 0 <= j < k ==> plans[j].value != f.plan;
      assert i == k;
    }
  }

  /** The form's default plans carry no price, so selecting one of them
      never changes the price. */
  lemma DefaultPlanKeepsPrice(f: Form)
    ensures WithPlanPrice(f, DefaultPlans(None)) == f
  {
    var d := DefaultPlans(None);
    match FindPlan(d, f.plan)
    case Some(p) =>
      var k :| 0 <= k < |d| && d[k] == p;
      assert p.price.None?;
    case None =>
  }

  const FillAllFields: string := "Please fill all fields."

  predicate Complete(f: Form) {
    f.name != "" && f.phone != "" && f.startDate != "" && f.endDate != "" && f.plan != "" && f.price != ""
  }

  /** The callbacks submit invokes, in order. */
  datatype Call = OnAdd(form: Form) | OnClose

  class AddMembershipForm {
    var form: Form
    var plans: seq<Plan>
    var newPlanMonths: string
    var newPlanPrice: string
    var error: string
    var planError: string

    ghost predicate Valid()
      reads this
    {
      ValuesUnique(plans)
    }

    constructor ()
      ensures Valid()
      ensures form == BlankForm && plans == DefaultPlans(None)
      ensures newPlanMonths == "" && newPlanPrice == "" && error == "" && planError == ""
    {
      form := BlankForm;
      plans := DefaultPlans(None);
      newPlanMonths := "";
      newPlanPrice := "";
      error := "";
      planError := "";
      DefaultsUnique(None);
    }

    /** `handleChange` for an input without a file: the field is set, the
        error cleared; when the selected plan changed, the effect then copies
        that plan's price. */
    method Change(field: FieldName, value: string)
      modifies this
      ensures var edited := SetField(old(form), field, value);
        form == if edited.plan != old(form).plan then WithPlanPrice(edited, plans) else edited
      ensures error == "" && plans == old(plans)
      ensures newPlanMonths == old(newPlanMonths) && newPlanPrice == old(newPlanPrice) && planError == old(planError)
    {
      var f := SetField(form, field, value);
      if f.plan != form.plan {
        f := WithPlanPrice(f, plans);
      }
      form := f;
      error := "";
    }

    method SetMonths(v: string)
      modifies this
      ensures newPlanMonths == v
      ensures form == old(form) && plans == old(plans) && newPlanPrice == old(newPlanPrice)
      ensures error == old(error) && planError == old(planError)
    {
      newPlanMonths := v;
    }

    method SetPrice(v: string)
      modifies this
      ensures newPlanPrice == v
      ensures form == old(form) && plans == old(plans) && newPlanMonths == old(newPlanMonths)
      ensures error == old(error) && planError == old(planError)
    {
      newPlanPrice := v;
    }

    /** `handleAddPlan`, the same step as the plan manager's; a new list
        re-runs the price effect for the selected plan. */
    method AddPlan()
      requires Valid()
      modifies this
      ensures Valid()
      ensures AddPlanStep(old(plans), old(newPlanMonths), old(newPlanPrice)).Failure? ==>
        planError == AddPlanStep(old(plans), old(newPlanMonths), old(newPlanPrice)).error &&
        plans == old(plans) && form == old(form) &&
        newPlanMonths == old(newPlanMonths) && newPlanPrice == old(newPlanPrice)
      ensures AddPlanStep(old(plans), old(newPlanMonths), old(newPlanPrice)).Success? ==>
        plans == AddPlanStep(old(plans), old(newPlanMonths), old(newPlanPrice)).value &&
        form == WithPlanPrice(old(form), plans) &&
        planError == "" && newPlanMonths == "" && newPlanPrice == ""
      ensures error == old(error)
    {
      var r := AddPlanStep(plans, newPlanMonths, newPlanPrice);
      AddPlanSpec(plans, newPlanMonths, newPlanPrice);
      if r.Failure? {
        planError := r.error;
        return;
      }
      plans := r.value;
      form := WithPlanPrice(form, plans);
      planError := "";
      newPlanMonths := "";
      newPlanPrice := "";
    }

    /** `handleSubmit`: an incomplete form sets the message and calls
        nothing; a complete one calls `onAdd(form)` and then `onClose`. The
        form itself is kept either way. */
    method Submit() returns (calls: seq<Call>)
      modifies this
      ensures !Complete(old(form)) ==> calls == [] && error == FillAllFields
      ensures Complete(old(form)) ==> calls == [OnAdd(old(form)), OnClose] && error == old(error)
      ensures form == old(form) && plans == old(plans)
      ensures newPlanMonths == old(newPlanMonths) && newPlanPrice == old(newPlanPrice) && planError == old(planError)
    {
      if !Complete(form) {
        error := FillAllFields;
        return [];
      }
      calls := [OnAdd(form), OnClose];
    }
  }
}
