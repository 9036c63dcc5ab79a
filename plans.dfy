/** Membership plans: the add step shared by the plan manager and the
    add-membership form, the delete step, and the plan manager's state. */
module Plans {
  import opened Common

  /** A plan: `caption` (the object's `label`), `value` (the number of months
      as typed) and `price`, `None` where the object has no price at all. */
  datatype Plan = Plan(caption: string, value: string, price: Option<string>)

  const MonthValues: seq<string> := ["1", "2", "3", "4", "6", "8", "10", "12"]

  /** The label a plan of `months` months gets. */
  function PlanLabel(months: string): string {
    months + " Month Plan"
  }

  /** The eight default plans, each with price `price`. */
  function DefaultPlans(price: Option<string>): (r: seq<Plan>)
    ensures |r| == 8
    ensures forall k :: 0 <= k < 8 ==> r[k] == Plan(PlanLabel(MonthValues[k]), MonthValues[k], price)
  {
    seq(8, k requires 0 <= k < 8 => Plan(PlanLabel(MonthValues[k]), MonthValues[k], price))
  }

  /** No two plans share a value. */
  predicate ValuesUnique(plans: seq<Plan>) {
    forall i, j :: 0 <= i < j < |plans| ==> plans[i].value != plans[j].value
  }

  predicate HasValue(plans: seq<Plan>, v: string) {
    exists k :: 0 <= k < |plans| && plans[k].value == v
  }

  /** The default values 1, 2, 3, 4, 6, 8, 10 and 12 are distinct. */
  lemma DefaultsUnique(price: Option<string>)
    ensures ValuesUnique(DefaultPlans(price))
    ensures forall k :: 0 <= k < 8 ==> DefaultPlans(price)[k].value == MonthValues[k]
  {
    var d := DefaultPlans(price);
    forall i, j | 0 <= i < j < 8 ensures d[i].value != d[j].value {
      assert d[i].value == MonthValues[i] && d[j].value == MonthValues[j];
      assert MonthValues[i] != MonthValues[j] by {
        assert |MonthValues[i]| != |MonthValues[j]| || MonthValues[i][0] != MonthValues[j][0] ||
          MonthValues[i][|MonthValues[i]| - 1] != MonthValues[j][|MonthValues[j]| - 1];
      }
    }
  }

  const EnterMonthsAndPrice: string := "Enter months and price."
  const PlanExists: string := "Plan for this month already exists."

  /** `handleAddPlan`'s checks and new list: empty inputs first, then a value
      already in the list, then one plan appended. */
  function AddPlanStep(plans: seq<Plan>, months: string, price: string): Result<seq<Plan>, string> {
    if months == "" || price == "" then Failure(EnterMonthsAndPrice)
    else if HasValue(plans, months) then Failure(PlanExists)
    else Success(plans + [Plan(PlanLabel(months), months, Some(price))])
  }

  /** Empty inputs and duplicates are rejected with their own messages; a
      successful add appends exactly one plan with the given value and price,
      and keeps the values unique. */
  lemma AddPlanSpec(plans: seq<Plan>, months: string, price: string)
    ensures (months == "" || price == "") ==> AddPlanStep(plans, months, price) == Failure(EnterMonthsAndPrice)
    ensures months != "" && price != "" && HasValue(plans, months) ==> AddPlanStep(plans, months, price) == Failure(PlanExists)
    ensures AddPlanStep(plans, months, price).Success? <==> months != "" && price != "" && !HasValue(plans, months)
    ensures AddPlanStep(plans, months, price).Success? ==>
      var r := AddPlanStep(plans, months, price).value;
      |r| == |plans| + 1 && r[..|plans|] == plans && r[|plans|] == Plan(PlanLabel(months), months, Some(price))
    ensures ValuesUnique(plans) && AddPlanStep(plans, months, price).Success? ==> ValuesUnique(AddPlanStep(plans, months, price).value)
  {
    if months != "" && price != "" && !HasValue(plans, months) {
      var r := plans + [Plan(PlanLabel(months), months, Some(price))];
      assert r[..|plans|] == plans;
      if ValuesUnique(plans) {
        forall i, j | 0 <= i < j < |r| ensures r[i].value != r[j].value {
          if j == |plans| {
            assert r[i] == plans[i];
          } else {
            assert r[i] == plans[i] && r[j] == plans[j];
          }
        }
      }
    }
  }

  predicate ValueIsNot(v: string, p: Plan) {
    p.value != v
  }

  function OtherThan(v: string): Plan -> bool {
    p => ValueIsNot(v, p)
  }

  /** `handleDeletePlan(value)`: the plans with another value, in order. */
  function DeletePlanStep(plans: seq<Plan>, v: string): seq<Plan> {
    Filter(plans, OtherThan(v))
  }

  /** Delete removes every plan with that value and keeps the others in
      order; deleting an absent value changes nothing; values stay unique. */
  lemma DeletePlanSpec(plans: seq<Plan>, v: string)
    ensures IsSubsequence(DeletePlanStep(plans, v), plans)
    ensures !HasValue(DeletePlanStep(plans, v), v)
    ensures forall p :: p in plans && p.value != v ==> p in DeletePlanStep(plans, v)
    ensures !HasValue(plans, v) ==> DeletePlanStep(plans, v) == plans
    ensures ValuesUnique(plans) ==> ValuesUnique(DeletePlanStep(plans, v))
  {
    FilterIsSubsequence(plans, OtherThan(v));
    FilterMembers(plans, OtherThan(v));
    if !HasValue(plans, v) {
      FilterAll(plans, OtherThan(v));
    }
    if ValuesUnique(plans) {
      SubsequenceKeepsUnique(DeletePlanStep(plans, v), plans);
    }
  }

  lemma {:induction false} SubsequenceKeepsUnique(r: seq<Plan>, s: seq<Plan>)
    requires IsSubsequence(r, s) && ValuesUnique(s)
    ensures ValuesUnique(r)
    decreases |s|
  {
    if r != [] && s != [] {
      assert ValuesUnique(s[1..]) by {
        forall i, j | 0 <= i < j < |s[1..]| ensures s[1..][i].value != s[1..][j].value {
          assert s[1..][i] == s[i + 1] && s[1..][j] == s[j + 1];
        }
      }
      if r[0] == s[0] {
        SubsequenceKeepsUnique(r[1..], s[1..]);
        SubsequenceMembers(r[1..], s[1..]);
        forall i, j | 0 <= i < j < |r| ensures r[i].value != r[j].value {
          if i == 0 {
            assert r[j] == r[1..][j - 1];
            assert r[j] in s[1..];
            var k :| 0 <= k < |s[1..]| && s[1..][k] == r[j];
            assert s[k + 1] == r[j];
          } else {
            assert r[i] == r[1..][i - 1] && r[j] == r[1..][j - 1];
          }
        }
      } else {
        SubsequenceKeepsUnique(r, s[1..]);
      }
    }
  }

  lemma {:induction false} SubsequenceMembers<T>(r: seq<T>, s: seq<T>)
    requires IsSubsequence(r, s)
    ensures forall x :: x in r ==> x in s
    decreases |s|
  {
    if r != [] && s != [] {
      if r[0] == s[0] {
        SubsequenceMembers(r[1..], s[1..]);
        forall x | x in r ensures x in s {
          if x != r[0] {
            assert x in r[1..];
          }
        }
      } else {
        SubsequenceMembers(r, s[1..]);
      }
    }
  }

  /** The plan manager: its list, the two inputs and the error line. */
  class MembershipManager {
    var plans: seq<Plan>
    var newPlanMonths: string
    var newPlanPrice: string
    var planError: string

    ghost predicate Valid()
      reads this
    {
      ValuesUnique(plans)
    }

    /** The eight default plans with an empty price. */
    constructor ()
      ensures Valid()
      ensures plans == DefaultPlans(Some(""))
      ensures newPlanMonths == "" && newPlanPrice == "" && planError == ""
    {
      plans := DefaultPlans(Some(""));
      newPlanMonths := "";
      newPlanPrice := "";
      planError := "";
      DefaultsUnique(Some(""));
    }

    method SetMonths(v: string)
      modifies this
      ensures newPlanMonths == v
      ensures plans == old(plans) && newPlanPrice == old(newPlanPrice) && planError == old(planError)
    {
      newPlanMonths := v;
    }

    method SetPrice(v: string)
      modifies this
      ensures newPlanPrice == v
      ensures plans == old(plans) && newPlanMonths == old(newPlanMonths) && planError == old(planError)
    {
      newPlanPrice := v;
    }

    /** `handleAddPlan`: a rejection sets its message and keeps the list and
        the inputs; a success appends the plan and clears the error and both
        inputs. */
    method AddPlan()
      requires Valid()
      modifies this
      ensures Valid()
      ensures AddPlanStep(old(plans), old(newPlanMonths), old(newPlanPrice)).Failure? ==>
        planError == AddPlanStep(old(plans), old(newPlanMonths), old(newPlanPrice)).error &&
        plans == old(plans) && newPlanMonths == old(newPlanMonths) && newPlanPrice == old(newPlanPrice)
      ensures AddPlanStep(old(plans), old(newPlanMonths), old(newPlanPrice)).Success? ==>
        plans == AddPlanStep(old(plans), old(newPlanMonths), old(newPlanPrice)).value &&
        planError == "" && newPlanMonths == "" && newPlanPrice == ""
    {
      var r := AddPlanStep(plans, newPlanMonths, newPlanPrice);
      AddPlanSpec(plans, newPlanMonths, newPlanPrice);
      if r.Failure? {
        planError := r.error;
        return;
      }
      plans := r.value;
      planError := "";
      newPlanMonths := "";
      newPlanPrice := "";
    }

    /** `handleDeletePlan(value)`. */
    method DeletePlan(v: string)
      requires Valid()
      modifies this
      ensures Valid()
      ensures plans == DeletePlanStep(old(plans), v)
      ensures newPlanMonths == old(newPlanMonths) && newPlanPrice == old(newPlanPrice) && planError == old(planError)
    {
      DeletePlanSpec(plans, v);
      plans := DeletePlanStep(plans, v);
    }
  }
}
