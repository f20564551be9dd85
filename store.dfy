/** The ledger itself: the expenses, the next id to hand out and the monthly
    budgets, changed in place by add, update, delete and set-budget.  Each
    operation checks its arguments first and changes nothing when a check
    fails, as the source writes the ledger back only after every check. */
module Store {
  import opened Values
  import opened Queries

  /** Ids strictly increase along the ledger (so no two expenses share one). */
  predicate IdsIncreasing(s: seq<Expense>)
  {
    forall i, j :: 0 <= i < j < |s| ==> s[i].id < s[j].id
  }

  /** `expenses.find(e => e.id === parseInt(id))`: the position of the first
      expense carrying the id, if any. */
  function IndexOfId(s: seq<Expense>, id: Arg<int>): (r: Option<nat>)
    ensures r.Some? ==> r.value < |s| && HasId(s[r.value], id)
    ensures r.Some? ==> forall j :: 0 <= j < r.value ==> !HasId(s[j], id)
    ensures r.None? ==> forall j :: 0 <= j < |s| ==> !HasId(s[j], id)
  {
    if s == [] then None
    else if HasId(s[0], id) then Some(0)
    else
      match IndexOfId(s[1..], id)
      case None => None
      case Some(k) => Some(k + 1)
  }

  function Without(id: Arg<int>): Expense -> bool
  {
    (e: Expense) => !HasId(e, id)
  }

  lemma {:induction false} WhereKeepsAll(s: seq<Expense>, keep: Expense -> bool)
    requires forall i :: 0 <= i < |s| ==> keep(s[i])
    ensures Where(s, keep) == s
  {
    if s != [] {
      var n := |s| - 1;
      WhereKeepsAll(s[..n], keep);
      assert s == s[..n] + [s[n]];
    }
  }

  /** Filtering drops exactly the one element it does not keep. */
  lemma WhereDropsOne(a: seq<Expense>, x: Expense, b: seq<Expense>, keep: Expense -> bool)
    requires forall i :: 0 <= i < |a| ==> keep(a[i])
    requires !keep(x)
    requires forall i :: 0 <= i < |b| ==> keep(b[i])
    ensures Where(a + [x] + b, keep) == a + b
  {
    var ax := a + [x];
    WhereKeepsAll(a, keep);
    WhereKeepsAll(b, keep);
    assert ax[..|a|] == a && ax[|a|] == x;
    assert Where(ax, keep) == a;
    WhereConcat(ax, b, keep);
  }

  /** Filtering out the id found at `k` drops position `k` and keeps the rest. */
  lemma RemoveAt(s: seq<Expense>, id: Arg<int>, k: nat)
    requires IdsIncreasing(s)
    requires IndexOfId(s, id) == Some(k)
    ensures Where(s, Without(id)) == s[..k] + s[k + 1..]
  {
    var keep := Without(id);
    var front, back := s[..k], s[k + 1..];
    forall i | 0 <= i < |front| ensures keep(front[i]) {
      assert front[i] == s[i];
    }
    forall i | 0 <= i < |back| ensures keep(back[i]) {
      assert back[i] == s[k + 1 + i];
    }
    assert s == front + [s[k]] + back;
    WhereDropsOne(front, s[k], back, keep);
  }

  /** `filter(e => e.id !== id)` on a ledger whose ids increase removes
      exactly the one expense carrying the id, or nothing when none does. */
  lemma RemoveById(s: seq<Expense>, id: Arg<int>)
    requires IdsIncreasing(s)
    ensures IndexOfId(s, id).None? ==> Where(s, Without(id)) == s
    ensures IndexOfId(s, id).Some? ==>
      var k := IndexOfId(s, id).value;
      Where(s, Without(id)) == s[..k] + s[k + 1..]
  {
    match IndexOfId(s, id)
    case None =>
      WhereKeepsAll(s, Without(id));
    case Some(k) =>
      RemoveAt(s, id, k);
  }

  /** `updateExpense`'s field overwrites: only a non-empty description, a
      given amount or a non-empty category replace the old value. */
  function Patch(e: Expense, description: string, amount: Option<real>, category: string): Expense
  {
    Expense(e.id, e.date,
            if description != "" then description else e.description,
            if amount.Some? then amount.value else e.amount,
            if category != "" then category else e.category)
  }

  /** Ids increase, every id was issued and every expense is well formed. */
  ghost predicate ValidEntries(s: seq<Expense>, issued: set<nat>)
  {
    && IdsIncreasing(s)
    && forall i :: 0 <= i < |s| ==> s[i].id in issued && WellFormed(s[i])
  }

  lemma AppendKeepsEntries(s: seq<Expense>, issued: set<nat>, e: Expense)
    requires ValidEntries(s, issued) && WellFormed(e)
    requires forall i :: 0 <= i < |s| ==> s[i].id < e.id
    ensures ValidEntries(s + [e], issued + {e.id})
  {
  }

  lemma RemoveKeepsEntries(s: seq<Expense>, issued: set<nat>, k: nat)
    requires ValidEntries(s, issued) && k < |s|
    ensures ValidEntries(s[..k] + s[k + 1..], issued)
  {
    var r := s[..k] + s[k + 1..];
    assert forall i :: 0 <= i < |r| ==> r[i] == if i < k then s[i] else s[i + 1];
  }

  lemma ReplaceKeepsEntries(s: seq<Expense>, issued: set<nat>, k: nat, e: Expense)
    requires ValidEntries(s, issued) && k < |s|
    requires e.id == s[k].id && WellFormed(e)
    ensures ValidEntries(s[k := e], issued)
  {
  }

  class Ledger {
    var expenses: seq<Expense>
    var nextId: nat
    var budgets: map<(int, int), real>
    /** Every id the ledger has ever handed out, deleted ones included. */
    ghost var issued: set<nat>

    /** The invariant every operation keeps: ids are increasing, were issued
        and lie below `nextId`; expenses and budgets are well formed. */
    ghost predicate Valid()
      reads this
    {
      && nextId >= 1
      && ValidEntries(expenses, issued)
      && (forall id :: id in issued ==> 1 <= id < nextId)
      && (forall key :: key in budgets ==> budgets[key] > 0.0)
    }

    /** `initializeDataFile`: no expenses, next id 1, no budgets. */
    constructor ()
      ensures Valid()
      ensures expenses == [] && nextId == 1 && budgets == map[] && issued == {}
    {
      expenses, nextId, budgets := [], 1, map[];
      issued := {};
    }

    /** `addExpense`: appends an expense with the next id, today's date and
        the category (or "Uncategorized"), then checks this month's budget. */
    method Add(description: string, amount: Arg<real>, category: string, today: Date)
      returns (r: Result<Expense, Error>, warning: Option<Warning>)
      requires Valid()
      modifies this
      ensures Valid()
      ensures r.Ok? <==> description != "" && PositiveAmount(amount).Some?
      ensures description == "" || amount.Missing? ==> r == Err(MissingField)
      ensures description != "" && !amount.Missing? && PositiveAmount(amount).None? ==> r == Err(NonPositiveAmount)
      ensures r.Err? ==> unchanged(this) && warning.None?
      ensures r.Ok? ==>
        && r.value == Expense(old(nextId), today, description, amount.value,
                              if category == "" then Uncategorized else category)
        && expenses == old(expenses) + [r.value]
        && nextId == old(nextId) + 1
        && budgets == old(budgets)
      ensures r.Ok? ==> r.value.id !in old(issued) && issued == old(issued) + {r.value.id}
      ensures r.Ok? ==> forall e :: e in old(expenses) ==> e.id < r.value.id
      ensures r.Ok? ==> warning == CheckBudget(expenses, budgets, today, Some(today.month))
    {
      if description == "" || amount.Missing? {
        return Err(MissingField), None;
      }
      if PositiveAmount(amount).None? {
        return Err(NonPositiveAmount), None;
      }
      var e := Expense(nextId, today, description, amount.value,
                       if category == "" then Uncategorized else category);
      AppendKeepsEntries(expenses, issued, e);
      expenses := expenses + [e];
      issued := issued + {nextId};
      nextId := nextId + 1;
      r := Ok(e);
      warning := CheckBudget(expenses, budgets, today, Some(today.month));
    }

    /** `updateExpense`: overwrites the given fields of the expense with the
        id; an unknown id or a given amount that is not positive is an error. */
    method Update(id: Arg<int>, description: string, amount: Arg<real>, category: string)
      returns (r: Result<Expense, Error>)
      requires Valid()
      modifies this
      ensures Valid()
      ensures r.Ok? <==> IndexOfId(old(expenses), id).Some? && (amount.Missing? || PositiveAmount(amount).Some?)
      ensures IndexOfId(old(expenses), id).None? ==> r == Err(NotFound(id))
      ensures IndexOfId(old(expenses), id).Some? && !amount.Missing? && PositiveAmount(amount).None? ==>
        r == Err(NonPositiveAmount)
      ensures r.Err? ==> unchanged(this)
      ensures r.Ok? ==>
        var k := IndexOfId(old(expenses), id).value;
        var e := old(expenses)[k];
        && IndexOfId(old(expenses), id).Some?
        && r.value == Patch(e, description, PositiveAmount(amount), category)
        && expenses == old(expenses)[k := r.value]
      ensures r.Ok? ==> nextId == old(nextId) && budgets == old(budgets) && issued == old(issued)
      ensures r.Ok? && description == "" && amount.Missing? && category == "" ==> expenses == old(expenses)
    {
      var found := IndexOfId(expenses, id);
      if found.None? {
        return Err(NotFound(id));
      }
      var k := found.value;
      if !amount.Missing? && PositiveAmount(amount).None? {
        return Err(NonPositiveAmount);
      }
      var e := Patch(expenses[k], description, PositiveAmount(amount), category);
      ReplaceKeepsEntries(expenses, issued, k, e);
      expenses := expenses[k := e];
      r := Ok(e);
    }

    /** `deleteExpense`: removes the expense with the id; not found exactly
        when the filter removes nothing.  `nextId` is left alone, so the id
        is never handed out again. */
    method Delete(id: Arg<int>) returns (r: Outcome<Error>)
      requires Valid()
      modifies this
      ensures Valid()
      ensures r.Fail? <==> IndexOfId(old(expenses), id).None?
      ensures r.Fail? ==> r.error == NotFound(id) && unchanged(this)
      ensures r.Pass? ==>
        var k := IndexOfId(old(expenses), id).value;
        expenses == old(expenses)[..k] + old(expenses)[k + 1..]
      ensures nextId == old(nextId) && budgets == old(budgets) && issued == old(issued)
    {
      RemoveById(expenses, id);
      var kept := Where(expenses, Without(id));
      if |kept| == |expenses| {
        return Fail(NotFound(id));
      }
      RemoveKeepsEntries(expenses, issued, IndexOfId(expenses, id).value);
      expenses := kept;
      r := Pass;
    }

    /** `setBudget`: records the threshold for (current year, month), replacing
        any earlier one, then checks that month's budget. */
    method SetBudget(month: Arg<int>, amount: Arg<real>, today: Date)
      returns (r: Outcome<Error>, warning: Option<Warning>)
      requires Valid()
      modifies this
      ensures Valid()
      ensures r.Pass? <==> ValidMonth(month).Some? && PositiveAmount(amount).Some?
      ensures ValidMonth(month).None? ==> r == Fail(BadMonth)
      ensures ValidMonth(month).Some? && PositiveAmount(amount).None? ==> r == Fail(NonPositiveBudget)
      ensures r.Fail? ==> unchanged(this) && warning.None?
      ensures r.Pass? ==>
        && ValidMonth(month).Some? && PositiveAmount(amount).Some?
        && budgets == old(budgets)[(today.year as int, month.value) := amount.value]
        && expenses == old(expenses) && nextId == old(nextId) && issued == old(issued)
      ensures r.Pass? ==> warning == CheckBudget(expenses, budgets, today, Some(month.value))
      ensures r.Pass? ==> (warning.Some? <==> MonthTotal(expenses, today.year, month.value) > amount.value)
    {
      if ValidMonth(month).None? {
        return Fail(BadMonth), None;
      }
      if PositiveAmount(amount).None? {
        return Fail(NonPositiveBudget), None;
      }
      budgets := budgets[(today.year as int, month.value) := amount.value];
      r := Pass;
      warning := CheckBudget(expenses, budgets, today, Some(month.value));
    }
  }

  /** An expense under the month's budget raises no warning. */
  method UnderBudgetScenario()
  {
    var today := Date(2026, 8, 18);
    var ledger := new Ledger();
    var budgeted, w0 := ledger.SetBudget(Given(8), Given(100.0), today);
    assert budgeted == Pass && ledger.expenses == [];
    assert w0 == None;
    var lunch := Expense(1, today, "Lunch", 80.0, "Food");
    MonthTotalAppend([], lunch, 2026, 8);
    var first, w1 := ledger.Add("Lunch", Given(80.0), "Food", today);
    assert first == Ok(lunch) && ledger.expenses == [lunch];
    assert w1 == None;
  }

  /** A budget set below what the month already holds warns at once, with
      the month's total and the new threshold. */
  method OverBudgetScenario()
  {
    var today := Date(2026, 8, 18);
    var ledger := new Ledger();
    var dinner := Expense(1, today, "Dinner", 150.0, Uncategorized);
    MonthTotalAppend([], dinner, 2026, 8);
    var first, w1 := ledger.Add("Dinner", Given(150.0), "", today);
    assert first == Ok(dinner) && ledger.expenses == [dinner];
    assert w1 == None;
    var budgeted, w2 := ledger.SetBudget(Given(8), Given(100.0), today);
    assert budgeted == Pass;
    assert w2 == Some(Warning(150.0, 100.0));
  }

  /** A deleted id is gone for good: deleting it again is not found, and the
      next expense gets a fresh id. */
  method DeleteScenario()
  {
    var today := Date(2026, 8, 18);
    var ledger := new Ledger();
    var first, _ := ledger.Add("Lunch", Given(20.0), "", today);
    assert first == Ok(Expense(1, today, "Lunch", 20.0, Uncategorized));
    var gone := ledger.Delete(Given(1));
    assert gone == Pass && ledger.expenses == [];
    var again := ledger.Delete(Given(1));
    assert again == Fail(NotFound(Given(1)));
    var next, _ := ledger.Add("Coffee", Given(3.5), "Food", today);
    assert next.Ok? && next.value.id == 2;
  }
}
