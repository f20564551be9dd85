/** The read-only views of the ledger: listing by category, totals (all or
    one month), per-category totals, CSV text and the monthly budget check.
    Each takes the expenses (and budgets) as the ledger holds them. */
module Queries {
  import opened Values
  import opened Text

  // ---------------------------------------------------------------------
  // Selection and totals

  /** `filter`: the expenses that satisfy `keep`, in ledger order. */
  function Where(s: seq<Expense>, keep: Expense -> bool): (r: seq<Expense>)
    ensures |r| <= |s|
  {
    if s == [] then []
    else
      var n := |s| - 1;
      Where(s[..n], keep) + (if keep(s[n]) then [s[n]] else [])
  }

  /** `reduce((sum, e) => sum + e.amount, 0)`. */
  function Total(s: seq<Expense>): real
  {
    if s == [] then 0.0 else Total(s[..|s| - 1]) + s[|s| - 1].amount
  }

  predicate AllPositive(s: seq<Expense>)
  {
    forall i :: 0 <= i < |s| ==> s[i].amount > 0.0
  }

  /** Filtering a concatenation filters each part: the filter keeps order. */
  lemma {:induction false} WhereConcat(a: seq<Expense>, b: seq<Expense>, keep: Expense -> bool)
    ensures Where(a + b, keep) == Where(a, keep) + Where(b, keep)
  {
    if b != [] {
      var n := |b| - 1;
      assert (a + b)[..|a| + n] == a + b[..n];
      WhereConcat(a, b[..n], keep);
    } else {
      assert a + b == a;
    }
  }

  /** An expense is selected exactly when it is in `s` and kept. */
  lemma {:induction false} WhereMembers(s: seq<Expense>, keep: Expense -> bool)
    ensures forall e :: e in Where(s, keep) <==> e in s && keep(e)
  {
    if s != [] {
      var n := |s| - 1;
      WhereMembers(s[..n], keep);
      assert s == s[..n] + [s[n]];
    }
  }

  /** The positions of `s` whose expense is kept, in increasing order. */
  ghost function KeptPositions(s: seq<Expense>, keep: Expense -> bool): (r: seq<nat>)
    ensures |r| == |Where(s, keep)|
    ensures forall k :: 0 <= k < |r| ==> r[k] < |s|
  {
    if s == [] then []
    else
      var n := |s| - 1;
      KeptPositions(s[..n], keep) + (if keep(s[n]) then [n] else [])
  }

  lemma {:induction false} KeptPositionsSelect(s: seq<Expense>, keep: Expense -> bool)
    ensures forall k :: 0 <= k < |KeptPositions(s, keep)| ==>
      KeptPositions(s, keep)[k] < |s| && Where(s, keep)[k] == s[KeptPositions(s, keep)[k]]
  {
    if s != [] {
      var n := |s| - 1;
      var t := s[..n];
      KeptPositionsSelect(t, keep);
      var p, w := KeptPositions(t, keep), Where(t, keep);
      assert forall k :: 0 <= k < |p| ==> KeptPositions(s, keep)[k] == p[k] && Where(s, keep)[k] == w[k];
      assert forall k :: 0 <= k < |p| ==> p[k] < n && t[p[k]] == s[p[k]];
    }
  }

  lemma {:induction false} KeptPositionsIncrease(s: seq<Expense>, keep: Expense -> bool)
    ensures forall k, l :: 0 <= k < l < |KeptPositions(s, keep)| ==> KeptPositions(s, keep)[k] < KeptPositions(s, keep)[l]
  {
    if s != [] {
      KeptPositionsIncrease(s[..|s| - 1], keep);
    }
  }

  lemma {:induction false} KeptPositionsComplete(s: seq<Expense>, keep: Expense -> bool)
    ensures forall i :: 0 <= i < |s| && keep(s[i]) ==> i in KeptPositions(s, keep)
  {
    if s != [] {
      var n := |s| - 1;
      var t := s[..n];
      KeptPositionsComplete(t, keep);
      assert forall i :: 0 <= i < n ==> t[i] == s[i];
    }
  }

  lemma {:induction false} KeptPositionsKept(s: seq<Expense>, keep: Expense -> bool)
    ensures forall k :: 0 <= k < |KeptPositions(s, keep)| ==> keep(s[KeptPositions(s, keep)[k]])
  {
    if s != [] {
      var n := |s| - 1;
      var t := s[..n];
      KeptPositionsKept(t, keep);
      var p := KeptPositions(t, keep);
      assert forall k :: 0 <= k < |p| ==> KeptPositions(s, keep)[k] == p[k] && t[p[k]] == s[p[k]];
    }
  }

  /** The filter picks out exactly the positions whose expense is kept,
      in increasing order: it is the order-preserving subsequence. */
  lemma WhereIndices(s: seq<Expense>, keep: Expense -> bool) returns (idx: seq<nat>)
    ensures |idx| == |Where(s, keep)|
    ensures forall k :: 0 <= k < |idx| ==> idx[k] < |s| && Where(s, keep)[k] == s[idx[k]] && keep(s[idx[k]])
    ensures forall k, l :: 0 <= k < l < |idx| ==> idx[k] < idx[l]
    ensures forall i :: 0 <= i < |s| && keep(s[i]) ==> i in idx
  {
    idx := KeptPositions(s, keep);
    KeptPositionsSelect(s, keep);
    KeptPositionsIncrease(s, keep);
    KeptPositionsComplete(s, keep);
    KeptPositionsKept(s, keep);
  }

  /** The total of a concatenation is the sum of the totals. */
  lemma {:induction false} TotalConcat(a: seq<Expense>, b: seq<Expense>)
    ensures Total(a + b) == Total(a) + Total(b)
  {
    if b != [] {
      var n := |b| - 1;
      assert (a + b)[..|a| + n] == a + b[..n];
      TotalConcat(a, b[..n]);
    } else {
      assert a + b == a;
    }
  }

  function Negated(keep: Expense -> bool): Expense -> bool
  {
    (e: Expense) => !keep(e)
  }

  /** The kept and the dropped expenses together make up the whole total. */
  lemma {:induction false} TotalSplit(s: seq<Expense>, keep: Expense -> bool)
    ensures Total(Where(s, keep)) + Total(Where(s, Negated(keep))) == Total(s)
  {
    if s != [] {
      var n := |s| - 1;
      var t, e := s[..n], s[n];
      TotalSplit(t, keep);
      var kept, dropped := Where(t, keep), Where(t, Negated(keep));
      if keep(e) {
        assert Where(s, keep) == kept + [e];
        assert Where(s, Negated(keep)) == dropped;
        TotalConcat(kept, [e]);
      } else {
        assert Where(s, keep) == kept;
        assert Where(s, Negated(keep)) == dropped + [e];
        TotalConcat(dropped, [e]);
      }
      assert Total([e]) == e.amount;
    }
  }

  /** A filtered total grows by the new amount exactly when it is kept. */
  lemma WhereTotalAppend(s: seq<Expense>, e: Expense, keep: Expense -> bool)
    ensures Total(Where(s + [e], keep)) == Total(Where(s, keep)) + (if keep(e) then e.amount else 0.0)
  {
    assert (s + [e])[..|s|] == s;
    var w := Where(s, keep);
    if keep(e) {
      assert Where(s + [e], keep) == w + [e];
      assert (w + [e])[..|w|] == w;
    } else {
      assert Where(s + [e], keep) == w;
    }
  }

  lemma {:induction false} TotalPositive(s: seq<Expense>)
    requires AllPositive(s)
    ensures Total(s) >= 0.0
    ensures s != [] ==> Total(s) > 0.0
  {
    if s != [] {
      TotalPositive(s[..|s| - 1]);
    }
  }

  lemma {:induction false} WherePositive(s: seq<Expense>, keep: Expense -> bool)
    requires AllPositive(s)
    ensures AllPositive(Where(s, keep))
  {
    if s != [] {
      WherePositive(s[..|s| - 1], keep);
    }
  }

  /** With positive amounts, a filtered total lies between 0 and the total. */
  lemma WhereTotalBounded(s: seq<Expense>, keep: Expense -> bool)
    requires AllPositive(s)
    ensures 0.0 <= Total(Where(s, keep)) <= Total(s)
  {
    TotalSplit(s, keep);
    var kept, dropped := Where(s, keep), Where(s, Negated(keep));
    WherePositive(s, keep);
    WherePositive(s, Negated(keep));
    TotalPositive(kept);
    TotalPositive(dropped);
  }

  // ---------------------------------------------------------------------
  // listExpenses

  function InCategory(category: string): Expense -> bool
  {
    (e: Expense) => SameIgnoringCase(e.category, category)
  }

  /** The expenses `listExpenses` shows: all of them, or, when a category is
      given, those whose category equals it ignoring case, taken at
      increasing positions of the ledger, so in ledger order.  An empty
      result is a valid answer, not an error. */
  function ListExpenses(s: seq<Expense>, category: string): (r: seq<Expense>)
    ensures category == "" ==> r == s
    ensures forall e :: e in r <==> e in s && (category == "" || SameIgnoringCase(e.category, category))
    ensures category != "" ==>
      var idx := KeptPositions(s, InCategory(category));
      && |idx| == |r|
      && (forall k :: 0 <= k < |idx| ==> idx[k] < |s| && r[k] == s[idx[k]])
      && (forall k, l :: 0 <= k < l < |idx| ==> idx[k] < idx[l])
      && (forall i :: 0 <= i < |s| && SameIgnoringCase(s[i].category, category) ==> i in idx)
  {
    if category == "" then s
    else
      WhereMembers(s, InCategory(category));
      KeptPositionsSelect(s, InCategory(category));
      KeptPositionsIncrease(s, InCategory(category));
      KeptPositionsComplete(s, InCategory(category));
      Where(s, InCategory(category))
  }

  /** Listing by two categories that differ only in case gives the same
      expenses in the same order. */
  lemma {:induction false} ListIgnoresCase(s: seq<Expense>, a: string, b: string)
    requires a != "" && b != "" && SameIgnoringCase(a, b)
    ensures ListExpenses(s, a) == ListExpenses(s, b)
  {
    if s != [] {
      ListIgnoresCase(s[..|s| - 1], a, b);
    }
  }

  // ---------------------------------------------------------------------
  // showSummary and checkBudget

  function InMonth(year: int, month: int): Expense -> bool
  {
    (e: Expense) => e.date.year == year && e.date.month == month
  }

  /** The total of the expenses dated in the given month of the given year. */
  function MonthTotal(s: seq<Expense>, year: int, month: int): real
  {
    Total(Where(s, InMonth(year, month)))
  }

  /** `showSummary`: the total of every expense, or, when a month is given,
      of the expenses dated in that month of the current year.  A month that
      is not an integer in 1..12 is rejected. */
  function ShowSummary(s: seq<Expense>, month: Arg<int>, today: Date): (r: Result<real, Error>)
    ensures r.Err? <==> month != Missing && !(month.Given? && 1 <= month.value <= 12)
    ensures r.Err? ==> r.error == BadMonth
    ensures month.Missing? ==> r == Ok(Total(s))
    ensures month.Given? && 1 <= month.value <= 12 ==> r == Ok(MonthTotal(s, today.year, month.value))
    ensures s == [] ==> r.Ok? ==> r.value == 0.0
    ensures AllPositive(s) && r.Ok? ==> 0.0 <= r.value <= Total(s)
  {
    if month.Missing? then
      TotalPositiveIfAll(s);
      Ok(Total(s))
    else
      match ValidMonth(month)
      case None => Err(BadMonth)
      case Some(m) =>
        WhereTotalBoundedIfAll(s, InMonth(today.year, m));
        Ok(MonthTotal(s, today.year, m))
  }

  lemma TotalPositiveIfAll(s: seq<Expense>)
    ensures AllPositive(s) ==> Total(s) >= 0.0
  {
    if AllPositive(s) {
      TotalPositive(s);
    }
  }

  lemma WhereTotalBoundedIfAll(s: seq<Expense>, keep: Expense -> bool)
    ensures s == [] ==> Total(Where(s, keep)) == 0.0
    ensures AllPositive(s) ==> 0.0 <= Total(Where(s, keep)) <= Total(s)
  {
    if AllPositive(s) {
      WhereTotalBounded(s, keep);
    }
  }

  /** The month `checkBudget` looks at: the given one, or the current
      month when none (or a falsy 0) is given. */
  function BudgetMonth(month: Option<int>, today: Date): int
  {
    if month.None? || month.value == 0 then today.month else month.value
  }

  /** `checkBudget`: a warning exactly when a non-zero budget is set for
      (current year, month) and that month's total strictly exceeds it. */
  function CheckBudget(s: seq<Expense>, budgets: map<(int, int), real>, today: Date, month: Option<int>): (r: Option<Warning>)
    ensures r.Some? <==>
      var key := (today.year as int, BudgetMonth(month, today));
      key in budgets && budgets[key] != 0.0 && MonthTotal(s, key.0, key.1) > budgets[key]
    ensures r.Some? ==>
      r.value == Warning(MonthTotal(s, today.year, BudgetMonth(month, today)), budgets[(today.year as int, BudgetMonth(month, today))])
  {
    var m := BudgetMonth(month, today);
    var key := (today.year as int, m);
    if key !in budgets || budgets[key] == 0.0 then None
    else
      var total := MonthTotal(s, today.year, m);
      if total > budgets[key] then Some(Warning(total, budgets[key])) else None
  }

  /** A new expense adds its amount to its own month's total only. */
  lemma MonthTotalAppend(s: seq<Expense>, e: Expense, year: int, month: int)
    ensures MonthTotal(s + [e], year, month) ==
      MonthTotal(s, year, month) + (if e.date.year == year && e.date.month == month then e.amount else 0.0)
  {
    WhereTotalAppend(s, e, InMonth(year, month));
  }

  /** Adding an expense with a positive amount never takes a warning away. */
  lemma WarningPersists(s: seq<Expense>, e: Expense, budgets: map<(int, int), real>, today: Date, month: Option<int>)
    requires e.amount > 0.0
    requires CheckBudget(s, budgets, today, month).Some?
    ensures CheckBudget(s + [e], budgets, today, month).Some?
    ensures CheckBudget(s + [e], budgets, today, month).value.total >= CheckBudget(s, budgets, today, month).value.total
  {
    var keep := InMonth(today.year, BudgetMonth(month, today));
    WhereConcat(s, [e], keep);
    TotalConcat(Where(s, keep), Where([e], keep));
  }

  // ---------------------------------------------------------------------
  // showCategorySummary

  datatype CategoryReport = CategoryReport(categories: seq<string>, totals: map<string, real>, grandTotal: real)

  /** Some expense of `s` has category `c`. */
  predicate Mentions(s: seq<Expense>, c: string)
  {
    exists i :: 0 <= i < |s| && s[i].category == c
  }

  /** The categories of `s`, each once, in the order they first appear. */
  function FirstSeen(s: seq<Expense>): (r: seq<string>)
    ensures |r| <= |s|
    ensures s != [] ==> r != []
  {
    if s == [] then []
    else
      var n := |s| - 1;
      var prev := FirstSeen(s[..n]);
      if s[n].category in prev then prev else prev + [s[n].category]
  }

  /** One more expense adds its category at the end, unless already seen. */
  lemma FirstSeenSnoc(t: seq<Expense>, e: Expense)
    ensures FirstSeen(t + [e]) ==
      if e.category in FirstSeen(t) then FirstSeen(t) else FirstSeen(t) + [e.category]
  {
    assert (t + [e])[..|t|] == t;
  }

  /** A category is listed exactly when some expense has it. */
  lemma {:induction false} FirstSeenMentions(s: seq<Expense>, c: string)
    ensures c in FirstSeen(s) <==> Mentions(s, c)
  {
    if s != [] {
      var n := |s| - 1;
      var t := s[..n];
      FirstSeenMentions(t, c);
      assert s == t + [s[n]];
      if Mentions(s, c) && s[n].category != c {
        var i :| 0 <= i < |s| && s[i].category == c;
        assert t[i] == s[i];
      }
      if Mentions(t, c) {
        var i :| 0 <= i < |t| && t[i].category == c;
        assert s[i] == t[i];
      }
    }
  }

  /** No category is listed twice. */
  lemma {:induction false} FirstSeenDistinct(s: seq<Expense>)
    ensures forall i, j :: 0 <= i < j < |FirstSeen(s)| ==> FirstSeen(s)[i] != FirstSeen(s)[j]
  {
    if s != [] {
      FirstSeenDistinct(s[..|s| - 1]);
    }
  }

  /** Later expenses never reorder the categories already seen. */
  lemma {:induction false} FirstSeenPrefix(a: seq<Expense>, b: seq<Expense>)
    ensures |FirstSeen(a)| <= |FirstSeen(a + b)|
    ensures FirstSeen(a + b)[..|FirstSeen(a)|] == FirstSeen(a)
  {
    if b != [] {
      var n := |b| - 1;
      assert (a + b)[..|a| + n] == a + b[..n];
      FirstSeenPrefix(a, b[..n]);
    } else {
      assert a + b == a;
    }
  }

  /** The running total `showCategorySummary` keeps for `category`: the
      amounts of the expenses whose category is exactly that key. */
  function CategoryTotal(s: seq<Expense>, category: string): real
  {
    if s == [] then 0.0
    else
      var n := |s| - 1;
      CategoryTotal(s[..n], category) + (if s[n].category == category then s[n].amount else 0.0)
  }

  /** The sum of the category totals of `cats`, in order. */
  function SumOfTotals(cats: seq<string>, s: seq<Expense>): real
  {
    if cats == [] then 0.0 else SumOfTotals(cats[..|cats| - 1], s) + CategoryTotal(s, cats[|cats| - 1])
  }

  lemma SumOfTotalsSnoc(cats: seq<string>, c: string, s: seq<Expense>)
    ensures SumOfTotals(cats + [c], s) == SumOfTotals(cats, s) + CategoryTotal(s, c)
  {
    assert (cats + [c])[..|cats|] == cats;
  }

  lemma CategoryTotalAppend(s: seq<Expense>, e: Expense, c: string)
    ensures CategoryTotal(s + [e], c) == CategoryTotal(s, c) + (if e.category == c then e.amount else 0.0)
  {
    assert (s + [e])[..|s|] == s;
  }

  lemma TotalAppend(s: seq<Expense>, e: Expense)
    ensures Total(s + [e]) == Total(s) + e.amount
  {
    assert (s + [e])[..|s|] == s;
  }

  lemma {:induction false} SumOfTotalsAppend(cats: seq<string>, s: seq<Expense>, e: Expense)
    requires forall i, j :: 0 <= i < j < |cats| ==> cats[i] != cats[j]
    ensures SumOfTotals(cats, s + [e]) == SumOfTotals(cats, s) + (if e.category in cats then e.amount else 0.0)
  {
    if cats != [] {
      var n := |cats| - 1;
      var c := cats[n];
      var init := cats[..n];
      assert cats == init + [c];
      assert forall i, j :: 0 <= i < j < |init| ==> init[i] != init[j] by {
        forall i, j | 0 <= i < j < |init| ensures init[i] != init[j] {
          assert init[i] == cats[i] && init[j] == cats[j];
        }
      }
      SumOfTotalsAppend(init, s, e);
      CategoryTotalAppend(s, e, c);
      assert c !in init by {
        forall i | 0 <= i < |init| ensures init[i] != c {
          assert init[i] == cats[i];
        }
      }
    }
  }

  /** A category that was never seen has total zero. */
  lemma {:induction false} CategoryTotalAbsent(s: seq<Expense>, c: string)
    requires c !in FirstSeen(s)
    ensures CategoryTotal(s, c) == 0.0
  {
    if s != [] {
      var n := |s| - 1;
      CategoryTotalAbsent(s[..n], c);
    }
  }

  /** One expense more keeps the category totals adding up. */
  lemma CategoryTotalsAddUpStep(t: seq<Expense>, e: Expense)
    requires SumOfTotals(FirstSeen(t), t) == Total(t)
    ensures SumOfTotals(FirstSeen(t + [e]), t + [e]) == Total(t + [e])
  {
    var prev, c := FirstSeen(t), e.category;
    FirstSeenSnoc(t, e);
    FirstSeenDistinct(t);
    SumOfTotalsAppend(prev, t, e);
    TotalAppend(t, e);
    if c in prev {
      calc {
        SumOfTotals(FirstSeen(t + [e]), t + [e]);
        SumOfTotals(prev, t + [e]);
        SumOfTotals(prev, t) + e.amount;
      }
    } else {
      CategoryTotalAbsent(t, c);
      CategoryTotalAppend(t, e, c);
      SumOfTotalsSnoc(prev, c, t + [e]);
      calc {
        SumOfTotals(FirstSeen(t + [e]), t + [e]);
        SumOfTotals(prev + [c], t + [e]);
        SumOfTotals(prev, t + [e]) + CategoryTotal(t + [e], c);
        SumOfTotals(prev, t) + e.amount;
      }
    }
  }

  /** The per-category totals add up to the total of all expenses. */
  lemma {:induction false} CategoryTotalsAddUp(s: seq<Expense>)
    ensures SumOfTotals(FirstSeen(s), s) == Total(s)
  {
    if s != [] {
      var n := |s| - 1;
      CategoryTotalsAddUp(s[..n]);
      CategoryTotalsAddUpStep(s[..n], s[n]);
      assert s == s[..n] + [s[n]];
    }
  }

  /** `cats` and `totals` hold the categories of `t` in first-seen order and
      each category's total. */
  ghost predicate Tallied(t: seq<Expense>, cats: seq<string>, totals: map<string, real>)
  {
    && cats == FirstSeen(t)
    && (forall c :: c in totals <==> c in cats)
    && (forall c :: c in totals ==> totals[c] == CategoryTotal(t, c))
  }

  /** One step of the tally: a new category is appended at total 0, then the
      expense's amount is added to its category. */
  lemma TallyStep(t: seq<Expense>, e: Expense, cats: seq<string>, totals: map<string, real>)
    requires Tallied(t, cats, totals)
    ensures
      var c := e.category;
      Tallied(t + [e],
              if c in totals then cats else cats + [c],
              totals[c := (if c in totals then totals[c] else 0.0) + e.amount])
  {
    var c := e.category;
    var cats' := if c in totals then cats else cats + [c];
    var totals' := totals[c := (if c in totals then totals[c] else 0.0) + e.amount];
    FirstSeenSnoc(t, e);
    assert forall x :: x in totals' <==> x in cats';
    forall x | x in totals' ensures totals'[x] == CategoryTotal(t + [e], x) {
      CategoryTotalAppend(t, e, x);
      if x == c && c !in totals {
        CategoryTotalAbsent(t, c);
      }
    }
  }

  /** The `forEach` of `showCategorySummary`: a running total per category,
      keys in the order the categories first appear. */
  method TallyCategories(s: seq<Expense>) returns (cats: seq<string>, totals: map<string, real>)
    ensures cats == FirstSeen(s)
    ensures forall c :: c in totals <==> c in cats
    ensures forall c :: c in totals <==> Mentions(s, c)
    ensures forall c :: c in totals ==> totals[c] == CategoryTotal(s, c)
  {
    cats, totals := [], map[];
    for i := 0 to |s|
      invariant Tallied(s[..i], cats, totals)
    {
      var e := s[i];
      var c := e.category;
      TallyStep(s[..i], e, cats, totals);
      assert s[..i + 1] == s[..i] + [e];
      var sofar := 0.0;
      if c in totals {
        sofar := totals[c];
      } else {
        cats := cats + [c];
      }
      totals := totals[c := sofar + e.amount];
    }
    assert s[..|s|] == s;
    forall c ensures c in totals <==> Mentions(s, c) {
      FirstSeenMentions(s, c);
    }
  }

  /** `showCategorySummary`: one entry per category in first-seen order,
      holding that category's total, and the grand total of all expenses;
      `None` ("No expenses found") for an empty ledger. */
  method CategorySummary(s: seq<Expense>) returns (r: Option<CategoryReport>)
    ensures r.None? <==> s == []
    ensures r.Some? ==> r.value.categories == FirstSeen(s)
    ensures r.Some? ==> forall c :: c in r.value.totals <==> Mentions(s, c)
    ensures r.Some? ==> forall c :: c in r.value.totals ==> r.value.totals[c] == CategoryTotal(s, c)
    ensures r.Some? ==> r.value.grandTotal == Total(s)
  {
    var cats, totals := TallyCategories(s);
    if |cats| == 0 {
      return None;
    }
    var grand := 0.0;
    for k := 0 to |cats|
      invariant grand == SumOfTotals(cats[..k], s)
    {
      assert cats[..k + 1][..k] == cats[..k];
      grand := grand + totals[cats[k]];
    }
    assert cats[..|cats|] == cats;
    CategoryTotalsAddUp(s);
    r := Some(CategoryReport(cats, totals, grand));
  }

  // ---------------------------------------------------------------------
  // exportToCSV

  const CsvHeader: string := "ID,Date,Description,Amount,Category"

  /** One CSV row, without its newline: id, date, quoted description,
      amount and category.  Nothing inside the fields is escaped. */
  function CsvRow(e: Expense, amountText: real -> string): string
  {
    NatText(e.id) + "," + DateText(e.date) + ",\"" + e.description + "\"," + amountText(e.amount) + "," + e.category
  }

  /** The rows of `s`, in ledger order. */
  function CsvRows(s: seq<Expense>, amountText: real -> string): (r: seq<string>)
    ensures |r| == |s|
  {
    seq(|s|, i requires 0 <= i < |s| => CsvRow(s[i], amountText))
  }

  /** The rows of `s`, each followed by a newline. */
  function CsvBody(s: seq<Expense>, amountText: real -> string): string
  {
    Joined(CsvRows(s, amountText))
  }

  /** No field of any expense holds a line break. */
  predicate SingleLineFields(s: seq<Expense>, amountText: real -> string)
  {
    forall i :: 0 <= i < |s| ==>
      '\n' !in s[i].description && '\n' !in s[i].category && '\n' !in amountText(s[i].amount)
  }

  /** One more expense appends exactly its row and a newline to the body. */
  lemma CsvBodyAppend(s: seq<Expense>, e: Expense, amountText: real -> string)
    ensures CsvBody(s + [e], amountText) == CsvBody(s, amountText) + CsvRow(e, amountText) + "\n"
  {
    assert CsvRows(s + [e], amountText) == CsvRows(s, amountText) + [CsvRow(e, amountText)];
    JoinedAppend(CsvRows(s, amountText), CsvRow(e, amountText));
  }

  lemma RowSingleLine(e: Expense, amountText: real -> string)
    requires '\n' !in e.description && '\n' !in e.category && '\n' !in amountText(e.amount)
    ensures '\n' !in CsvRow(e, amountText)
  {
    var y, m, d := Fixed(e.date.year, 4), Fixed(e.date.month, 2), Fixed(e.date.day, 2);
    assert DateText(e.date) == y + "-" + m + "-" + d;
    assert '\n' !in NatText(e.id) && '\n' !in y && '\n' !in m && '\n' !in d;
  }

  /** With single-line fields, the body's lines are exactly the rows. */
  lemma CsvBodyLines(s: seq<Expense>, amountText: real -> string)
    requires SingleLineFields(s, amountText)
    ensures Lines(CsvBody(s, amountText)) == CsvRows(s, amountText)
  {
    var rows := CsvRows(s, amountText);
    forall i | 0 <= i < |rows| ensures '\n' !in rows[i] {
      RowSingleLine(s[i], amountText);
    }
    JoinedLines(rows);
  }

  /** With single-line fields, the exported text is the header line and then
      exactly one line per expense, in ledger order. */
  lemma CsvTextLines(s: seq<Expense>, amountText: real -> string)
    requires SingleLineFields(s, amountText)
    ensures Lines(CsvHeader + "\n" + CsvBody(s, amountText)) == [CsvHeader] + CsvRows(s, amountText)
  {
    HeaderSingleLine();
    CsvBodyLines(s, amountText);
    LinesOfLine(CsvHeader, CsvBody(s, amountText));
  }

  lemma HeaderSingleLine()
    ensures '\n' !in CsvHeader
  {
  }

  lemma CsvBodyStep(s: seq<Expense>, i: nat, amountText: real -> string)
    requires i < |s|
    ensures CsvBody(s[..i + 1], amountText) == CsvBody(s[..i], amountText) + CsvRow(s[i], amountText) + "\n"
  {
    assert s[..i + 1] == s[..i] + [s[i]];
    CsvBodyAppend(s[..i], s[i], amountText);
  }

  /** The exported text: the header line, then the body. */
  function CsvText(s: seq<Expense>, amountText: real -> string): string
  {
    CsvHeader + "\n" + CsvBody(s, amountText)
  }

  /** Each turn of the export loop appends one row and its newline. */
  lemma CsvTextStep(s: seq<Expense>, i: nat, amountText: real -> string)
    requires i < |s|
    ensures CsvText(s[..i + 1], amountText) == CsvText(s[..i], amountText) + CsvRow(s[i], amountText) + "\n"
  {
    CsvBodyStep(s, i, amountText);
  }

  /** `exportToCSV`: `None` ("No expenses to export") for an empty ledger,
      otherwise the header line followed by one line per expense in ledger
      order.  `amountText` stands for JavaScript's number-to-text. */
  method ExportCsv(s: seq<Expense>, amountText: real -> string) returns (r: Option<string>)
    ensures r.None? <==> s == []
    ensures r.Some? ==> r.value == CsvHeader + "\n" + CsvBody(s, amountText)
    ensures r.Some? && SingleLineFields(s, amountText) ==>
      Lines(r.value) == [CsvHeader] + CsvRows(s, amountText)
  {
    if |s| == 0 {
      return None;
    }
    var csv := CsvHeader + "\n";
    for i := 0 to |s|
      invariant csv == CsvText(s[..i], amountText)
    {
      CsvTextStep(s, i, amountText);
      csv := csv + CsvRow(s[i], amountText) + "\n";
    }
    assert s[..|s|] == s;
    if SingleLineFields(s, amountText) {
      CsvTextLines(s, amountText);
    }
    r := Some(csv);
  }
}
