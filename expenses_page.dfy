/**
 * The expense list of src/pages/Expenses.tsx: the filter state behind the
 * filter bar, the search / category / date-range / sort pipeline that turns
 * the source list into the shown list, and the total of the shown list.
 */
module ExpensesPage {
  import opened Wrappers
  import opened Seqs
  import opened Text
  import opened MockData

  /** The date picker's range; either end may be unset. Dates are day numbers. */
  datatype DateRange = DateRange(from: Option<int>, to: Option<int>)

  /** The search box matches the description, or the notes when there are any, ignoring case. */
  predicate SearchHit(searchLower: string, e: Expense) {
    || Contains(ToLower(e.description), searchLower)
    || (e.notes.Some? && Contains(ToLower(e.notes.value), searchLower))
  }

  /** The search filter's predicate, for a lowercased query. */
  function SearchFilter(searchLower: string): Expense -> bool {
    e => SearchHit(searchLower, e)
  }

  /** The category filter's predicate. */
  function CategoryFilter(category: string): Expense -> bool {
    (e: Expense) => e.category == category
  }

  /** The date filter's predicate: both ends inclusive. */
  function DateFilter(from: int, to: int): Expense -> bool {
    (e: Expense) => from <= e.date <= to
  }

  /** Whether `e` passes every filter the state makes active. */
  predicate Visible(search: string, category: string, dateRange: Option<DateRange>, e: Expense) {
    && (search == "" || SearchHit(ToLower(search), e))
    && (category == "all" || e.category == category)
    && (dateRange.Some? && dateRange.value.from.Some? ==>
          var from := dateRange.value.from.value;
          from <= e.date <= dateRange.value.to.GetOr(from))
  }

  function VisibleFilter(search: string, category: string, dateRange: Option<DateRange>): Expense -> bool {
    e => Visible(search, category, dateRange, e)
  }

  function DateKey(e: Expense): real { e.date as real }
  function NegatedDateKey(e: Expense): real { -(e.date as real) }
  function AmountKey(e: Expense): real { e.amount }
  function NegatedAmountKey(e: Expense): real { -e.amount }
  function NoKey(e: Expense): real { 0.0 }

  /** The comparator chosen by the sort menu, as a key to sort ascending by. */
  function SortKey(sortBy: string): Expense -> real {
    if sortBy == "date-asc" then DateKey
    else if sortBy == "date-desc" then NegatedDateKey
    else if sortBy == "amount-asc" then AmountKey
    else if sortBy == "amount-desc" then NegatedAmountKey
    else NoKey
  }

  /** `filteredExpenses`: the source list copied, filtered stage by stage, then sorted. */
  method FilteredExpenses(source: seq<Expense>, search: string, category: string, sortBy: string,
                          dateRange: Option<DateRange>)
    returns (result: seq<Expense>)
    ensures result == SortBy(Filter(source, VisibleFilter(search, category, dateRange)), SortKey(sortBy))
  {
    result := source;
    if search != "" {
      var searchLower := ToLower(search);
      result := Filter(result, SearchFilter(searchLower));
    }
    SearchStage(source, search);
    assert result == Filter(source, VisibleFilter(search, "all", None));
    if category != "all" {
      result := Filter(result, CategoryFilter(category));
    }
    CategoryStage(source, search, category);
    assert result == Filter(source, VisibleFilter(search, category, None));
    if dateRange.Some? && dateRange.value.from.Some? {
      var from := dateRange.value.from.value;
      var to := dateRange.value.to.GetOr(from);
      result := Filter(result, DateFilter(from, to));
    }
    DateStage(source, search, category, dateRange);
    result := SortBy(result, SortKey(sortBy));
  }

  /** The search stage keeps what `Visible` keeps with only the search active. */
  lemma SearchStage(source: seq<Expense>, search: string)
    ensures (if search != "" then Filter(source, SearchFilter(ToLower(search))) else source)
         == Filter(source, VisibleFilter(search, "all", None))
  {
    var v := VisibleFilter(search, "all", None);
    if search != "" {
      FilterCongruent(source, SearchFilter(ToLower(search)), v);
    } else {
      FilterAll(source, v);
    }
  }

  /** The category stage, after the search stage, keeps what `Visible` keeps without a date range. */
  lemma CategoryStage(source: seq<Expense>, search: string, category: string)
    ensures var s1 := Filter(source, VisibleFilter(search, "all", None));
      (if category != "all" then Filter(s1, CategoryFilter(category)) else s1)
        == Filter(source, VisibleFilter(search, category, None))
  {
    var v1 := VisibleFilter(search, "all", None);
    var v2 := VisibleFilter(search, category, None);
    if category != "all" {
      FilterFilter(source, v1, CategoryFilter(category), v2);
    } else {
      FilterCongruent(source, v1, v2);
    }
  }

  /** The date stage, after the other two, keeps what `Visible` keeps. */
  lemma DateStage(source: seq<Expense>, search: string, category: string, dateRange: Option<DateRange>)
    ensures var s2 := Filter(source, VisibleFilter(search, category, None));
      (if dateRange.Some? && dateRange.value.from.Some?
       then Filter(s2, DateFilter(dateRange.value.from.value, dateRange.value.to.GetOr(dateRange.value.from.value)))
       else s2)
        == Filter(source, VisibleFilter(search, category, dateRange))
  {
    var v2 := VisibleFilter(search, category, None);
    var v3 := VisibleFilter(search, category, dateRange);
    if dateRange.Some? && dateRange.value.from.Some? {
      var from := dateRange.value.from.value;
      FilterFilter(source, v2, DateFilter(from, dateRange.value.to.GetOr(from)), v3);
    } else {
      FilterCongruent(source, v2, v3);
    }
  }

  /**
   * The shown list holds exactly the source expenses that pass every active
   * filter, each as often as in the source, and is no longer than the source.
   */
  lemma FilteredExpensesContents(source: seq<Expense>, search: string, category: string, sortBy: string,
                                 dateRange: Option<DateRange>)
    ensures var r := SortBy(Filter(source, VisibleFilter(search, category, dateRange)), SortKey(sortBy));
      && |r| <= |source|
      && multiset(r) <= multiset(source)
      && (forall e :: e in r <==> e in source && Visible(search, category, dateRange, e))
      && (forall e :: multiset(r)[e] == if Visible(search, category, dateRange, e) then multiset(source)[e] else 0)
  {
    var f := Filter(source, VisibleFilter(search, category, dateRange));
    var r := SortBy(f, SortKey(sortBy));
    forall e ensures multiset(r)[e] == if Visible(search, category, dateRange, e) then multiset(source)[e] else 0 {
      FilterMultiplicity(source, VisibleFilter(search, category, dateRange), e);
    }
    assert forall e :: e in r <==> e in f by {
      forall e ensures e in r <==> e in f {
        assert e in r <==> e in multiset(r);
      }
    }
    forall e | e in source && Visible(search, category, dateRange, e) ensures e in f {
      var i :| 0 <= i < |source| && source[i] == e;
    }
  }

  /** The sort menu's orders, and the stable no-op for any other key. */
  lemma FilteredExpensesOrder(source: seq<Expense>, search: string, category: string, sortBy: string,
                              dateRange: Option<DateRange>)
    ensures var f := Filter(source, VisibleFilter(search, category, dateRange));
      var r := SortBy(f, SortKey(sortBy));
      && (sortBy == "date-asc" ==> forall i, j :: 0 <= i < j < |r| ==> r[i].date <= r[j].date)
      && (sortBy == "date-desc" ==> forall i, j :: 0 <= i < j < |r| ==> r[i].date >= r[j].date)
      && (sortBy == "amount-asc" ==> forall i, j :: 0 <= i < j < |r| ==> r[i].amount <= r[j].amount)
      && (sortBy == "amount-desc" ==> forall i, j :: 0 <= i < j < |r| ==> r[i].amount >= r[j].amount)
      && (sortBy !in {"date-asc", "date-desc", "amount-asc", "amount-desc"} ==> r == f)
  {
    var f := Filter(source, VisibleFilter(search, category, dateRange));
    var r := SortBy(f, SortKey(sortBy));
    if sortBy !in {"date-asc", "date-desc", "amount-asc", "amount-desc"} {
      SortByConstantKey(f, NoKey);
    } else {
      assert SortedBy(r, SortKey(sortBy));
    }
  }

  /** `totalAmount`: the amounts of a list added in order. */
  function Total(es: seq<Expense>): real {
    if es == [] then 0.0 else Total(es[..|es| - 1]) + es[|es| - 1].amount
  }

  /** Splitting a list splits its total. */
  lemma {:induction false} TotalAppend(a: seq<Expense>, b: seq<Expense>)
    ensures Total(a + b) == Total(a) + Total(b)
    decreases |b|
  {
    if b == [] {
      assert a + b == a;
    } else {
      assert (a + b)[..|a + b| - 1] == a + b[..|b| - 1];
      TotalAppend(a, b[..|b| - 1]);
    }
  }

  /** The total does not depend on the order of the list. */
  lemma {:induction false} TotalPermutation(a: seq<Expense>, b: seq<Expense>)
    requires multiset(a) == multiset(b)
    ensures Total(a) == Total(b)
    decreases |a|
  {
    if a != [] {
      var x := a[|a| - 1];
      assert x in multiset(b);
      var i :| 0 <= i < |b| && b[i] == x;
      var b' := b[..i] + b[i + 1..];
      assert b == b[..i] + [x] + b[i + 1..];
      assert a == a[..|a| - 1] + [x];
      calc {
        multiset(b);
        multiset(b[..i] + [x] + b[i + 1..]);
        multiset(b[..i]) + multiset([x]) + multiset(b[i + 1..]);
        multiset(b') + multiset{x};
      }
      assert multiset(a) == multiset(a[..|a| - 1]) + multiset{x};
      assert multiset(a[..|a| - 1]) == multiset(a) - multiset{x};
      assert multiset(b') == multiset(b) - multiset{x};
      TotalPermutation(a[..|a| - 1], b');
      TotalAppend(b[..i] + [x], b[i + 1..]);
      TotalAppend(b[..i], [x]);
      TotalAppend(b[..i], b[i + 1..]);
      assert Total([x]) == x.amount by {
        assert [x][..0] == [];
      }
    }
  }

  /** The total shown under the list is the total of the visible expenses, whatever the sort. */
  lemma TotalAmountIgnoresSort(source: seq<Expense>, search: string, category: string, sortBy: string,
                               dateRange: Option<DateRange>)
    ensures var f := Filter(source, VisibleFilter(search, category, dateRange));
      Total(SortBy(f, SortKey(sortBy))) == Total(f)
  {
    var f := Filter(source, VisibleFilter(search, category, dateRange));
    TotalPermutation(SortBy(f, SortKey(sortBy)), f);
  }

  /** The filter bar's state and the reset button. */
  class FilterState {
    var search: string
    var category: string
    var sortBy: string
    var dateRange: Option<DateRange>

    /** The state the page starts with. */
    constructor ()
      ensures search == "" && category == "all" && sortBy == "date-desc" && dateRange == None
    {
      search, category, sortBy, dateRange := "", "all", "date-desc", None;
    }

    /** `hasActiveFilters` of the filter bar: some field differs from its starting value. */
    predicate HasActiveFilters()
      reads this
    {
      search != "" || category != "all" || sortBy != "date-desc" || dateRange.Some?
    }

    /** `handleClearFilters`: every field back to its starting value. */
    method ClearFilters()
      modifies this
      ensures search == "" && category == "all" && sortBy == "date-desc" && dateRange == None
      ensures !HasActiveFilters()
    {
      search := "";
      category := "all";
      sortBy := "date-desc";
      dateRange := None;
    }
  }

  /** With the starting filters every expense is shown, newest first. */
  lemma DefaultFiltersShowEverything(source: seq<Expense>)
    ensures Filter(source, VisibleFilter("", "all", None)) == source
    ensures var r := SortBy(source, SortKey("date-desc"));
      multiset(r) == multiset(source) && forall i, j :: 0 <= i < j < |r| ==> r[i].date >= r[j].date
  {
    FilterAll(source, VisibleFilter("", "all", None));
    DateDescKey();
    assert SortedBy(SortBy(source, SortKey("date-desc")), NegatedDateKey);
  }

  /** The default sort, "date-desc", sorts by the negated date. */
  lemma DateDescKey()
    ensures SortKey("date-desc") == NegatedDateKey
  {
    assert "date-desc"[5] == 'd' && "date-asc"[5] == 'a';
  }
}
