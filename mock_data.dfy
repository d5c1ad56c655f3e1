/**
 * Personal expenses and the spending-per-category breakdown of
 * src/data/mockData.ts, with the breakdown taking the expense list as a
 * parameter instead of reading the module's constant list.
 */
module MockData {
  import opened Wrappers
  import opened Seqs

  /** A personal expense; `date` is a day number (the ISO date string, ordered). */
  datatype Expense = Expense(
    id: string,
    amount: real,
    category: string,
    description: string,
    date: int,
    notes: Option<string>)

  datatype Category = Category(id: string, name: string, icon: string, color: string)

  /** One slice of the spending chart. */
  datatype CategoryData = CategoryData(name: string, value: real, color: string, icon: string)

  /** The `categories` table. */
  const Categories: seq<Category> := [
    Category("food", "Food & Dining", "Utensils", "hsl(var(--chart-1))"),
    Category("transport", "Transportation", "Car", "hsl(var(--chart-2))"),
    Category("entertainment", "Entertainment", "Gamepad2", "hsl(var(--chart-3))"),
    Category("shopping", "Shopping", "ShoppingBag", "hsl(var(--chart-4))"),
    Category("utilities", "Utilities", "Zap", "hsl(var(--chart-5))"),
    Category("health", "Health", "Heart", "hsl(160, 84%, 39%)"),
    Category("travel", "Travel", "Plane", "hsl(174, 72%, 40%)"),
    Category("other", "Other", "MoreHorizontal", "hsl(150, 15%, 50%)")
  ]

  /** Every category of the table has its own id. */
  lemma CategoriesDistinct()
    ensures forall i, j :: 0 <= i < j < |Categories| ==> Categories[i].id != Categories[j].id
  {
  }

  /** The categories that occur among the expenses. */
  function CategoriesOf(es: seq<Expense>): set<string> {
    set e | e in es :: e.category
  }

  /** The amount spent in `category`: the amounts of its expenses added in list order. */
  function CategorySum(es: seq<Expense>, category: string): real {
    if es == [] then 0.0
    else
      var last := es[|es| - 1];
      CategorySum(es[..|es| - 1], category) + (if last.category == category then last.amount else 0.0)
  }

  /** A category that no expense is filed under has spent nothing. */
  lemma {:induction false} CategorySumAbsent(es: seq<Expense>, category: string)
    requires category !in CategoriesOf(es)
    ensures CategorySum(es, category) == 0.0
  {
    if es != [] {
      assert CategoriesOf(es[..|es| - 1]) <= CategoriesOf(es);
      CategorySumAbsent(es[..|es| - 1], category);
    }
  }

  /** What the `reduce` at mockData.ts:63-66 builds: one total per category that occurs. */
  function Totals(es: seq<Expense>): map<string, real> {
    map c | c in CategoriesOf(es) :: CategorySum(es, c)
  }

  /** One more expense adds its amount to its own category's total, creating it at 0 when new. */
  lemma TotalsSnoc(es: seq<Expense>, e: Expense)
    ensures var t := Totals(es);
      Totals(es + [e]) == t[e.category := (if e.category in t then t[e.category] else 0.0) + e.amount]
  {
    var es' := es + [e];
    var t := Totals(es);
    assert es'[..|es'| - 1] == es;
    assert CategoriesOf(es') == CategoriesOf(es) + {e.category};
    if e.category !in t {
      CategorySumAbsent(es, e.category);
    }
  }

  /** `TotalsSnoc` for the prefixes of one list. */
  lemma TotalsStep(es: seq<Expense>, k: nat)
    requires k < |es|
    ensures var t, c := Totals(es[..k]), es[k].category;
      Totals(es[..k + 1]) == t[c := (if c in t then t[c] else 0.0) + es[k].amount]
  {
    assert es[..k + 1] == es[..k] + [es[k]];
    TotalsSnoc(es[..k], es[k]);
  }

  /** The `reduce` that fills the per-category accumulator in place. */
  method CategoryTotals(es: seq<Expense>) returns (acc: map<string, real>)
    ensures acc == Totals(es)
  {
    acc := map[];
    var k := 0;
    while k < |es|
      invariant 0 <= k <= |es|
      invariant acc == Totals(es[..k])
    {
      var e := es[k];
      TotalsStep(es, k);
      acc := acc[e.category := (if e.category in acc then acc[e.category] else 0.0) + e.amount];
      k := k + 1;
    }
    assert es[..k] == es;
  }

  /** `categoryTotals[cat.id]` is truthy: present and not zero. */
  function Funded(totals: map<string, real>): Category -> bool {
    (c: Category) => c.id in totals && totals[c.id] != 0.0
  }

  /** The chart entry for `c` with the total `value`. */
  function Row(c: Category, value: real): CategoryData {
    CategoryData(c.name, value, c.color, c.icon)
  }

  /** `categories.filter(...).map(...)`: one entry per funded category, in table order. */
  function Rows(cats: seq<Category>, totals: map<string, real>): (r: seq<CategoryData>)
    ensures |r| == |Filter(cats, Funded(totals))|
  {
    var kept := Filter(cats, Funded(totals));
    seq(|kept|, k requires 0 <= k < |kept| => Row(kept[k], totals[kept[k].id]))
  }

  /** `getCategoryData`, over a given expense list. */
  method GetCategoryData(es: seq<Expense>) returns (rows: seq<CategoryData>)
    ensures rows == Rows(Categories, Totals(es))
  {
    var totals := CategoryTotals(es);
    rows := Rows(Categories, totals);
  }

  /**
   * The breakdown lists, in the order of the category table, exactly the
   * categories whose expenses add up to a non-zero amount; each entry carries
   * that amount and the category's name, colour and icon.
   */
  lemma CategoryRowsSpec(cats: seq<Category>, es: seq<Expense>)
    ensures var kept := Filter(cats, Funded(Totals(es)));
      && |Rows(cats, Totals(es))| <= |cats|
      && (forall c :: c in cats ==> (c in kept <==> CategorySum(es, c.id) != 0.0))
      && (forall k :: 0 <= k < |kept| ==>
            Rows(cats, Totals(es))[k] == Row(kept[k], CategorySum(es, kept[k].id)))
  {
    var kept := Filter(cats, Funded(Totals(es)));
    forall c | c in cats
      ensures c in kept <==> CategorySum(es, c.id) != 0.0
    {
      if c.id !in CategoriesOf(es) {
        CategorySumAbsent(es, c.id);
      }
    }
  }

  /** A table without repeated categories gives at most one entry per category. */
  lemma CategoryRowsDistinct(cats: seq<Category>, es: seq<Expense>)
    requires NoDuplicates(cats)
    ensures NoDuplicates(Filter(cats, Funded(Totals(es))))
  {
    FilterNoDuplicates(cats, Funded(Totals(es)));
  }

  /** An expense filed under a category the table does not list changes no entry. */
  lemma UnknownCategoryIgnored(cats: seq<Category>, es: seq<Expense>, e: Expense)
    requires forall c :: c in cats ==> c.id != e.category
    ensures Rows(cats, Totals(es + [e])) == Rows(cats, Totals(es))
  {
    var es' := es + [e];
    assert es'[..|es'| - 1] == es;
    forall c | c in cats
      ensures Funded(Totals(es'))(c) == Funded(Totals(es))(c)
      ensures c.id in Totals(es) ==> Totals(es')[c.id] == Totals(es)[c.id]
    {
      assert c.id in CategoriesOf(es') <==> c.id in CategoriesOf(es);
    }
    FilterCongruent(cats, Funded(Totals(es')), Funded(Totals(es)));
  }
}
