/**
 * The debt simplification of `calculateDebts` (src/data/groupsData.ts):
 * the balance table read back as `[id, balance]` entries, split into
 * debtors (most negative first) and creditors (most positive first), then a
 * two-pointer sweep that pays the current debtor to the current creditor
 * until one side runs out.
 */
module Settlement {
  import opened Seqs
  import opened Numbers
  import opened GroupsData

  /** The settlement tolerance: one cent. */
  const Eps: real := 0.01

  /** One `[id, balance]` pair of `Object.entries(balances)`. */
  datatype Entry = Entry(id: string, balance: real)

  /** A suggested payment. */
  datatype Debt = Debt(from: string, to: string, amount: real)

  /** `Object.entries(balances)`: the entries in the keys' insertion order. */
  function Entries(keys: seq<string>, b: map<string, real>): (es: seq<Entry>)
    requires forall k :: k in keys ==> k in b
    ensures |es| == |keys|
    ensures forall x :: x in es ==> x.id in keys && x.balance == b[x.id]
    ensures forall i :: 0 <= i < |keys| ==> es[i].id == keys[i]
  {
    seq(|keys|, i requires 0 <= i < |keys| => Entry(keys[i], b[keys[i]]))
  }

  function IsDebtor(x: Entry): bool { x.balance < -Eps }
  function IsCreditor(x: Entry): bool { x.balance > Eps }
  function BalanceKey(x: Entry): real { x.balance }
  function NegatedBalanceKey(x: Entry): real { -x.balance }

  /** The entries owing more than a cent, most negative first. */
  function Debtors(es: seq<Entry>): seq<Entry> {
    SortBy(Filter(es, IsDebtor), BalanceKey)
  }

  /** The entries owed more than a cent, most positive first. */
  function Creditors(es: seq<Entry>): seq<Entry> {
    SortBy(Filter(es, IsCreditor), NegatedBalanceKey)
  }

  /** The ids of some entries. */
  function Ids(es: seq<Entry>): set<string> {
    set x | x in es :: x.id
  }

  /**
   * One sweep step moves `Math.min(-debtor, creditor)`: that zeroes the
   * debtor or the creditor, and when the debtor is not positive and the
   * creditor not negative it is not negative and leaves the debtor not
   * positive and the creditor not negative.
   */
  function TransferAmount(debtor: Entry, creditor: Entry): (amount: real)
    ensures debtor.balance + amount == 0.0 || creditor.balance - amount == 0.0
    ensures debtor.balance <= 0.0 && creditor.balance >= 0.0 ==>
      amount >= 0.0 && debtor.balance + amount <= 0.0 && creditor.balance - amount >= 0.0
  {
    Min(-debtor.balance, creditor.balance)
  }

  /** What a step records: the debt, rounded to cents, when more than a cent moves. */
  function Paid(debtor: Entry, creditor: Entry, amount: real): seq<Debt> {
    if amount > Eps then [Debt(debtor.id, creditor.id, RoundCents(amount))] else []
  }

  /** A list after its current entry became `x`: `x` is passed when within a cent of zero. */
  function Rest(s: seq<Entry>, x: Entry): (r: seq<Entry>)
    requires s != []
    ensures |r| <= |s|
    ensures Abs(x.balance) < Eps ==> |r| < |s|
  {
    if Abs(x.balance) < Eps then s[1..] else [x] + s[1..]
  }

  /**
   * The sweep over what is left of the two lists, each headed by its current
   * entry: a step moves `TransferAmount` from the debtor to the creditor,
   * records a debt when more than a cent moves, and passes an entry that is
   * within a cent of zero afterwards.
   */
  function Sweep(ds: seq<Entry>, cs: seq<Entry>): seq<Debt>
    decreases |ds| + |cs|
  {
    if ds == [] || cs == [] then []
    else
      var d, c := ds[0], cs[0];
      var amount := TransferAmount(d, c);
      Paid(d, c, amount)
        + Sweep(Rest(ds, Entry(d.id, d.balance + amount)), Rest(cs, Entry(c.id, c.balance - amount)))
  }

  /** Overwriting entry `i` with `x` and passing it when settled is `Rest` on the suffix from `i`. */
  lemma AdvanceAt(s: seq<Entry>, i: nat, x: Entry, i': nat)
    requires i < |s|
    requires i' == if Abs(x.balance) < Eps then i + 1 else i
    ensures i' <= |s|
    ensures s[i := x][i'..] == Rest(s[i..], x)
  {
    if i' == i {
      assert s[i := x][i..] == [x] + s[i..][1..];
    } else {
      assert s[i := x][i + 1..] == s[i..][1..];
    }
  }

  /**
   * One pass of the loop body: overwriting the current entries and advancing
   * past the settled ones leaves exactly what the sweep has still to do.
   */
  lemma SweepStepAt(ds: seq<Entry>, cs: seq<Entry>, i: nat, j: nat, amount: real,
                    ds': seq<Entry>, cs': seq<Entry>, i': nat, j': nat)
    requires i < |ds| && j < |cs|
    requires amount == TransferAmount(ds[i], cs[j])
    requires ds' == ds[i := Entry(ds[i].id, ds[i].balance + amount)]
    requires cs' == cs[j := Entry(cs[j].id, cs[j].balance - amount)]
    requires i' == if Abs(ds'[i].balance) < Eps then i + 1 else i
    requires j' == if Abs(cs'[j].balance) < Eps then j + 1 else j
    ensures i' <= |ds'| && j' <= |cs'|
    ensures Sweep(ds[i..], cs[j..]) == Paid(ds[i], cs[j], amount) + Sweep(ds'[i'..], cs'[j'..])
  {
    var d, c := ds[i..][0], cs[j..][0];
    assert d == ds[i] && c == cs[j];
    AdvanceAt(ds, i, Entry(d.id, d.balance + amount), i');
    AdvanceAt(cs, j, Entry(c.id, c.balance - amount), j');
  }

  /**
   * The invariant of `Settle`: the debts recorded so far, followed by the sweep
   * of what is left from `i` and `j`, are the sweep of the input lists.
   */
  ghost predicate SettleInvariant(debtors: seq<Entry>, creditors: seq<Entry>, debts: seq<Debt>,
                                  ds: seq<Entry>, cs: seq<Entry>, i: nat, j: nat) {
    i <= |ds| && j <= |cs| && debts + Sweep(ds[i..], cs[j..]) == Sweep(debtors, creditors)
  }

  /** The loop invariant of `Settle` survives one pass of its body. */
  lemma SettleStep(debtors: seq<Entry>, creditors: seq<Entry>, debts: seq<Debt>, debts': seq<Debt>,
                   ds: seq<Entry>, cs: seq<Entry>, i: nat, j: nat, amount: real,
                   ds': seq<Entry>, cs': seq<Entry>, i': nat, j': nat)
    requires i < |ds| && j < |cs|
    requires SettleInvariant(debtors, creditors, debts, ds, cs, i, j)
    requires amount == TransferAmount(ds[i], cs[j])
    requires debts' == debts + Paid(ds[i], cs[j], amount)
    requires ds' == ds[i := Entry(ds[i].id, ds[i].balance + amount)]
    requires cs' == cs[j := Entry(cs[j].id, cs[j].balance - amount)]
    requires i' == if Abs(ds'[i].balance) < Eps then i + 1 else i
    requires j' == if Abs(cs'[j].balance) < Eps then j + 1 else j
    ensures |ds'| - i' + |cs'| - j' < |ds| - i + |cs| - j
    ensures SettleInvariant(debtors, creditors, debts', ds', cs', i', j')
  {
    SweepStepAt(ds, cs, i, j, amount, ds', cs', i', j');
    AppendAssoc(debts, Paid(ds[i], cs[j], amount), Sweep(ds'[i'..], cs'[j'..]));
  }

  /** The `while` loop of groupsData.ts:105-125, overwriting the current entries in place. */
  method Settle(debtors: seq<Entry>, creditors: seq<Entry>) returns (debts: seq<Debt>)
    ensures debts == Sweep(debtors, creditors)
  {
    var ds, cs := debtors, creditors;
    debts := [];
    var i: nat, j: nat := 0, 0;
    while i < |ds| && j < |cs|
      invariant SettleInvariant(debtors, creditors, debts, ds, cs, i, j)
      decreases |ds| - i + |cs| - j
    {
      var debtor, creditor := ds[i], cs[j];
      var amount := TransferAmount(debtor, creditor);
      ghost var debts0, ds0, cs0, i0, j0 := debts, ds, cs, i, j;
      if amount > Eps {
        debts := debts + [Debt(debtor.id, creditor.id, RoundCents(amount))];
      }
      ds := ds[i := Entry(debtor.id, debtor.balance + amount)];
      cs := cs[j := Entry(creditor.id, creditor.balance - amount)];
      if Abs(ds[i].balance) < Eps {
        i := i + 1;
      }
      if Abs(cs[j].balance) < Eps {
        j := j + 1;
      }
      SettleStep(debtors, creditors, debts0, debts, ds0, cs0, i0, j0, amount, ds, cs, i, j);
    }
  }

  /** What `calculateDebts` returns for a group. */
  function Debts(g: Group): seq<Debt>
    requires WellFormed(g)
  {
    var es := Entries(Keys(g.members), Balances(g));
    Sweep(Debtors(es), Creditors(es))
  }

  /** `calculateDebts`: the balance table, then the split into debtors and creditors, then the sweep. */
  method CalculateDebts(g: Group) returns (debts: seq<Debt>)
    requires WellFormed(g)
    ensures debts == Debts(g)
  {
    var keys, balances := InitBalances(g.members);
    balances := AccumulateExpenses(balances, g.expenses);
    var entries := Entries(keys, balances);
    var debtors := SortBy(Filter(entries, IsDebtor), BalanceKey);
    var creditors := SortBy(Filter(entries, IsCreditor), NegatedBalanceKey);
    debts := Settle(debtors, creditors);
  }

  // ---------------------------------------------------------------------------
  // Properties of the sweep

  /**
   * Every recorded debt runs from an entry of the debtor list to an entry of
   * the creditor list and is a whole number of cents, at least one cent.
   */
  lemma {:induction false} SweepParties(ds: seq<Entry>, cs: seq<Entry>)
    ensures forall d :: d in Sweep(ds, cs) ==>
      d.from in Ids(ds) && d.to in Ids(cs) && d.amount >= 0.01 && WholeCents(d.amount)
    decreases |ds| + |cs|
  {
    if ds != [] && cs != [] {
      var d, c := ds[0], cs[0];
      var amount := TransferAmount(d, c);
      var d', c' := Entry(d.id, d.balance + amount), Entry(c.id, c.balance - amount);
      var ds', cs' := Rest(ds, d'), Rest(cs, c');
      assert Sweep(ds, cs) == Paid(d, c, amount) + Sweep(ds', cs');
      SweepParties(ds', cs');
      RestIds(ds, d');
      RestIds(cs, c');
      PaidParties(d, c, amount);
      assert d.id in Ids(ds) && c.id in Ids(cs);
    }
  }

  /** Passing or overwriting the current entry brings in no new id. */
  lemma RestIds(s: seq<Entry>, x: Entry)
    requires s != [] && x.id == s[0].id
    ensures Ids(Rest(s, x)) <= Ids(s)
  {
    forall y | y in Rest(s, x) ensures y.id in Ids(s) {
      if y != x {
        assert y in s[1..];
      }
    }
  }

  /** A recorded debt runs from the current debtor to the current creditor, in whole cents, at least one. */
  lemma PaidParties(debtor: Entry, creditor: Entry, amount: real)
    ensures forall d :: d in Paid(debtor, creditor, amount) ==>
      d.from == debtor.id && d.to == creditor.id && d.amount >= 0.01 && WholeCents(d.amount)
  {
    if amount > Eps {
      RoundCentsAboveCent(amount);
    }
  }

  /**
   * Each step records at most one debt and passes at least one entry, so the
   * sweep records at most |debtors| + |creditors| - 1 debts, and none when a
   * list is empty.
   */
  lemma {:induction false} SweepCount(ds: seq<Entry>, cs: seq<Entry>)
    ensures ds == [] || cs == [] ==> Sweep(ds, cs) == []
    ensures ds != [] && cs != [] ==> |Sweep(ds, cs)| <= |ds| + |cs| - 1
    decreases |ds| + |cs|
  {
    if ds != [] && cs != [] {
      var d, c := ds[0], cs[0];
      var amount := TransferAmount(d, c);
      SweepCount(Rest(ds, Entry(d.id, d.balance + amount)), Rest(cs, Entry(c.id, c.balance - amount)));
    }
  }

  /**
   * With every debtor negative and every creditor positive, a step keeps the
   * remaining debtors negative and the remaining creditors positive.
   */
  lemma SweepStepKeepsSigns(ds: seq<Entry>, cs: seq<Entry>)
    requires ds != [] && cs != []
    requires forall x :: x in ds ==> x.balance < 0.0
    requires forall x :: x in cs ==> x.balance > 0.0
    ensures var d, c := ds[0], cs[0];
      var amount := TransferAmount(d, c);
      var ds', cs' := Rest(ds, Entry(d.id, d.balance + amount)), Rest(cs, Entry(c.id, c.balance - amount));
      && amount > 0.0
      && (forall x :: x in ds' ==> x.balance < 0.0)
      && (forall x :: x in cs' ==> x.balance > 0.0)
      && |ds'| + |cs'| < |ds| + |cs|
  {
    var d, c := ds[0], cs[0];
    assert d in ds && c in cs;
    assert forall x :: x in ds[1..] ==> x in ds;
    assert forall x :: x in cs[1..] ==> x in cs;
  }

  // ---------------------------------------------------------------------------
  // Where the sweep leaves the balances

  /**
   * The lists as the sweep leaves them: the last balance of every debtor and
   * every creditor, position by position, and how many entries of each list
   * the sweep passed.
   */
  datatype SweepEnd = SweepEnd(debtors: seq<Entry>, creditors: seq<Entry>, passedDebtors: nat, passedCreditors: nat)

  /** The last balances of a list after a step made its current entry `x`: `x` is final once passed. */
  function Settled(f: seq<Entry>, x: Entry): seq<Entry> {
    if Abs(x.balance) < Eps then [x] + f else f
  }

  /** The number of entries passed, counting `x` once it is passed. */
  function Passed(p: nat, x: Entry): nat {
    if Abs(x.balance) < Eps then p + 1 else p
  }

  /** The state the loop of `calculateDebts` stops in, step by step as `Sweep` runs. */
  function FinalState(ds: seq<Entry>, cs: seq<Entry>): SweepEnd
    decreases |ds| + |cs|
  {
    if ds == [] || cs == [] then SweepEnd(ds, cs, 0, 0)
    else
      var d, c := ds[0], cs[0];
      var amount := TransferAmount(d, c);
      var d', c' := Entry(d.id, d.balance + amount), Entry(c.id, c.balance - amount);
      var e := FinalState(Rest(ds, d'), Rest(cs, c'));
      SweepEnd(Settled(e.debtors, d'), Settled(e.creditors, c'), Passed(e.passedDebtors, d'), Passed(e.passedCreditors, c'))
  }

  /**
   * `f` holds the last balances of the entries of `s`, the first `p` of them
   * passed: each position keeps its id, a passed entry ended within a cent of
   * zero, and the entries after the current one were never reached.
   */
  predicate Ends(s: seq<Entry>, f: seq<Entry>, p: nat) {
    && |f| == |s| && p <= |s|
    && (forall k :: 0 <= k < |s| ==> f[k].id == s[k].id)
    && (forall k :: 0 <= k < p ==> Abs(f[k].balance) < Eps)
    && (forall k :: p < k < |s| ==> f[k] == s[k])
  }

  /** `Ends` for the list after a step carries over to the list before it. */
  lemma EndsStep(s: seq<Entry>, x: Entry, f: seq<Entry>, p: nat, f': seq<Entry>, p': nat)
    requires s != [] && x.id == s[0].id
    requires Ends(Rest(s, x), f, p)
    requires f' == Settled(f, x) && p' == Passed(p, x)
    ensures Ends(s, f', p')
  {
    if Abs(x.balance) < Eps {
      assert forall k :: 1 <= k < |s| ==> f'[k] == f[k - 1] && s[k] == s[1..][k - 1];
    } else {
      assert forall k :: 1 <= k < |s| ==> Rest(s, x)[k] == s[k];
    }
  }

  /** The next state of the sweep after one step on nonempty lists. */
  lemma FinalStateStep(ds: seq<Entry>, cs: seq<Entry>)
    requires ds != [] && cs != []
    ensures var amount := TransferAmount(ds[0], cs[0]);
      var d', c' := Entry(ds[0].id, ds[0].balance + amount), Entry(cs[0].id, cs[0].balance - amount);
      var e := FinalState(Rest(ds, d'), Rest(cs, c'));
      && FinalState(ds, cs).debtors == Settled(e.debtors, d')
      && FinalState(ds, cs).creditors == Settled(e.creditors, c')
      && FinalState(ds, cs).passedDebtors == Passed(e.passedDebtors, d')
      && FinalState(ds, cs).passedCreditors == Passed(e.passedCreditors, c')
  {
  }

  /**
   * Every debtor keeps its id, every debtor the sweep passed ended within a
   * cent of zero, and the debtors after the current one were never reached.
   */
  lemma {:induction false} FinalDebtors(ds: seq<Entry>, cs: seq<Entry>)
    ensures Ends(ds, FinalState(ds, cs).debtors, FinalState(ds, cs).passedDebtors)
    decreases |ds| + |cs|
  {
    if ds != [] && cs != [] {
      var amount := TransferAmount(ds[0], cs[0]);
      var d', c' := Entry(ds[0].id, ds[0].balance + amount), Entry(cs[0].id, cs[0].balance - amount);
      var e := FinalState(Rest(ds, d'), Rest(cs, c'));
      FinalDebtors(Rest(ds, d'), Rest(cs, c'));
      FinalStateStep(ds, cs);
      EndsStep(ds, d', e.debtors, e.passedDebtors, FinalState(ds, cs).debtors, FinalState(ds, cs).passedDebtors);
    }
  }

  /** The same for the creditors. */
  lemma {:induction false} FinalCreditors(ds: seq<Entry>, cs: seq<Entry>)
    ensures Ends(cs, FinalState(ds, cs).creditors, FinalState(ds, cs).passedCreditors)
    decreases |ds| + |cs|
  {
    if ds != [] && cs != [] {
      var amount := TransferAmount(ds[0], cs[0]);
      var d', c' := Entry(ds[0].id, ds[0].balance + amount), Entry(cs[0].id, cs[0].balance - amount);
      var e := FinalState(Rest(ds, d'), Rest(cs, c'));
      FinalCreditors(Rest(ds, d'), Rest(cs, c'));
      FinalStateStep(ds, cs);
      EndsStep(cs, c', e.creditors, e.passedCreditors, FinalState(ds, cs).creditors, FinalState(ds, cs).passedCreditors);
    }
  }

  /** Passing the current entry once its list has been passed to the end passes the whole list. */
  lemma PassedStep(s: seq<Entry>, x: Entry, p: nat)
    requires s != []
    ensures p == |Rest(s, x)| ==> Passed(p, x) == |s|
  {
  }

  /** The sweep stops only once it has passed every debtor or every creditor. */
  lemma {:induction false} FinalStateStops(ds: seq<Entry>, cs: seq<Entry>)
    ensures FinalState(ds, cs).passedDebtors == |ds| || FinalState(ds, cs).passedCreditors == |cs|
    decreases |ds| + |cs|
  {
    if ds != [] && cs != [] {
      var amount := TransferAmount(ds[0], cs[0]);
      var d', c' := Entry(ds[0].id, ds[0].balance + amount), Entry(cs[0].id, cs[0].balance - amount);
      var e := FinalState(Rest(ds, d'), Rest(cs, c'));
      FinalStateStops(Rest(ds, d'), Rest(cs, c'));
      PassedStep(ds, d', e.passedDebtors);
      PassedStep(cs, c', e.passedCreditors);
      FinalStateStep(ds, cs);
    }
  }

  /** Each debtor's balance lies between what it owed and 0. */
  predicate DebtorsPaidAtMost(s: seq<Entry>, f: seq<Entry>) {
    |f| == |s| && forall k :: 0 <= k < |s| ==> s[k].balance <= f[k].balance <= 0.0
  }

  /** Each creditor's balance lies between 0 and what it was owed. */
  predicate CreditorsReceivedAtMost(s: seq<Entry>, f: seq<Entry>) {
    |f| == |s| && forall k :: 0 <= k < |s| ==> 0.0 <= f[k].balance <= s[k].balance
  }

  lemma DebtorsStep(s: seq<Entry>, x: Entry, f: seq<Entry>, f': seq<Entry>)
    requires s != [] && s[0].balance <= x.balance <= 0.0
    requires DebtorsPaidAtMost(Rest(s, x), f)
    requires f' == Settled(f, x)
    ensures DebtorsPaidAtMost(s, f')
  {
    if Abs(x.balance) < Eps {
      assert forall k :: 1 <= k < |s| ==> f'[k] == f[k - 1] && s[k] == s[1..][k - 1];
    } else {
      assert forall k :: 1 <= k < |s| ==> Rest(s, x)[k] == s[k];
    }
  }

  lemma CreditorsStep(s: seq<Entry>, x: Entry, f: seq<Entry>, f': seq<Entry>)
    requires s != [] && 0.0 <= x.balance <= s[0].balance
    requires CreditorsReceivedAtMost(Rest(s, x), f)
    requires f' == Settled(f, x)
    ensures CreditorsReceivedAtMost(s, f')
  {
    if Abs(x.balance) < Eps {
      assert forall k :: 1 <= k < |s| ==> f'[k] == f[k - 1] && s[k] == s[1..][k - 1];
    } else {
      assert forall k :: 1 <= k < |s| ==> Rest(s, x)[k] == s[k];
    }
  }

  /** Every balance of `s` is at or below 0, stated entry by entry from the front. */
  predicate AtMostZero(s: seq<Entry>) {
    s == [] || (s[0].balance <= 0.0 && AtMostZero(s[1..]))
  }

  /** Every balance of `s` is at or above 0, stated entry by entry from the front. */
  predicate AtLeastZero(s: seq<Entry>) {
    s == [] || (s[0].balance >= 0.0 && AtLeastZero(s[1..]))
  }

  lemma {:induction false} AtMostZeroOf(s: seq<Entry>)
    requires forall x :: x in s ==> x.balance <= 0.0
    ensures AtMostZero(s)
  {
    if s != [] {
      assert s[0] in s;
      assert forall x :: x in s[1..] ==> x in s;
      AtMostZeroOf(s[1..]);
    }
  }

  lemma {:induction false} AtLeastZeroOf(s: seq<Entry>)
    requires forall x :: x in s ==> x.balance >= 0.0
    ensures AtLeastZero(s)
  {
    if s != [] {
      assert s[0] in s;
      assert forall x :: x in s[1..] ==> x in s;
      AtLeastZeroOf(s[1..]);
    }
  }

  lemma {:induction false} AtMostZeroAll(s: seq<Entry>)
    requires AtMostZero(s)
    ensures forall k :: 0 <= k < |s| ==> s[k].balance <= 0.0
  {
    if s != [] {
      AtMostZeroAll(s[1..]);
      assert forall k :: 1 <= k < |s| ==> s[k] == s[1..][k - 1];
    }
  }

  lemma {:induction false} AtLeastZeroAll(s: seq<Entry>)
    requires AtLeastZero(s)
    ensures forall k :: 0 <= k < |s| ==> s[k].balance >= 0.0
  {
    if s != [] {
      AtLeastZeroAll(s[1..]);
      assert forall k :: 1 <= k < |s| ==> s[k] == s[1..][k - 1];
    }
  }

  /** With debtors at or below 0 and creditors at or above 0, a step keeps every balance on its side of 0. */
  lemma StepKeepsSides(ds: seq<Entry>, cs: seq<Entry>, amount: real, d': Entry, c': Entry,
                       ds': seq<Entry>, cs': seq<Entry>)
    requires ds != [] && cs != [] && AtMostZero(ds) && AtLeastZero(cs)
    requires amount == TransferAmount(ds[0], cs[0])
    requires d' == Entry(ds[0].id, ds[0].balance + amount) && c' == Entry(cs[0].id, cs[0].balance - amount)
    requires ds' == Rest(ds, d') && cs' == Rest(cs, c')
    ensures 0.0 <= amount
    ensures ds[0].balance <= d'.balance <= 0.0 && 0.0 <= c'.balance <= cs[0].balance
    ensures AtMostZero(ds') && AtLeastZero(cs')
  {
    if Abs(d'.balance) >= Eps {
      assert ds'[0] == d' && ds'[1..] == ds[1..];
    }
    if Abs(c'.balance) >= Eps {
      assert cs'[0] == c' && cs'[1..] == cs[1..];
    }
  }

  /** `FinalStateBounds` over the entry-by-entry form of its precondition. */
  lemma {:induction false} FinalStateBoundsFrom(ds: seq<Entry>, cs: seq<Entry>)
    requires AtMostZero(ds) && AtLeastZero(cs)
    ensures DebtorsPaidAtMost(ds, FinalState(ds, cs).debtors)
    ensures CreditorsReceivedAtMost(cs, FinalState(ds, cs).creditors)
    decreases |ds| + |cs|
  {
    if ds == [] || cs == [] {
      AtMostZeroAll(ds);
      AtLeastZeroAll(cs);
    } else {
      var d, c := ds[0], cs[0];
      var amount := TransferAmount(d, c);
      var d', c' := Entry(d.id, d.balance + amount), Entry(c.id, c.balance - amount);
      var ds', cs' := Rest(ds, d'), Rest(cs, c');
      StepKeepsSides(ds, cs, amount, d', c', ds', cs');
      FinalStateBoundsFrom(ds', cs');
      var e := FinalState(ds', cs');
      FinalStateStep(ds, cs);
      DebtorsStep(ds, d', e.debtors, FinalState(ds, cs).debtors);
      CreditorsStep(cs, c', e.creditors, FinalState(ds, cs).creditors);
    }
  }

  /**
   * With debtors at or below 0 and creditors at or above 0, no debtor pays
   * more than it owed and no creditor receives more than it was owed: every
   * debtor ends between its starting balance and 0, every creditor between
   * 0 and its starting balance.
   */
  lemma FinalStateBounds(ds: seq<Entry>, cs: seq<Entry>)
    requires forall x :: x in ds ==> x.balance <= 0.0
    requires forall x :: x in cs ==> x.balance >= 0.0
    ensures DebtorsPaidAtMost(ds, FinalState(ds, cs).debtors)
    ensures CreditorsReceivedAtMost(cs, FinalState(ds, cs).creditors)
  {
    AtMostZeroOf(ds);
    AtLeastZeroOf(cs);
    FinalStateBoundsFrom(ds, cs);
  }

  /** The balances of some entries added up. */
  function BalanceSum(s: seq<Entry>): real {
    if s == [] then 0.0 else s[0].balance + BalanceSum(s[1..])
  }

  /** The amounts of some debts added up. */
  function DebtSum(s: seq<Debt>): real {
    if s == [] then 0.0 else s[0].amount + DebtSum(s[1..])
  }

  /** What a step moves shows up in the sum of the last balances of its list. */
  lemma BalanceSumStep(s: seq<Entry>, x: Entry, f: seq<Entry>, f': seq<Entry>)
    requires s != [] && f' == Settled(f, x)
    ensures BalanceSum(f') - BalanceSum(s) == (BalanceSum(f) - BalanceSum(Rest(s, x))) + (x.balance - s[0].balance)
  {
    if Abs(x.balance) < Eps {
      assert ([x] + f)[1..] == f;
    } else {
      assert Rest(s, x)[1..] == s[1..];
    }
  }

  /** A step's debt, if any, comes first in the sum. */
  lemma DebtSumStep(p: seq<Debt>, r: seq<Debt>, pr: seq<Debt>)
    requires |p| <= 1 && pr == p + r
    ensures DebtSum(pr) == DebtSum(p) + DebtSum(r)
  {
    if p == [] {
      assert p + r == r;
    } else {
      assert (p + r)[1..] == r;
      assert DebtSum(p) == p[0].amount by {
        assert p[1..] == [];
      }
    }
  }

  /** `SweepConservation` over the entry-by-entry form of its precondition. */
  lemma {:induction false} SweepConservationFrom(ds: seq<Entry>, cs: seq<Entry>)
    requires AtMostZero(ds) && AtLeastZero(cs)
    ensures BalanceSum(FinalState(ds, cs).debtors) - BalanceSum(ds)
         == BalanceSum(cs) - BalanceSum(FinalState(ds, cs).creditors)
    ensures var paid := BalanceSum(FinalState(ds, cs).debtors) - BalanceSum(ds);
      paid - Eps * (|ds| + |cs|) as real <= DebtSum(Sweep(ds, cs)) <= paid + Eps * (|ds| + |cs|) as real
    decreases |ds| + |cs|
  {
    if ds != [] && cs != [] {
      var d, c := ds[0], cs[0];
      var amount := TransferAmount(d, c);
      var d', c' := Entry(d.id, d.balance + amount), Entry(c.id, c.balance - amount);
      var ds', cs' := Rest(ds, d'), Rest(cs, c');
      StepKeepsSides(ds, cs, amount, d', c', ds', cs');
      SweepConservationFrom(ds', cs');
      var e := FinalState(ds', cs');
      FinalStateStep(ds, cs);
      BalanceSumStep(ds, d', e.debtors, FinalState(ds, cs).debtors);
      BalanceSumStep(cs, c', e.creditors, FinalState(ds, cs).creditors);
      DebtSumStep(Paid(d, c, amount), Sweep(ds', cs'), Sweep(ds, cs));
      assert -Eps <= DebtSum(Paid(d, c, amount)) - amount <= Eps;
    }
  }

  /**
   * With debtors at or below 0 and creditors at or above 0, what the debtors
   * pay in all is exactly what the creditors receive in all, and the debts
   * recorded add up to that amount up to a cent per debtor and creditor: each
   * step records its amount rounded to cents, or nothing when it moves at
   * most a cent.
   */
  lemma SweepConservation(ds: seq<Entry>, cs: seq<Entry>)
    requires forall x :: x in ds ==> x.balance <= 0.0
    requires forall x :: x in cs ==> x.balance >= 0.0
    ensures BalanceSum(FinalState(ds, cs).debtors) - BalanceSum(ds)
         == BalanceSum(cs) - BalanceSum(FinalState(ds, cs).creditors)
    ensures var paid := BalanceSum(FinalState(ds, cs).debtors) - BalanceSum(ds);
      paid - Eps * (|ds| + |cs|) as real <= DebtSum(Sweep(ds, cs)) <= paid + Eps * (|ds| + |cs|) as real
  {
    AtMostZeroOf(ds);
    AtLeastZeroOf(cs);
    SweepConservationFrom(ds, cs);
  }

  // ---------------------------------------------------------------------------
  // Properties of calculateDebts

  /**
   * The debtor list holds exactly the entries below minus one cent, ascending;
   * the creditor list exactly those above one cent, descending; an entry
   * within a cent of zero is in neither, and no entry is in both.
   */
  lemma PartitionSpec(es: seq<Entry>)
    ensures forall x :: x in Debtors(es) <==> x in es && x.balance < -Eps
    ensures forall x :: x in Creditors(es) <==> x in es && x.balance > Eps
    ensures forall i, j :: 0 <= i < j < |Debtors(es)| ==> Debtors(es)[i].balance <= Debtors(es)[j].balance
    ensures forall i, j :: 0 <= i < j < |Creditors(es)| ==> Creditors(es)[i].balance >= Creditors(es)[j].balance
    ensures multiset(Debtors(es)) == multiset(Filter(es, IsDebtor))
    ensures multiset(Creditors(es)) == multiset(Filter(es, IsCreditor))
  {
    var ds, cs := Debtors(es), Creditors(es);
    var fd, fc := Filter(es, IsDebtor), Filter(es, IsCreditor);
    forall x ensures x in ds <==> x in fd {
      assert x in ds <==> x in multiset(ds);
      assert x in fd <==> x in multiset(fd);
    }
    forall x ensures x in cs <==> x in fc {
      assert x in cs <==> x in multiset(cs);
      assert x in fc <==> x in multiset(fc);
    }
    forall x | x in es && x.balance < -Eps ensures x in fd {
      var i :| 0 <= i < |es| && es[i] == x;
    }
    forall x | x in es && x.balance > Eps ensures x in fc {
      var i :| 0 <= i < |es| && es[i] == x;
    }
    assert SortedBy(cs, NegatedBalanceKey);
  }

  /**
   * Every debt `calculateDebts` suggests runs from a member who owes more
   * than a cent to a different member who is owed more than a cent, and is a
   * whole number of cents, at least one cent.
   */
  lemma DebtsParties(g: Group)
    requires WellFormed(g)
    ensures forall d :: d in Debts(g) ==>
      && d.from in IdSet(g.members) && d.to in IdSet(g.members) && d.from != d.to
      && Balances(g)[d.from] < -Eps && Balances(g)[d.to] > Eps
      && d.amount >= 0.01 && WholeCents(d.amount)
  {
    var es := Entries(Keys(g.members), Balances(g));
    SweepParties(Debtors(es), Creditors(es));
    PartitionSpec(es);
  }

  /**
   * `calculateDebts` suggests at most |debtors| + |creditors| - 1 debts, and
   * none unless there is both a debtor and a creditor; hence fewer debts than
   * the group has distinct members.
   */
  lemma DebtsCount(g: Group)
    requires WellFormed(g)
    ensures var es := Entries(Keys(g.members), Balances(g));
      var nd, nc := |Debtors(es)|, |Creditors(es)|;
      && (nd == 0 || nc == 0 ==> Debts(g) == [])
      && (nd > 0 && nc > 0 ==> |Debts(g)| <= nd + nc - 1)
      && |Debts(g)| <= if |Keys(g.members)| == 0 then 0 else |Keys(g.members)| - 1
  {
    var es := Entries(Keys(g.members), Balances(g));
    SweepCount(Debtors(es), Creditors(es));
    FilterDisjointLength(es, IsDebtor, IsCreditor);
  }

  /** A group without expenses owes nothing. */
  lemma NoExpensesNoDebts(g: Group)
    requires g.expenses == []
    ensures WellFormed(g) && Debts(g) == []
  {
    var es := Entries(Keys(g.members), Balances(g));
    assert forall x :: x in es ==> x.balance == 0.0;
    PartitionSpec(es);
    SweepCount(Debtors(es), Creditors(es));
  }

  /**
   * One 120 expense paid by A and split between A, B and C leaves A owed 80
   * and B and C owing 40 each: B and C each pay A 40.
   */
  lemma EvenSplitExample()
    ensures Sweep([Entry("B", -40.0), Entry("C", -40.0)], [Entry("A", 80.0)])
         == [Debt("B", "A", 40.0), Debt("C", "A", 40.0)]
  {
    assert RoundCents(40.0) == 40.0;
    var step1 := Sweep([Entry("C", -40.0)], [Entry("A", 40.0)]);
    assert step1 == [Debt("C", "A", 40.0)] + Sweep([], []);
  }

  /**
   * The sweep does not always bring every balance within a cent of zero.
   * Debtors at -1.0055 and -1.0055 against creditors at 1, 1 and 0.011 (the
   * balances add up to 0): each debtor pays 1, is left at -0.0055 and passed,
   * so the debtors run out and the last creditor, owed 0.011, receives nothing.
   */
  lemma ResidualAboveTolerance()
    ensures Sweep([Entry("A", -1.0055), Entry("B", -1.0055)],
                  [Entry("C", 1.0), Entry("D", 1.0), Entry("E", 0.011)])
         == [Debt("A", "C", 1.0), Debt("B", "D", 1.0)]
    ensures 0.011 > Eps
  {
    assert RoundCents(1.0) == 1.0;
    var last := Sweep([Entry("B", -1.0055)], [Entry("D", 1.0), Entry("E", 0.011)]);
    assert last == [Debt("B", "D", 1.0)] + Sweep([], [Entry("E", 0.011)]);
  }
}
