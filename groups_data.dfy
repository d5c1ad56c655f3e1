/**
 * Groups, their members and shared expenses (src/data/groupsData.ts), with
 * the read-only queries over a group and the balance table that the debt
 * calculation starts from: every member at 0, each payer credited the full
 * amount, each entry of the split list debited an equal share.
 */
module GroupsData {
  import opened Wrappers
  import opened Seqs
  import opened Numbers

  datatype Member = Member(id: string, name: string, email: string)

  datatype GroupExpense = GroupExpense(
    id: string,
    description: string,
    amount: real,
    paidBy: string,
    splitBetween: seq<string>,
    date: string,
    category: string)

  datatype Group = Group(
    id: string,
    name: string,
    description: string,
    members: seq<Member>,
    expenses: seq<GroupExpense>,
    createdAt: string)

  /** The first entry of `mockMembers`, the signed-in user. */
  const You := Member("user-1", "You", "you@example.com")

  // ---------------------------------------------------------------------------
  // Queries

  /** `getMemberById`: the first member with the id, if any. */
  function MemberById(members: seq<Member>, id: string): (r: Option<Member>)
    ensures r.None? <==> forall k :: 0 <= k < |members| ==> members[k].id != id
    ensures r.Some? ==> r.value.id == id && exists k :: 0 <= k < |members| && members[k] == r.value
                                                    && forall j :: 0 <= j < k ==> members[j].id != id
  {
    if members == [] then None
    else if members[0].id == id then Some(members[0])
    else
      var r := MemberById(members[1..], id);
      assert forall k :: 1 <= k < |members| ==> members[k] == members[1..][k - 1];
      r
  }

  /** `getTotalGroupExpenses`: the amounts added in list order, starting from 0. */
  function Total(es: seq<GroupExpense>): real {
    if es == [] then 0.0 else Total(es[..|es| - 1]) + es[|es| - 1].amount
  }

  /** With no negative amounts the total is at least every single amount. */
  lemma {:induction false} TotalBounds(es: seq<GroupExpense>)
    requires forall e :: e in es ==> e.amount >= 0.0
    ensures Total(es) >= 0.0
    ensures forall e :: e in es ==> e.amount <= Total(es)
  {
    if es != [] {
      var init := es[..|es| - 1];
      assert forall e :: e in init ==> e in es;
      TotalBounds(init);
      assert es == init + [es[|es| - 1]];
    }
  }

  // ---------------------------------------------------------------------------
  // The balance table

  /** The ids of the members. */
  function IdSet(members: seq<Member>): set<string> {
    set m | m in members :: m.id
  }

  /**
   * The keys of the balance record in insertion order: each member id once,
   * where it first occurs.
   */
  function Keys(members: seq<Member>): (keys: seq<string>)
    ensures NoDuplicates(keys)
    ensures forall x :: x in keys <==> x in IdSet(members)
  {
    if members == [] then []
    else
      var init := members[..|members| - 1];
      var id := members[|members| - 1].id;
      var keys := Keys(init);
      assert members == init + [members[|members| - 1]];
      assert IdSet(members) == IdSet(init) + {id};
      if id in keys then keys else keys + [id]
  }

  /** The expense only names members, and its split list is not empty. */
  predicate ValidExpense(ids: set<string>, e: GroupExpense) {
    e.paidBy in ids && |e.splitBetween| > 0 && forall p :: p in e.splitBetween ==> p in ids
  }

  /** Every expense of the group is valid for its members. */
  predicate WellFormed(g: Group) {
    forall e :: e in g.expenses ==> ValidExpense(IdSet(g.members), e)
  }

  /** Every key at 0. */
  function Zero(keys: seq<string>): (b: map<string, real>)
    ensures forall k :: k in b <==> k in keys
  {
    map k | k in keys :: 0.0
  }

  /** The entries of `split`, in order, each debited `share`. */
  function Debit(b: map<string, real>, split: seq<string>, share: real): (r: map<string, real>)
    requires forall p :: p in split ==> p in b
    ensures r.Keys == b.Keys
  {
    if split == [] then b
    else
      var last := split[|split| - 1];
      var r := Debit(b, split[..|split| - 1], share);
      r[last := r[last] - share]
  }

  /** One expense: the payer credited the amount, then every split entry debited its share. */
  function ApplyExpense(b: map<string, real>, e: GroupExpense): (r: map<string, real>)
    requires ValidExpense(b.Keys, e)
    ensures r.Keys == b.Keys
  {
    var share := e.amount / |e.splitBetween| as real;
    Debit(b[e.paidBy := b[e.paidBy] + e.amount], e.splitBetween, share)
  }

  /** The expenses applied in list order. */
  function ApplyAll(b: map<string, real>, es: seq<GroupExpense>): (r: map<string, real>)
    requires forall e :: e in es ==> ValidExpense(b.Keys, e)
    ensures r.Keys == b.Keys
  {
    if es == [] then b
    else ApplyExpense(ApplyAll(b, es[..|es| - 1]), es[|es| - 1])
  }

  /** The balance table `calculateDebts` builds for a group. */
  function Balances(g: Group): (b: map<string, real>)
    requires WellFormed(g)
    ensures forall k :: k in b <==> k in IdSet(g.members)
  {
    ApplyAll(Zero(Keys(g.members)), g.expenses)
  }

  /** Starts every member at 0 (groupsData.ts:80-85). */
  method InitBalances(members: seq<Member>) returns (keys: seq<string>, balances: map<string, real>)
    ensures keys == Keys(members)
    ensures balances == Zero(keys)
  {
    keys, balances := [], map[];
    var k := 0;
    while k < |members|
      invariant 0 <= k <= |members|
      invariant keys == Keys(members[..k])
      invariant balances == Zero(keys)
    {
      var id := members[k].id;
      assert members[..k + 1][..k] == members[..k];
      if id !in balances {
        keys := keys + [id];
      }
      balances := balances[id := 0.0];
      k := k + 1;
    }
    assert members[..k] == members;
  }

  /** Applies the expenses in place, one at a time (groupsData.ts:88-98). */
  method AccumulateExpenses(balances: map<string, real>, expenses: seq<GroupExpense>)
    returns (b: map<string, real>)
    requires forall e :: e in expenses ==> ValidExpense(balances.Keys, e)
    ensures b == ApplyAll(balances, expenses)
  {
    b := balances;
    var k := 0;
    while k < |expenses|
      invariant 0 <= k <= |expenses|
      invariant b == ApplyAll(balances, expenses[..k])
    {
      var expense := expenses[k];
      assert expense in expenses;
      ApplyAllStep(balances, expenses, k);
      ApplyExpenseUnfold(b, expense);
      var splitAmount := expense.amount / |expense.splitBetween| as real;
      b := b[expense.paidBy := b[expense.paidBy] + expense.amount];
      b := DebitEach(b, expense.splitBetween, splitAmount);
      k := k + 1;
    }
    assert expenses[..k] == expenses;
  }

  /** Applying one more expense of the list. */
  lemma ApplyAllStep(b: map<string, real>, es: seq<GroupExpense>, k: nat)
    requires forall e :: e in es ==> ValidExpense(b.Keys, e)
    requires k < |es|
    ensures forall e :: e in es[..k + 1] ==> ValidExpense(b.Keys, e)
    ensures ApplyAll(b, es[..k + 1]) == ApplyExpense(ApplyAll(b, es[..k]), es[k])
  {
    assert forall e :: e in es[..k + 1] ==> e in es;
    assert es[..k + 1][..k] == es[..k];
  }

  /** The inner `forEach` of groupsData.ts:95-97: each split entry debited in place. */
  method DebitEach(balances: map<string, real>, split: seq<string>, splitAmount: real)
    returns (b: map<string, real>)
    requires forall p :: p in split ==> p in balances
    ensures b == Debit(balances, split, splitAmount)
  {
    b := balances;
    var p := 0;
    while p < |split|
      invariant 0 <= p <= |split|
      invariant b == Debit(balances, split[..p], splitAmount)
    {
      var memberId := split[p];
      assert forall q :: q in split[..p + 1] ==> q in split;
      assert split[..p + 1][..p] == split[..p];
      b := b[memberId := b[memberId] - splitAmount];
      p := p + 1;
    }
    assert split[..p] == split;
  }

  // ---------------------------------------------------------------------------
  // What the table holds, stated independently of how it is built

  /** How often `x` occurs in `s`. */
  function Count(s: seq<string>, x: string): nat {
    if s == [] then 0 else Count(s[..|s| - 1], x) + (if s[|s| - 1] == x then 1 else 0)
  }

  /** What one expense does to `id`: the amount if `id` paid, less one share per occurrence in the split. */
  function Effect(e: GroupExpense, id: string): real
    requires |e.splitBetween| > 0
  {
    (if e.paidBy == id then e.amount else 0.0)
      - Count(e.splitBetween, id) as real * (e.amount / |e.splitBetween| as real)
  }

  /** The net effect of the expenses on `id`. */
  function Net(es: seq<GroupExpense>, id: string): real
    requires forall e :: e in es ==> |e.splitBetween| > 0
  {
    if es == [] then 0.0 else Net(es[..|es| - 1], id) + Effect(es[|es| - 1], id)
  }

  /** What the split entries equal to `id` are debited in total. */
  function Debited(split: seq<string>, id: string, share: real): real {
    if split == [] then 0.0
    else Debited(split[..|split| - 1], id, share) + (if split[|split| - 1] == id then share else 0.0)
  }

  lemma {:induction false} DebitedIsCountTimesShare(split: seq<string>, id: string, share: real)
    ensures Debited(split, id, share) == Count(split, id) as real * share
  {
    if split != [] {
      var init := split[..|split| - 1];
      DebitedIsCountTimesShare(init, id, share);
      var c := Count(init, id) as real;
      assert (c + 1.0) * share == c * share + share;
    }
  }

  lemma {:induction false} DebitAt(b: map<string, real>, split: seq<string>, share: real, id: string)
    requires forall p :: p in split ==> p in b
    requires id in b
    ensures Debit(b, split, share)[id] == b[id] - Count(split, id) as real * share
  {
    DebitAtDebited(b, split, share, id);
    DebitedIsCountTimesShare(split, id, share);
  }

  lemma {:induction false} DebitAtDebited(b: map<string, real>, split: seq<string>, share: real, id: string)
    requires forall p :: p in split ==> p in b
    requires id in b
    ensures Debit(b, split, share)[id] == b[id] - Debited(split, id, share)
  {
    if split != [] {
      var init := split[..|split| - 1];
      assert forall p :: p in init ==> p in split;
      DebitAtDebited(b, init, share, id);
    }
  }

  lemma ApplyExpenseAt(b: map<string, real>, e: GroupExpense, id: string)
    requires ValidExpense(b.Keys, e)
    requires id in b
    ensures ApplyExpense(b, e)[id] == b[id] + Effect(e, id)
  {
    var credited, share := b[e.paidBy := b[e.paidBy] + e.amount], e.amount / |e.splitBetween| as real;
    ApplyExpenseUnfold(b, e);
    DebitAt(credited, e.splitBetween, share, id);
    assert credited[id] == b[id] + (if e.paidBy == id then e.amount else 0.0);
  }

  lemma {:induction false} ApplyAllAt(b: map<string, real>, es: seq<GroupExpense>, id: string)
    requires forall e :: e in es ==> ValidExpense(b.Keys, e)
    requires id in b
    ensures ApplyAll(b, es)[id] == b[id] + Net(es, id)
  {
    if es != [] {
      var init := es[..|es| - 1];
      assert forall x :: x in init ==> x in es;
      assert es[|es| - 1] in es;
      ApplyAllAt(b, init, id);
      ApplyExpenseAt(ApplyAll(b, init), es[|es| - 1], id);
    }
  }

  /**
   * Each member's balance is its net effect over all the group's expenses:
   * what it paid, less one share per occurrence in each split list.
   */
  lemma BalanceIsNet(g: Group, id: string)
    requires WellFormed(g) && id in IdSet(g.members)
    ensures Balances(g)[id] == Net(g.expenses, id)
  {
    ApplyAllAt(Zero(Keys(g.members)), g.expenses, id);
  }

  /** A member that neither paid nor shared in any expense stays at 0. */
  lemma UninvolvedMemberIsZero(g: Group, id: string)
    requires WellFormed(g) && id in IdSet(g.members)
    requires forall e :: e in g.expenses ==> e.paidBy != id && id !in e.splitBetween
    ensures Balances(g)[id] == 0.0
  {
    BalanceIsNet(g, id);
    NetUninvolved(g.expenses, id);
  }

  lemma {:induction false} CountAbsent(s: seq<string>, x: string)
    requires x !in s
    ensures Count(s, x) == 0
  {
    if s != [] {
      assert forall y :: y in s[..|s| - 1] ==> y in s;
      CountAbsent(s[..|s| - 1], x);
    }
  }

  lemma {:induction false} NetUninvolved(es: seq<GroupExpense>, id: string)
    requires forall e :: e in es ==> |e.splitBetween| > 0 && e.paidBy != id && id !in e.splitBetween
    ensures Net(es, id) == 0.0
  {
    if es != [] {
      assert forall x :: x in es[..|es| - 1] ==> x in es;
      NetUninvolved(es[..|es| - 1], id);
      CountAbsent(es[|es| - 1].splitBetween, id);
    }
  }

  // ---------------------------------------------------------------------------
  // The balances add up to zero

  /** The balances of the listed keys added up. */
  function Sum(b: map<string, real>, keys: seq<string>): real
    requires forall k :: k in keys ==> k in b
  {
    if keys == [] then 0.0 else b[keys[0]] + Sum(b, keys[1..])
  }

  lemma {:induction false} SumUpdate(b: map<string, real>, keys: seq<string>, k: string, v: real)
    requires NoDuplicates(keys) && k in b
    requires forall x :: x in keys ==> x in b
    ensures Sum(b[k := v], keys) == Sum(b, keys) + (if k in keys then v - b[k] else 0.0)
  {
    if keys != [] {
      assert forall x :: x in keys[1..] ==> x in keys;
      assert keys[0] == k ==> k !in keys[1..];
      SumUpdate(b, keys[1..], k, v);
    }
  }

  /** `n` shares of `share` added one at a time. */
  function Shares(n: nat, share: real): real {
    if n == 0 then 0.0 else Shares(n - 1, share) + share
  }

  lemma {:induction false} SharesIsProduct(n: nat, share: real)
    ensures Shares(n, share) == n as real * share
  {
    if n > 0 {
      SharesIsProduct(n - 1, share);
      assert (n - 1) as real * share + share == n as real * share;
    }
  }

  lemma {:induction false} DebitSum(b: map<string, real>, keys: seq<string>, split: seq<string>, share: real)
    requires NoDuplicates(keys)
    requires forall x :: x in keys ==> x in b
    requires forall p :: p in split ==> p in keys
    ensures Sum(Debit(b, split, share), keys) == Sum(b, keys) - Shares(|split|, share)
  {
    if split != [] {
      var init := split[..|split| - 1];
      assert forall p :: p in init ==> p in split;
      DebitSum(b, keys, init, share);
      var r := Debit(b, init, share);
      var last := split[|split| - 1];
      SumUpdate(r, keys, last, r[last] - share);
    }
  }

  /** `n` equal shares of `amount` make up `amount`. */
  lemma SharesAddUp(amount: real, n: nat)
    requires n > 0
    ensures Shares(n, amount / n as real) == amount
  {
    SharesIsProduct(n, amount / n as real);
  }

  lemma ApplyExpenseUnfold(b: map<string, real>, e: GroupExpense)
    requires ValidExpense(b.Keys, e)
    ensures ApplyExpense(b, e)
         == Debit(b[e.paidBy := b[e.paidBy] + e.amount], e.splitBetween, e.amount / |e.splitBetween| as real)
  {
  }

  lemma ApplyExpenseSum(b: map<string, real>, keys: seq<string>, e: GroupExpense)
    requires NoDuplicates(keys)
    requires forall x :: x in b <==> x in keys
    requires ValidExpense(b.Keys, e)
    ensures Sum(ApplyExpense(b, e), keys) == Sum(b, keys)
  {
    var credited := b[e.paidBy := b[e.paidBy] + e.amount];
    SumUpdate(b, keys, e.paidBy, b[e.paidBy] + e.amount);
    var n := |e.splitBetween| as real;
    var share := e.amount / n;
    DebitSum(credited, keys, e.splitBetween, share);
    SharesAddUp(e.amount, |e.splitBetween|);
    ApplyExpenseUnfold(b, e);
  }

  lemma {:induction false} ApplyAllSum(b: map<string, real>, keys: seq<string>, es: seq<GroupExpense>)
    requires NoDuplicates(keys)
    requires forall x :: x in b <==> x in keys
    requires forall e :: e in es ==> ValidExpense(b.Keys, e)
    ensures Sum(ApplyAll(b, es), keys) == Sum(b, keys)
  {
    if es != [] {
      var init := es[..|es| - 1];
      assert forall x :: x in init ==> x in es;
      assert es[|es| - 1] in es;
      ApplyAllSum(b, keys, init);
      ApplyExpenseSum(ApplyAll(b, init), keys, es[|es| - 1]);
    }
  }

  lemma {:induction false} SumOfZero(keys: seq<string>, all: seq<string>)
    requires forall x :: x in keys ==> x in all
    ensures Sum(Zero(all), keys) == 0.0
  {
    if keys != [] {
      SumOfZero(keys[1..], all);
    }
  }

  /**
   * Every expense is fully allocated between the payer's credit and the
   * participants' debits, so over exact reals a group's balances add up to 0.
   */
  lemma BalancesSumToZero(g: Group)
    requires WellFormed(g)
    ensures Sum(Balances(g), Keys(g.members)) == 0.0
  {
    var keys := Keys(g.members);
    ApplyAllSum(Zero(keys), keys, g.expenses);
    SumOfZero(keys, keys);
  }

  // ---------------------------------------------------------------------------
  // getUserBalance

  /** What one expense does to `userId` in `getUserBalance`: a split list naming the user debits one share. */
  function UserEffect(e: GroupExpense, userId: string): real {
    (if e.paidBy == userId then e.amount else 0.0)
      - (if userId in e.splitBetween then e.amount / |e.splitBetween| as real else 0.0)
  }

  /** The unrounded balance `getUserBalance` accumulates. */
  function UserNet(es: seq<GroupExpense>, userId: string): real {
    if es == [] then 0.0 else UserNet(es[..|es| - 1], userId) + UserEffect(es[|es| - 1], userId)
  }

  /** `getUserBalance`: the user's balance, accumulated expense by expense, rounded to cents. */
  method UserBalance(g: Group, userId: string) returns (r: real)
    ensures r == RoundCents(UserNet(g.expenses, userId))
    ensures r - 0.005 <= UserNet(g.expenses, userId) < r + 0.005
  {
    var balance := 0.0;
    var k := 0;
    while k < |g.expenses|
      invariant 0 <= k <= |g.expenses|
      invariant balance == UserNet(g.expenses[..k], userId)
    {
      var expense := g.expenses[k];
      assert g.expenses[..k + 1][..k] == g.expenses[..k];
      if expense.paidBy == userId {
        balance := balance + expense.amount;
      }
      if userId in expense.splitBetween {
        var splitAmount := expense.amount / |expense.splitBetween| as real;
        balance := balance - splitAmount;
      }
      k := k + 1;
    }
    assert g.expenses[..k] == g.expenses;
    r := RoundCents(balance);
  }

  lemma {:induction false} CountAtMostOne(s: seq<string>, x: string)
    requires Count(s, x) <= 1
    ensures Count(s, x) == (if x in s then 1 else 0)
  {
    if s != [] {
      var init := s[..|s| - 1];
      assert s == init + [s[|s| - 1]];
      if x in init {
        assert Count(init, x) >= 1 by { CountPositive(init, x); }
      }
      CountAtMostOne(init, x);
    }
  }

  lemma {:induction false} CountPositive(s: seq<string>, x: string)
    requires x in s
    ensures Count(s, x) >= 1
  {
    var init := s[..|s| - 1];
    assert s == init + [s[|s| - 1]];
    if s[|s| - 1] != x {
      CountPositive(init, x);
    }
  }

  /**
   * When no split list names the user twice, `getUserBalance` agrees, before
   * its rounding, with the user's entry in the balance table.
   */
  lemma UserBalanceMatchesTable(g: Group, userId: string)
    requires WellFormed(g) && userId in IdSet(g.members)
    requires forall e :: e in g.expenses ==> Count(e.splitBetween, userId) <= 1
    ensures UserNet(g.expenses, userId) == Balances(g)[userId]
  {
    BalanceIsNet(g, userId);
    UserNetIsNet(g.expenses, userId);
  }

  lemma {:induction false} UserNetIsNet(es: seq<GroupExpense>, userId: string)
    requires forall e :: e in es ==> |e.splitBetween| > 0 && Count(e.splitBetween, userId) <= 1
    ensures UserNet(es, userId) == Net(es, userId)
  {
    if es != [] {
      assert forall x :: x in es[..|es| - 1] ==> x in es;
      UserNetIsNet(es[..|es| - 1], userId);
      CountAtMostOne(es[|es| - 1].splitBetween, userId);
    }
  }

  /**
   * A split list naming a member twice is debited twice in the balance table
   * but once in `getUserBalance`.
   */
  lemma DuplicateSplitEntryDiffers()
    ensures var e := GroupExpense("e", "", 30.0, "user-2", ["user-1", "user-1", "user-2"], "", "");
      Net([e], "user-1") == -20.0 && UserNet([e], "user-1") == -10.0
  {
    var e := GroupExpense("e", "", 30.0, "user-2", ["user-1", "user-1", "user-2"], "", "");
    assert [e][..0] == [];
    var s := e.splitBetween;
    assert s[..2] == ["user-1", "user-1"] && s[..2][..1] == ["user-1"] && s[..1][..0] == [];
    assert Count(["user-1"], "user-1") == 1;
    assert Count(["user-1", "user-1"], "user-1") == 2;
    assert Count(s, "user-1") == 2;
  }
}
