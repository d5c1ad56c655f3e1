/**
 * The groups page (src/pages/Groups.tsx): the case-insensitive search over
 * the groups' names and descriptions, and the construction of a new group
 * from the dialog's submission, placed in front of the others.
 */
module GroupsPage {
  import opened Seqs
  import opened Text
  import opened GroupsData
  import opened Settlement

  // ---------------------------------------------------------------------------
  // Search

  /** The search test: the lower-cased name or description contains the lower-cased query. */
  function Matches(query: string): Group -> bool {
    (g: Group) => Contains(ToLower(g.name), ToLower(query)) || Contains(ToLower(g.description), ToLower(query))
  }

  /** `filteredGroups`. */
  function FilteredGroups(groups: seq<Group>, query: string): seq<Group> {
    Filter(groups, Matches(query))
  }

  /**
   * A group is shown exactly when its name or description contains the
   * query, ignoring case; the shown groups keep their relative order.
   */
  lemma FilteredGroupsSpec(groups: seq<Group>, query: string)
    ensures forall g :: g in FilteredGroups(groups, query) <==>
      g in groups
      && (Contains(ToLower(g.name), ToLower(query)) || Contains(ToLower(g.description), ToLower(query)))
    ensures multiset(FilteredGroups(groups, query)) <= multiset(groups)
  {
    var r := FilteredGroups(groups, query);
    forall g | g in groups && Matches(query)(g) ensures g in r {
      var i :| 0 <= i < |groups| && groups[i] == g;
    }
  }

  /** An empty query shows every group, in order. */
  lemma EmptyQueryShowsAll(groups: seq<Group>)
    ensures FilteredGroups(groups, "") == groups
  {
    forall g | g in groups ensures Matches("")(g) {
      ContainsEmpty(ToLower(g.name));
    }
    FilterAll(groups, Matches(""));
  }

  /** The search ignores the case of the query. */
  lemma QueryCaseIgnored(groups: seq<Group>, query: string)
    ensures FilteredGroups(groups, ToLower(query)) == FilteredGroups(groups, query)
  {
    ToLowerIsLowerCase(query);
    ToLowerOfLowerCase(ToLower(query));
    FilterCongruent(groups, Matches(ToLower(query)), Matches(query));
  }

  /** A group put in front is shown in front exactly when it matches; the rest is filtered as before. */
  lemma FilteredGroupsCons(g: Group, groups: seq<Group>, query: string)
    ensures FilteredGroups([g] + groups, query)
         == (if Matches(query)(g) then [g] else []) + FilteredGroups(groups, query)
  {
    FilterAppend([g], groups, Matches(query));
  }

  // ---------------------------------------------------------------------------
  // New groups

  /**
   * The member made for the `i`-th address: id `new-user-<stamp>-<i>`, the
   * text before the first '@' as name, and the address itself.
   */
  function NewMember(email: string, stamp: nat, i: nat): Member {
    Member("new-user-" + Decimal(stamp) + "-" + Decimal(i), BeforeFirst(email, '@'), email)
  }

  /**
   * `handleCreateGroup`'s group. `now` is the clock reading taken for the
   * group id, `clock(i)` the one taken for the `i`-th new member, and
   * `today` the date part of the current ISO timestamp.
   */
  function NewGroup(name: string, description: string, emails: seq<string>,
                    now: nat, clock: nat -> nat, today: string): Group {
    var added := seq(|emails|, i requires 0 <= i < |emails| => NewMember(emails[i], clock(i), i));
    Group("group-" + Decimal(now), name, description, [You] + added, [], today)
  }

  /** Two strings joined by a '-' that the first part does not contain determine both parts. */
  lemma SplitAtDash(l: string, x: string, r: string, y: string)
    requires '-' !in l && '-' !in r
    requires l + "-" + x == r + "-" + y
    ensures l == r && x == y
  {
    var s := l + "-" + x;
    assert s[|l|] == '-' && s[|r|] == '-';
    assert forall k :: 0 <= k < |l| ==> s[k] == l[k];
    assert forall k :: 0 <= k < |r| ==> s[k] == r[k];
    assert |l| == |r|;
    assert l == s[..|l|] == r;
    assert x == s[|l| + 1..] == y;
  }

  /** `<a>-<b>` with decimal `a` and `b` determines both numbers. */
  lemma StampInjective(a: nat, b: nat, c: nat, d: nat)
    requires Decimal(a) + "-" + Decimal(b) == Decimal(c) + "-" + Decimal(d)
    ensures a == c && b == d
  {
    SplitAtDash(Decimal(a), Decimal(b), Decimal(c), Decimal(d));
    DecimalInjective(a, c);
    DecimalInjective(b, d);
  }

  /** A new member's id is the fixed prefix followed by its stamp and position. */
  lemma NewMemberId(email: string, stamp: nat, i: nat)
    ensures NewMember(email, stamp, i).id == "new-user-" + (Decimal(stamp) + "-" + Decimal(i))
  {
    AppendAssoc("new-user-" + Decimal(stamp), "-", Decimal(i));
    AppendAssoc("new-user-", Decimal(stamp), "-" + Decimal(i));
  }

  /** No new member gets the signed-in user's id. */
  lemma NewMemberNotYou(email: string, stamp: nat, i: nat)
    ensures NewMember(email, stamp, i).id != You.id
  {
    NewMemberId(email, stamp, i);
    assert NewMember(email, stamp, i).id[0] == 'n' != You.id[0];
  }

  /** New members made for different positions get different ids, whatever the clock reads. */
  lemma NewMemberIdsDistinct(e: string, f: string, s: nat, t: nat, i: nat, j: nat)
    requires i != j
    ensures NewMember(e, s, i).id != NewMember(f, t, j).id
  {
    var p := "new-user-";
    var x, y := Decimal(s) + "-" + Decimal(i), Decimal(t) + "-" + Decimal(j);
    NewMemberId(e, s, i);
    NewMemberId(f, t, j);
    if p + x == p + y {
      assert x == (p + x)[|p|..];
      assert y == (p + y)[|p|..];
      StampInjective(s, i, t, j);
    }
  }

  /**
   * A new group has the given name, description and date, the signed-in user
   * first, then one member per address in the given order, each carrying
   * that address and named by the text before its '@'.
   */
  lemma NewGroupMembers(name: string, description: string, emails: seq<string>,
                        now: nat, clock: nat -> nat, today: string)
    ensures var g := NewGroup(name, description, emails, now, clock, today);
      && g.name == name && g.description == description && g.createdAt == today
      && |g.members| == 1 + |emails|
      && g.members[0] == You
      && (forall i :: 0 <= i < |emails| ==>
            g.members[i + 1] == NewMember(emails[i], clock(i), i)
            && g.members[i + 1].email == emails[i]
            && g.members[i + 1].name == BeforeFirst(emails[i], '@')
            && '@' !in g.members[i + 1].name)
  {
    var g := NewGroup(name, description, emails, now, clock, today);
    forall i | 0 <= i < |emails|
      ensures g.members[i + 1] == NewMember(emails[i], clock(i), i)
    {
    }
  }

  /** Member `k` of a new group, past the signed-in user, is made for the address at `k - 1`. */
  lemma NewGroupMemberAt(name: string, description: string, emails: seq<string>,
                         now: nat, clock: nat -> nat, today: string, k: nat)
    requires 0 < k <= |emails|
    ensures var g := NewGroup(name, description, emails, now, clock, today);
      |g.members| == 1 + |emails| && g.members[k] == NewMember(emails[k - 1], clock(k - 1), k - 1)
  {
  }

  /** The member ids of a new group are pairwise distinct, and none is the signed-in user's. */
  lemma NewGroupIdsDistinct(name: string, description: string, emails: seq<string>,
                            now: nat, clock: nat -> nat, today: string)
    ensures var g := NewGroup(name, description, emails, now, clock, today);
      forall i, j :: 0 <= i < j < |g.members| ==> g.members[i].id != g.members[j].id
  {
    var g := NewGroup(name, description, emails, now, clock, today);
    forall i, j | 0 <= i < j < |g.members| ensures g.members[i].id != g.members[j].id {
      NewGroupMemberAt(name, description, emails, now, clock, today, j);
      if i == 0 {
        NewMemberNotYou(emails[j - 1], clock(j - 1), j - 1);
      } else {
        NewGroupMemberAt(name, description, emails, now, clock, today, i);
        NewMemberIdsDistinct(emails[i - 1], emails[j - 1], clock(i - 1), clock(j - 1), i - 1, j - 1);
      }
    }
  }

  /** A new group has no expenses, so it is well formed and suggests no debts. */
  lemma NewGroupNoDebts(name: string, description: string, emails: seq<string>,
                        now: nat, clock: nat -> nat, today: string)
    ensures var g := NewGroup(name, description, emails, now, clock, today);
      g.expenses == [] && WellFormed(g) && Debts(g) == []
  {
    NoExpensesNoDebts(NewGroup(name, description, emails, now, clock, today));
  }

  // ---------------------------------------------------------------------------
  // The page's state

  class Page {
    var groups: seq<Group>
    var searchQuery: string

    /** The page as first shown: the given groups, no search. */
    constructor(initial: seq<Group>)
      ensures groups == initial && searchQuery == ""
    {
      groups := initial;
      searchQuery := "";
    }

    /** The groups the page shows. */
    function Shown(): seq<Group>
      reads this
    {
      FilteredGroups(groups, searchQuery)
    }

    /**
     * `handleCreateGroup`: the new group goes in front, the others follow
     * unchanged, and the page shows it on top exactly when it matches the
     * current search.
     */
    method CreateGroup(name: string, description: string, emails: seq<string>,
                       now: nat, clock: nat -> nat, today: string)
      modifies this
      ensures groups == [NewGroup(name, description, emails, now, clock, today)] + old(groups)
      ensures searchQuery == old(searchQuery)
      ensures Shown() == (if Matches(searchQuery)(groups[0]) then [groups[0]] else []) + old(Shown())
    {
      var newGroup := NewGroup(name, description, emails, now, clock, today);
      FilteredGroupsCons(newGroup, groups, searchQuery);
      groups := [newGroup] + groups;
    }
  }
}
