/**
 * The member-email entry of the "Create Group" dialog
 * (src/components/groups/CreateGroupDialog.tsx): the typed address is
 * trimmed and lower-cased, checked against the e-mail shape and against the
 * list, and appended; entries can be removed; submitting hands the trimmed
 * name, the trimmed description and the list to the page and resets the form.
 */
module CreateGroupDialog {
  import opened Wrappers
  import opened Seqs
  import opened Text

  /** A character of the classes `[^\s@]`: neither white space nor '@'. */
  predicate Plain(c: char) {
    !IsSpace(c) && c != '@'
  }

  /** Every character of `s` except the one at `i` is plain. */
  predicate PlainExcept(s: string, i: int) {
    forall j | 0 <= j < |s| :: j == i || Plain(s[j])
  }

  /**
   * The shape `^[^\s@]+@[^\s@]+\.[^\s@]+$`: one '@' that is not the first
   * character, with a '.' after it that is neither right after the '@' nor
   * the last character, and otherwise neither white space nor '@'.
   */
  predicate EmailShape(s: string) {
    exists i, k | 0 < i < k < |s| - 1 :: s[i] == '@' && s[k] == '.' && i + 1 < k && PlainExcept(s, i)
  }

  /** What `handleAddMember` checks: `memberEmail.trim().toLowerCase()`. */
  function Normalize(s: string): (r: string)
    ensures IsLowerCase(r)
    ensures r == [] || (!IsSpace(r[0]) && !IsSpace(r[|r| - 1]))
    ensures |r| <= |s|
  {
    ToLowerIsLowerCase(Trim(s));
    ToLower(Trim(s))
  }

  /** An entry the list may hold: a well-shaped lower-case address. */
  predicate Admissible(e: string) {
    EmailShape(e) && IsLowerCase(e)
  }

  /** The test `e => e !== x`. */
  function Other(x: string): string -> bool {
    y => y != x
  }

  /** `memberEmails.filter(e => e !== email)`. */
  function Without(s: seq<string>, x: string): (r: seq<string>)
    ensures x !in r
    ensures forall y :: y != x ==> (y in r <==> y in s)
    ensures |r| <= |s|
  {
    Filter(s, Other(x))
  }

  // ---------------------------------------------------------------------------
  // Properties of the e-mail shape and of the normalisation

  /**
   * A well-shaped address has at least five characters, no white space, and
   * exactly one '@', which is neither its first nor its last character.
   */
  lemma EmailShapeFacts(s: string)
    requires EmailShape(s)
    ensures |s| >= 5
    ensures forall j :: 0 <= j < |s| ==> !IsSpace(s[j])
    ensures '@' in s && s[0] != '@' && s[|s| - 1] != '@'
    ensures forall j, j' :: 0 <= j < j' < |s| && s[j] == '@' ==> s[j'] != '@'
  {
    var i, k :| 0 < i < k < |s| - 1 && s[i] == '@' && s[k] == '.' && i + 1 < k && PlainExcept(s, i);
    assert Plain(s[0]) && Plain(s[|s| - 1]);
    forall j | 0 <= j < |s| ensures !IsSpace(s[j]) {
      if j != i {
        assert Plain(s[j]);
      }
    }
  }

  /**
   * The normalised address is the typed text with the white space at both
   * ends cut off, lower-cased: a slice `s[a..b]` with only white space before
   * and after it, and none at its own ends.
   */
  lemma NormalizeContent(s: string)
    ensures exists a, b | 0 <= a <= b <= |s| ::
      && (forall k | 0 <= k < a :: IsSpace(s[k]))
      && (forall k | b <= k < |s| :: IsSpace(s[k]))
      && (a < b ==> !IsSpace(s[a]) && !IsSpace(s[b - 1]))
      && Normalize(s) == ToLower(s[a..b])
  {
    var a := |s| - |TrimStart(s)|;
    var b := a + |Trim(s)|;
    TrimSlice(s, a, b);
    assert a < b ==> s[a] == Trim(s)[0] && s[b - 1] == Trim(s)[|Trim(s)| - 1];
  }

  /** Normalising twice is normalising once. */
  lemma NormalizeIdempotent(s: string)
    ensures Normalize(Normalize(s)) == Normalize(s)
  {
    var n := Normalize(s);
    TrimOfTrimmed(n);
    ToLowerOfLowerCase(n);
  }

  /** An entry of the list normalises to itself, so typing it again finds it in the list. */
  lemma AdmissibleIsNormal(e: string)
    requires Admissible(e)
    ensures Normalize(e) == e
  {
    EmailShapeFacts(e);
    TrimOfSpaceless(e);
    ToLowerOfLowerCase(e);
  }

  /** The shape accepts `a@b.c` and also `a@.c.d`, where the '.' that matters is the second one. */
  lemma EmailShapeAccepts()
    ensures EmailShape("a@b.c")
    ensures EmailShape("a@.c.d")
  {
    var s, t := "a@b.c", "a@.c.d";
    assert PlainExcept(s, 1);
    assert s[1] == '@' && s[3] == '.';
    assert PlainExcept(t, 1);
    assert t[1] == '@' && t[4] == '.';
  }

  /** The shape refuses an address without a dot after the '@', and one with two '@'. */
  lemma EmailShapeRejects()
    ensures !EmailShape("a@b")
    ensures !EmailShape("a@b@c.d")
    ensures !EmailShape("a@b.")
  {
    var t := "a@b@c.d";
    forall i, k | 0 < i < k < |t| - 1 && t[i] == '@' && t[k] == '.' && i + 1 < k
      ensures !PlainExcept(t, i)
    {
      if i == 1 {
        assert !Plain(t[3]);
      } else {
        assert !Plain(t[1]);
      }
    }
  }

  // ---------------------------------------------------------------------------
  // Properties of removal

  /** Removing an address that is not in the list changes nothing. */
  lemma WithoutAbsent(s: seq<string>, x: string)
    requires x !in s
    ensures Without(s, x) == s
  {
    FilterAll(s, Other(x));
  }

  /** In a list without duplicates, the entry at `k` occurs neither before nor after `k`. */
  lemma UniqueAt(s: seq<string>, k: nat)
    requires NoDuplicates(s) && k < |s|
    ensures s[k] !in s[..k] && s[k] !in s[k + 1..]
  {
  }

  /** Removing the one occurrence of `x` from `a + [x] + b` leaves `a + b`. */
  lemma WithoutSplit(a: seq<string>, x: string, b: seq<string>)
    requires x !in a && x !in b
    ensures Without((a + [x]) + b, x) == a + b
  {
    var p := Other(x);
    FilterAll(a, p);
    FilterAll(b, p);
    assert Filter([x], p) == [];
    FilterAppend(a, [x], p);
    assert Filter(a + [x], p) == a;
    FilterAppend(a + [x], b, p);
  }

  /** In a list without duplicates, removing the entry at `k` keeps all the others in order. */
  lemma WithoutAt(s: seq<string>, k: nat)
    requires NoDuplicates(s) && k < |s|
    ensures Without(s, s[k]) == s[..k] + s[k + 1..]
  {
    UniqueAt(s, k);
    assert s == (s[..k] + [s[k]]) + s[k + 1..];
    WithoutSplit(s[..k], s[k], s[k + 1..]);
  }

  /** Removal keeps a list free of duplicates. */
  lemma WithoutNoDuplicates(s: seq<string>, x: string)
    requires NoDuplicates(s)
    ensures NoDuplicates(Without(s, x))
  {
    FilterNoDuplicates(s, Other(x));
  }

  // ---------------------------------------------------------------------------
  // The dialog's state

  /** Why `handleAddMember` did or did not append. */
  datatype AddOutcome = Added | Blank | InvalidEmail | AlreadyAdded

  /** The arguments of `onCreateGroup`. */
  datatype Submission = Submission(name: string, description: string, memberEmails: seq<string>)

  class Dialog {
    var open: bool
    var name: string
    var description: string
    var memberEmail: string
    var memberEmails: seq<string>

    /** The list holds no duplicates, and only well-shaped lower-case addresses. */
    ghost predicate Valid()
      reads this
    {
      NoDuplicates(memberEmails) && forall i :: 0 <= i < |memberEmails| ==> Admissible(memberEmails[i])
    }

    /** The initial state: closed, every field empty. */
    constructor()
      ensures Valid()
      ensures !open && name == "" && description == "" && memberEmail == "" && memberEmails == []
    {
      open, name, description, memberEmail, memberEmails := false, "", "", "", [];
    }

    /**
     * `handleAddMember`: a blank, badly shaped or already listed normalised
     * address leaves the state alone; any other is appended and the input
     * field cleared.
     */
    method AddMember() returns (outcome: AddOutcome)
      requires Valid()
      modifies this
      ensures Valid()
      ensures var email := Normalize(old(memberEmail));
        && (email == "" ==> outcome == Blank)
        && (email != "" && !EmailShape(email) ==> outcome == InvalidEmail)
        && (email != "" && EmailShape(email) && email in old(memberEmails) ==> outcome == AlreadyAdded)
        && (email != "" && EmailShape(email) && email !in old(memberEmails) ==> outcome == Added)
        && (outcome == Added ==> memberEmails == old(memberEmails) + [email] && memberEmail == "")
      ensures outcome != Added ==> memberEmails == old(memberEmails) && memberEmail == old(memberEmail)
      ensures open == old(open) && name == old(name) && description == old(description)
    {
      var email := Normalize(memberEmail);
      if email == "" {
        return Blank;
      }
      if !EmailShape(email) {
        return InvalidEmail;
      }
      if email in memberEmails {
        return AlreadyAdded;
      }
      memberEmails := memberEmails + [email];
      memberEmail := "";
      outcome := Added;
    }

    /** `handleRemoveMember`: every occurrence of `email` leaves the list. */
    method RemoveMember(email: string)
      requires Valid()
      modifies this
      ensures Valid()
      ensures memberEmails == Without(old(memberEmails), email)
      ensures open == old(open) && name == old(name) && description == old(description)
      ensures memberEmail == old(memberEmail)
    {
      WithoutNoDuplicates(memberEmails, email);
      memberEmails := Without(memberEmails, email);
    }

    /**
     * `handleSubmit`: a blank trimmed name changes nothing; otherwise the
     * trimmed name, the trimmed description and the list are handed over,
     * name, description and list are cleared and the dialog closes. The
     * half-typed address in the input field is kept.
     */
    method Submit() returns (submitted: Option<Submission>)
      requires Valid()
      modifies this
      ensures Valid()
      ensures Trim(old(name)) == "" ==>
        && submitted == None
        && open == old(open) && name == old(name) && description == old(description)
        && memberEmails == old(memberEmails)
      ensures Trim(old(name)) != "" ==>
        && submitted == Some(Submission(Trim(old(name)), Trim(old(description)), old(memberEmails)))
        && !open && name == "" && description == "" && memberEmails == []
      ensures memberEmail == old(memberEmail)
    {
      var trimmed := Trim(name);
      if trimmed == "" {
        return None;
      }
      submitted := Some(Submission(trimmed, Trim(description), memberEmails));
      name := "";
      description := "";
      memberEmails := [];
      open := false;
    }
  }
}
