/**
 * The patient list page: `filterUsers` narrows the fetched users by a search term and a role
 * choice, and the stats cards count the users of each role. Both are pure functions of the
 * list; the lemmas say the filter keeps, in order and without duplicates, exactly the users
 * that pass both tests.
 */
module UserList {
  import opened Wrappers
  import opened JsText
  import opened QrController

  /** The role selector: `'ALL'`, or one of the two roles. */
  datatype RoleChoice = AllRoles | OnlyRole(role: Role)

  /**
   * The search test: the lower-cased name or blood type contains the lower-cased term, or
   * the phone contains the term as typed.
   */
  predicate MatchesSearch(u: User, term: string)
  {
    || Includes(ToLower(u.name), ToLower(term))
    || Includes(u.phone, term)
    || Includes(ToLower(u.blood), ToLower(term))
  }

  /** `users.filter(user => <search test>)`. */
  function SearchFilter(users: seq<User>, term: string): seq<User>
  {
    if users == [] then []
    else (if MatchesSearch(users[0], term) then [users[0]] else []) + SearchFilter(users[1..], term)
  }

  /** `users.filter(user => user.role === role)`. */
  function RoleFilter(users: seq<User>, role: Role): seq<User>
  {
    if users == [] then []
    else (if users[0].role == role then [users[0]] else []) + RoleFilter(users[1..], role)
  }

  /** `filterUsers`: the search applies only to a non-empty term, the role test only to a role. */
  function FilterUsers(users: seq<User>, term: string, choice: RoleChoice): seq<User>
  {
    var bySearch := if term != "" then SearchFilter(users, term) else users;
    match choice
    case AllRoles => bySearch
    case OnlyRole(role) => RoleFilter(bySearch, role)
  }

  /** Whether one user is shown: it passes the search (if any) and the role choice (if any). */
  predicate Passes(u: User, term: string, choice: RoleChoice)
  {
    (term == "" || MatchesSearch(u, term)) && (choice.AllRoles? || u.role == choice.role)
  }

  /** The reference selection: the users that pass, in their original order. */
  function Select(users: seq<User>, term: string, choice: RoleChoice): seq<User>
  {
    if users == [] then []
    else (if Passes(users[0], term, choice) then [users[0]] else []) + Select(users[1..], term, choice)
  }

  /** The two chained filters select exactly the users that pass both tests. */
  lemma {:induction false} FilterUsersIsSelect(users: seq<User>, term: string, choice: RoleChoice)
    ensures FilterUsers(users, term, choice) == Select(users, term, choice)
  {
    if users != [] {
      FilterUsersIsSelect(users[1..], term, choice);
      if term != "" && choice.OnlyRole? {
        RoleFilterDistributes(SearchFilter(users[..1], term), SearchFilter(users[1..], term), choice.role);
        assert SearchFilter(users[..1], term) == if MatchesSearch(users[0], term) then [users[0]] else [];
      } else if choice.OnlyRole? {
        RoleFilterDistributes(users[..1], users[1..], choice.role);
        assert users == users[..1] + users[1..];
      }
    }
  }

  lemma {:induction false} RoleFilterDistributes(a: seq<User>, b: seq<User>, role: Role)
    ensures RoleFilter(a + b, role) == RoleFilter(a, role) + RoleFilter(b, role)
  {
    if a != [] {
      assert (a + b)[1..] == a[1..] + b;
      RoleFilterDistributes(a[1..], b, role);
    } else {
      assert a + b == b;
    }
  }

  /** The selection is a subsequence of the users: nothing added, duplicated or reordered. */
  lemma {:induction false} SelectIsSubsequence(users: seq<User>, term: string, choice: RoleChoice)
    ensures IsSubsequence(Select(users, term, choice), users)
  {
    if users != [] {
      SelectIsSubsequence(users[1..], term, choice);
      var rest := Select(users[1..], term, choice);
      if Passes(users[0], term, choice) {
        assert Select(users, term, choice) == [users[0]] + rest;
        assert ([users[0]] + rest)[1..] == rest;
      } else {
        assert Select(users, term, choice) == rest;
      }
    }
  }

  /** A user is selected exactly when it is in the list and passes both tests. */
  lemma {:induction false} SelectMembers(users: seq<User>, term: string, choice: RoleChoice, x: User)
    ensures x in Select(users, term, choice) <==> x in users && Passes(x, term, choice)
  {
    if users != [] {
      SelectMembers(users[1..], term, choice, x);
      assert users == [users[0]] + users[1..];
    }
  }

  /** Selecting again from a selection changes nothing. */
  lemma {:induction false} SelectIdempotent(users: seq<User>, term: string, choice: RoleChoice)
    ensures Select(Select(users, term, choice), term, choice) == Select(users, term, choice)
  {
    if users != [] {
      SelectIdempotent(users[1..], term, choice);
      var rest := Select(users[1..], term, choice);
      if Passes(users[0], term, choice) {
        var s := [users[0]] + rest;
        assert s[0] == users[0] && s[1..] == rest;
        assert Select(users, term, choice) == s;
        assert Select(s, term, choice) == [users[0]] + Select(rest, term, choice);
      } else {
        assert Select(users, term, choice) == rest;
      }
    }
  }

  /**
   * What the patient table shows: the users that pass the search and role tests, in the order
   * fetched, each as often as in the fetched list; with a role chosen, only users of that role.
   */
  lemma FilterUsersSelects(users: seq<User>, term: string, choice: RoleChoice)
    ensures IsSubsequence(FilterUsers(users, term, choice), users)
    ensures multiset(FilterUsers(users, term, choice)) <= multiset(users)
    ensures forall x :: x in FilterUsers(users, term, choice) <==> x in users && Passes(x, term, choice)
    ensures choice.OnlyRole? ==> forall x :: x in FilterUsers(users, term, choice) ==> x.role == choice.role
  {
    FilterUsersIsSelect(users, term, choice);
    SelectIsSubsequence(users, term, choice);
    SubsequenceMultiset(Select(users, term, choice), users);
    forall x ensures x in Select(users, term, choice) <==> x in users && Passes(x, term, choice) {
      SelectMembers(users, term, choice, x);
    }
  }

  /** With an empty term and every role, the whole list is shown. */
  lemma FilterNothing(users: seq<User>)
    ensures FilterUsers(users, "", AllRoles) == users
  {
  }

  /** Filtering the filtered list again with the same term and role gives the same list. */
  lemma FilterUsersIdempotent(users: seq<User>, term: string, choice: RoleChoice)
    ensures FilterUsers(FilterUsers(users, term, choice), term, choice) == FilterUsers(users, term, choice)
  {
    FilterUsersIsSelect(users, term, choice);
    FilterUsersIsSelect(FilterUsers(users, term, choice), term, choice);
    SelectIdempotent(users, term, choice);
  }

  /** An empty term matches every user, so the `if (searchTerm)` guard only saves work. */
  lemma EmptyTermMatchesEveryone(u: User)
    ensures MatchesSearch(u, "")
  {
    assert StartsWith(u.phone, "");
  }

  /**
   * The search ignores the case of letters in the name and blood type, but not in the phone:
   * users that agree on those up to case, and on the phone exactly, match the same terms.
   */
  lemma SearchIgnoresLetterCase(u: User, v: User, term: string)
    requires ToLower(u.name) == ToLower(v.name) && ToLower(u.blood) == ToLower(v.blood)
    requires u.phone == v.phone
    ensures MatchesSearch(u, term) <==> MatchesSearch(v, term)
  {
  }

  /** The count on a stats card: `users.filter(u => u.role === role).length`. */
  function CountRole(users: seq<User>, role: Role): nat
  {
    |RoleFilter(users, role)|
  }

  /** Every user has one of the two roles, so the two role cards add up to the total card. */
  lemma {:induction false} RoleCountsAddUp(users: seq<User>)
    ensures CountRole(users, Emergency) + CountRole(users, Full) == |users|
  {
    if users != [] {
      RoleCountsAddUp(users[1..]);
    }
  }

  /** A role card counts exactly the users the list shows for that role and an empty search. */
  lemma RoleCountIsFilterSize(users: seq<User>, role: Role)
    ensures CountRole(users, role) == |FilterUsers(users, "", OnlyRole(role))|
  {
  }
}
