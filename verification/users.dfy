/**
  The users listing: the fetched page of users, kept whole without a search term
  and otherwise narrowed to the users whose name or email holds the term in any
  letter case.
 */
module Users {
  import opened Common
  import Text
  import Seqs

  /** A user as the listing maps it; the password hash is never selected. */
  datatype User = User(id: string, name: string, email: string, role: string, status: string, createdAt: int)

  /** Name or email holds the query, all three lower-cased. */
  predicate MatchesSearch(u: User, q: string)
  {
    Text.Contains(Text.Lower(u.name), Text.Lower(q)) || Text.Contains(Text.Lower(u.email), Text.Lower(q))
  }

  /** `if (search)`: a missing or empty parameter leaves the list alone. */
  function SearchUsers(users: seq<User>, search: Option<string>): (r: seq<User>)
    ensures Seqs.IsSubsequence(r, users)
  {
    if search.None? || search == Some("") then
      Seqs.SubsequenceOfItself(users);
      users
    else Seqs.Filter(users, (u: User) => MatchesSearch(u, search.value))
  }

  /** Without a search term the mapped list is returned as fetched. */
  lemma NoSearchUnchanged(users: seq<User>)
    ensures SearchUsers(users, None) == users && SearchUsers(users, Some("")) == users
  {
  }

  /** A user is listed iff fetched and matching the search term. */
  lemma SearchMeaning(users: seq<User>, q: string, u: User)
    requires q != ""
    ensures u in SearchUsers(users, Some(q)) <==> u in users && MatchesSearch(u, q)
  {
    var r := SearchUsers(users, Some(q));
    if u in users && MatchesSearch(u, q) {
      var k :| 0 <= k < |users| && users[k] == u;
    }
    if u in r {
      var k :| 0 <= k < |r| && r[k] == u;
    }
  }

  /** Two queries that differ only in letter case list the same users, in the same order. */
  lemma CaseInsensitive(users: seq<User>, q1: string, q2: string)
    requires q1 != "" && q2 != "" && Text.Lower(q1) == Text.Lower(q2)
    ensures SearchUsers(users, Some(q1)) == SearchUsers(users, Some(q2))
  {
    Seqs.FilterSame(users, (u: User) => MatchesSearch(u, q1), (u: User) => MatchesSearch(u, q2));
  }

  /** `"ABC"` and `"abc"` select the same users. */
  lemma UpperAndLowerQuery(users: seq<User>)
    ensures SearchUsers(users, Some("ABC")) == SearchUsers(users, Some("abc"))
  {
    assert Text.Lower("ABC") == "abc";
    assert Text.Lower("abc") == "abc";
    CaseInsensitive(users, "ABC", "abc");
  }
}
