/**
 * The classmate list at src/app/discover/page.tsx: a search box filtering the loaded matches,
 * a checkbox selection kept in a JavaScript `Set` of user ids, and the Form Squad button that
 * navigates with the selected ids in the query string. A `Set` iterates in insertion order, so
 * it is modelled as a sequence without duplicates.
 */
module DiscoverPage {
  import opened Seqs
  import opened Text

  /** `UserMatch` as the page reads it (the bio and picture are display-only). */
  datatype Match = Match(
    id: string, zid: string, firstName: string, lastName: string, degree: string,
    sharedCourses: seq<string>, sharedTutorials: seq<string>)

  /** Some shared course contains the (already lower-cased) query. */
  predicate CourseMatches(m: Match, q: string) {
    exists i :: 0 <= i < |m.sharedCourses| && Contains(Lower(m.sharedCourses[i]), q)
  }

  /** The search predicate for a non-empty query. */
  predicate MatchesQuery(m: Match, searchQuery: string) {
    var q := Lower(searchQuery);
    || Contains(Lower(m.firstName), q)
    || Contains(Lower(m.lastName), q)
    || Contains(Lower(m.zid), q)
    || Contains(Lower(m.degree), q)
    || CourseMatches(m, q)
  }

  /** `filteredMatches` as the search effect sets it. */
  function SearchResults(matches: seq<Match>, searchQuery: string): (r: seq<Match>)
    ensures searchQuery == "" ==> r == matches
    ensures IsSubseq(r, matches)
    ensures forall i :: 0 <= i < |r| ==> r[i] in matches && MatchesQuery(r[i], searchQuery)
    ensures forall i :: 0 <= i < |matches| && MatchesQuery(matches[i], searchQuery) ==> matches[i] in r
  {
    if searchQuery == "" then
      EmptyQueryShortcut(matches);
      FilterIsSubseq(matches, (m: Match) => MatchesQuery(m, ""));
      matches
    else
      FilterIsSubseq(matches, (m: Match) => MatchesQuery(m, searchQuery));
      Filter(matches, (m: Match) => MatchesQuery(m, searchQuery))
  }

  /** The empty query occurs in every first name, so filtering by it would keep everything. */
  lemma EmptyQueryMatchesEverything(matches: seq<Match>)
    ensures forall i :: 0 <= i < |matches| ==> MatchesQuery(matches[i], "")
  {
    forall i | 0 <= i < |matches| ensures MatchesQuery(matches[i], "") {
      assert OccursAt(Lower(matches[i].firstName), "", 0);
    }
  }

  /** The effect's early return for an empty query agrees with running its filter. */
  lemma EmptyQueryShortcut(matches: seq<Match>)
    ensures matches == Filter(matches, (m: Match) => MatchesQuery(m, ""))
  {
    EmptyQueryMatchesEverything(matches);
    FilterAll(matches, (m: Match) => MatchesQuery(m, ""));
  }

  /** What `handleFormSquad` does. */
  datatype FormSquadAction = NoUsersToast | Navigate(path: string)

  const CreatePath := "/squad/create?users="

  class Discover {
    var isLoading: bool
    var matches: seq<Match>
    var filteredMatches: seq<Match>
    var searchQuery: string
    var selectedUsers: seq<string>

    /** The search effect has run on the current matches and query; the `Set` has no repeats. */
    ghost predicate Valid()
      reads this
    {
      filteredMatches == SearchResults(matches, searchQuery) && NoDups(selectedUsers)
    }

    constructor()
      ensures Valid()
      ensures isLoading && matches == [] && filteredMatches == [] && searchQuery == "" && selectedUsers == []
    {
      isLoading := true;
      matches := [];
      filteredMatches := [];
      searchQuery := "";
      selectedUsers := [];
    }

    /** `loadData` after `findClassmates` succeeded; the search effect then re-runs. */
    method Loaded(data: seq<Match>)
      requires Valid()
      modifies this
      ensures Valid()
      ensures matches == data && !isLoading
      ensures searchQuery == old(searchQuery) && selectedUsers == old(selectedUsers)
    {
      matches := data;
      filteredMatches := SearchResults(data, searchQuery);
      isLoading := false;
    }

    /** `loadData` when finding classmates failed or threw: only the loading flag changes. */
    method LoadFailed()
      requires Valid()
      modifies this
      ensures Valid()
      ensures !isLoading
      ensures matches == old(matches) && filteredMatches == old(filteredMatches)
      ensures searchQuery == old(searchQuery) && selectedUsers == old(selectedUsers)
    {
      isLoading := false;
    }

    /** Typing in the search box; the search effect then re-runs. */
    method SetSearchQuery(query: string)
      requires Valid()
      modifies this
      ensures Valid()
      ensures searchQuery == query
      ensures query == "" ==> filteredMatches == matches
      ensures matches == old(matches) && selectedUsers == old(selectedUsers) && isLoading == old(isLoading)
    {
      searchQuery := query;
      if query == "" {
        filteredMatches := matches;
        return;
      }
      filteredMatches := Filter(matches, (m: Match) => MatchesQuery(m, query));
    }

    /** `toggleUserSelection(userId)`: delete the id from a copy of the set, or add it. */
    method ToggleUserSelection(userId: string)
      requires Valid()
      modifies this
      ensures Valid()
      ensures userId in selectedUsers <==> userId !in old(selectedUsers)
      ensures forall id :: id != userId ==> (id in selectedUsers <==> id in old(selectedUsers))
      ensures selectedUsers == Toggled(old(selectedUsers), userId)
      ensures matches == old(matches) && filteredMatches == old(filteredMatches)
      ensures searchQuery == old(searchQuery) && isLoading == old(isLoading)
    {
      ToggledNoDups(selectedUsers, userId);
      selectedUsers := Toggled(selectedUsers, userId);
    }

    /** `handleFormSquad`: a toast for an empty selection, otherwise the create page URL. */
    function FormSquad(): (r: FormSquadAction)
      reads this
      ensures r.NoUsersToast? <==> |selectedUsers| == 0
      ensures r.Navigate? ==> StartsWith(r.path, CreatePath)
    {
      if |selectedUsers| == 0 then NoUsersToast
      else Navigate(CreatePath + Join(selectedUsers, ','))
    }
  }

  /** Toggling the same id twice gives back the same set (the id may move to the end). */
  lemma {:induction false} ToggleTwiceSameSet(s: seq<string>, id: string)
    ensures (set x | x in Toggled(Toggled(s, id), id)) == (set x | x in s)
  {
    var t := Toggled(Toggled(s, id), id);
    forall x ensures x in t <==> x in s {
      if x != id {
        if x in s {
          var i :| 0 <= i < |s| && s[i] == x;
          var u := Toggled(s, id);
          var j :| 0 <= j < |u| && u[j] == x;
        }
        if x in t {
          var i :| 0 <= i < |t| && t[i] == x;
          var u := Toggled(s, id);
          var j :| 0 <= j < |u| && u[j] == x;
        }
      }
    }
  }

  /**
   * The ids travel in the URL in insertion order: the text after the prefix, split at commas,
   * gives back the selection, as long as no id contains a comma (user ids are UUIDs).
   */
  lemma FormSquadRoundTrip(page: Discover)
    requires |page.selectedUsers| > 0
    requires forall k :: 0 <= k < |page.selectedUsers| ==> ',' !in page.selectedUsers[k]
    ensures page.FormSquad().Navigate?
    ensures Split(page.FormSquad().path[|CreatePath|..], ',') == page.selectedUsers
  {
    var path := page.FormSquad().path;
    assert path[|CreatePath|..] == Join(page.selectedUsers, ',');
    SplitJoin(page.selectedUsers, ',');
  }
}
