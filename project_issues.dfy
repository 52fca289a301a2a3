/**
 * The filter chain of the project `issues` action (ProjectViewSet.issues in projects/views.py):
 * optional status, priority and search parameters applied to the project's issues.
 */
module ProjectIssues {
  import opened Common
  import opened Issues

  /** The query string of the action; an absent parameter is None. */
  datatype IssueFilters = IssueFilters(status: Option<string>, priority: Option<string>, search: Option<string>)

  /**
   * The chain as the view writes it: each parameter that is present and non-empty narrows the
   * queryset; search keeps the union of the title and description matches.
   */
  function ApplyFilters(rows: seq<Issue>, f: IssueFilters): seq<Issue> {
    var byStatus := if Given(f.status) then Where(rows, Only(StatusIs(f.status.value))) else rows;
    var byPriority := if Given(f.priority) then Where(byStatus, Only(PriorityIs(f.priority.value))) else byStatus;
    if Given(f.search) then Where(byPriority, Either(TitleContains(f.search.value), DescriptionContains(f.search.value)))
    else byPriority
  }

  /** The reference predicate: every given filter holds, and search matches title or description. */
  predicate Matches(i: Issue, f: IssueFilters) {
    (Given(f.status) ==> i.status == f.status.value) &&
    (Given(f.priority) ==> i.priority == f.priority.value) &&
    (Given(f.search) ==> IContains(i.title, f.search.value) || IContains(i.description, f.search.value))
  }

  /** An issue is listed exactly when it is among the rows and matches every given filter (AND across keys). */
  lemma ApplyFiltersExact(rows: seq<Issue>, f: IssueFilters)
    ensures forall i :: i in ApplyFilters(rows, f) <==> i in rows && Matches(i, f)
  {
  }

  /**
   * A search alone keeps exactly the rows in whose title or description the term occurs at some
   * position, ignoring case: the recursive `IContains` agrees with the positional reference.
   */
  lemma SearchFindsOccurrence(rows: seq<Issue>, term: string, i: Issue)
    requires term != ""
    ensures i in ApplyFilters(rows, IssueFilters(None, None, Some(term))) <==>
      i in rows && (IOccurs(i.title, term) || IOccurs(i.description, term))
  {
    ApplyFiltersExact(rows, IssueFilters(None, None, Some(term)));
    IContainsIffIOccurs(i.title, term);
    IContainsIffIOccurs(i.description, term);
  }

  /** Filtering only removes rows. */
  lemma ApplyFiltersShrinks(rows: seq<Issue>, f: IssueFilters)
    ensures |ApplyFilters(rows, f)| <= |rows|
    ensures forall i :: i in ApplyFilters(rows, f) ==> i in rows
  {
  }

  /** The result stays newest first. */
  lemma ApplyFiltersPreservesOrder(rows: seq<Issue>, f: IssueFilters)
    requires NewestFirst(rows)
    ensures NewestFirst(ApplyFilters(rows, f))
  {
    var byStatus := if Given(f.status) then Where(rows, Only(StatusIs(f.status.value))) else rows;
    WherePreservesOrder(rows, Only(StatusIs(f.status.GetOr(""))));
    var byPriority := if Given(f.priority) then Where(byStatus, Only(PriorityIs(f.priority.value))) else byStatus;
    WherePreservesOrder(byStatus, Only(PriorityIs(f.priority.GetOr(""))));
    WherePreservesOrder(byPriority, Either(TitleContains(f.search.GetOr("")), DescriptionContains(f.search.GetOr(""))));
  }

  /** Absent and empty parameters impose nothing. */
  lemma EmptyParametersNeutral(rows: seq<Issue>, f: IssueFilters)
    requires !Given(f.status) && !Given(f.priority) && !Given(f.search)
    ensures ApplyFilters(rows, f) == rows
  {
  }

  /** A status filter alone yields exactly the rows with that status, in order. */
  lemma StatusOnly(rows: seq<Issue>, status: string)
    requires status != ""
    ensures ApplyFilters(rows, IssueFilters(Some(status), None, None)) == Where(rows, Only(StatusIs(status)))
  {
  }

  /** With a status filter the rows of any other status are left out (open vs closed split the rows). */
  lemma StatusSplits(rows: seq<Issue>, s: string, t: string)
    requires s != "" && t != "" && s != t
    ensures forall i :: i in ApplyFilters(rows, IssueFilters(Some(s), None, None)) ==>
                        i !in ApplyFilters(rows, IssueFilters(Some(t), None, None))
  {
  }

  /** Applying the same filters to the result changes nothing. */
  lemma {:induction false} ApplyFiltersIdempotent(rows: seq<Issue>, f: IssueFilters)
    ensures ApplyFilters(ApplyFilters(rows, f), f) == ApplyFilters(rows, f)
  {
    var s := Only(StatusIs(f.status.GetOr("")));
    var p := Only(PriorityIs(f.priority.GetOr("")));
    var q := Either(TitleContains(f.search.GetOr("")), DescriptionContains(f.search.GetOr("")));
    var once := ApplyFilters(rows, f);
    forall i | i in once ensures Matches(i, f) {
      ApplyFiltersExact(rows, f);
    }
    ApplyFiltersExact(once, f);
    // every row of `once` passes each given filter, so each step of the second pass keeps all of it
    var a := if Given(f.status) then Where(once, s) else once;
    if Given(f.status) { WhereAll(once, s); }
    var b := if Given(f.priority) then Where(a, p) else a;
    if Given(f.priority) { WhereAll(a, p); }
    if Given(f.search) { WhereAll(b, q); }
  }
}
