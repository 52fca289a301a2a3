/**
 * Issues: the row, its choice lists and defaults, IssueSerializer's validation, and the
 * queryset filters the views apply (issues/models.py, issues/serializers.py, issues/views.py).
 */
module Issues {
  import opened Common

  /**
   * An issue row. `status` and `priority` are stored as strings: `update_status` writes
   * whatever value the client sent, so a row can hold a status outside STATUS_CHOICES.
   */
  datatype Issue = Issue(
    id: nat,
    title: string,
    description: string,
    status: string,
    priority: string,
    project: nat,
    reporter: Option<nat>,
    assignee: Option<nat>,
    createdAt: nat,
    updatedAt: nat)

  const STATUS_CHOICES: seq<(string, string)> := [("open", "Open"), ("in_progress", "In Progress"), ("closed", "Closed")]
  const PRIORITY_CHOICES: seq<(string, string)> :=
    [("low", "Low"), ("medium", "Medium"), ("high", "High"), ("critical", "Critical")]
  const DEFAULT_STATUS := "open"
  const DEFAULT_PRIORITY := "medium"
  const TITLE_MAX_LENGTH: nat := 255

  /** `[choice[0] for choice in choices]` */
  function Codes(choices: seq<(string, string)>): (r: seq<string>)
    ensures |r| == |choices|
    ensures forall k :: 0 <= k < |choices| ==> r[k] == choices[k].0
  {
    if choices == [] then [] else [choices[0].0] + Codes(choices[1..])
  }

  lemma StatusCodes()
    ensures Codes(STATUS_CHOICES) == ["open", "in_progress", "closed"]
    ensures Join(Codes(STATUS_CHOICES), ", ") == "open, in_progress, closed"
  {
    var codes := ["open", "in_progress", "closed"];
    assert Codes(STATUS_CHOICES) == codes;
    assert codes[1..][1..] == ["closed"];
    assert Join(codes[1..], ", ") == "in_progress" + ", " + "closed";
    assert "open" + ", " + ("in_progress" + ", " + "closed") == "open, in_progress, closed";
  }

  lemma PriorityCodes()
    ensures Codes(PRIORITY_CHOICES) == ["low", "medium", "high", "critical"]
    ensures Join(Codes(PRIORITY_CHOICES), ", ") == "low, medium, high, critical"
  {
    var codes := ["low", "medium", "high", "critical"];
    assert Codes(PRIORITY_CHOICES) == codes;
    assert codes[1..][1..][1..] == ["critical"];
    assert Join(codes[1..][1..], ", ") == "high" + ", " + "critical";
    assert Join(codes[1..], ", ") == "medium" + ", " + ("high" + ", " + "critical");
    assert "low" + ", " + ("medium" + ", " + ("high" + ", " + "critical")) == "low, medium, high, critical";
  }

  lemma DefaultsAreChoices()
    ensures DEFAULT_STATUS in Codes(STATUS_CHOICES) && DEFAULT_PRIORITY in Codes(PRIORITY_CHOICES)
  {
    StatusCodes();
    PriorityCodes();
  }

  /** The body shared by `validate_status` and `validate_priority`. */
  function ValidateChoice(kind: string, choices: seq<(string, string)>, value: string): (r: Result<string, string>)
    ensures r.Ok? <==> value in Codes(choices)
    ensures r.Ok? ==> r.value == value
    ensures r.Err? ==> r.error == "Invalid " + kind + ". Must be one of: " + Join(Codes(choices), ", ")
  {
    var valid := Codes(choices);
    if value !in valid then Err("Invalid " + kind + ". Must be one of: " + Join(valid, ", ")) else Ok(value)
  }

  function ValidateStatus(value: string): (r: Result<string, string>)
    ensures r.Ok? <==> value in {"open", "in_progress", "closed"}
    ensures r.Ok? ==> r.value == value
    ensures r.Err? ==> r.error == "Invalid " + "status" + ". Must be one of: " + "open, in_progress, closed"
  {
    StatusCodes();
    ValidateChoice("status", STATUS_CHOICES, value)
  }

  function ValidatePriority(value: string): (r: Result<string, string>)
    ensures r.Ok? <==> value in {"low", "medium", "high", "critical"}
    ensures r.Ok? ==> r.value == value
    ensures r.Err? ==> r.error == "Invalid " + "priority" + ". Must be one of: " + "low, medium, high, critical"
  {
    PriorityCodes();
    ValidateChoice("priority", PRIORITY_CHOICES, value)
  }

  /**
   * An issue request body. `assignee` is None when absent, Some(None) for an explicit null.
   * `reporter` is whatever the client sent for the read-only field; it is never read.
   */
  datatype IssuePayload = IssuePayload(
    title: Option<string>,
    description: Option<string>,
    status: Option<string>,
    priority: Option<string>,
    project: Option<nat>,
    assignee: Option<Option<nat>>,
    reporter: Option<nat>)

  /** The validated writable fields: those present in the body. */
  datatype IssueChanges = IssueChanges(
    title: Option<string>,
    description: Option<string>,
    status: Option<string>,
    priority: Option<string>,
    project: Option<nat>,
    assignee: Option<Option<nat>>)

  function ChoiceErrors(field: string, value: Option<string>, check: string -> Result<string, string>): (errs: seq<FieldError>)
    ensures errs == [] <==> value.None? || check(value.value).Ok?
  {
    if value.Some? && check(value.value).Err? then [FieldError(field, check(value.value).error)] else []
  }

  function AssigneeErrors(value: Option<Option<nat>>, users: set<nat>): (errs: seq<FieldError>)
    ensures errs == [] <==> (value.Some? && value.value.Some? ==> value.value.value in users)
  {
    if value.Some? then PrimaryKeyErrors("assignee", value.value, false, users) else []
  }

  /**
   * IssueSerializer's validation against the existing project and user ids. Title and
   * description are trimmed and may not be blank; status and priority are choice fields and are
   * not trimmed. `project` is a required field, so a create or full update without it fails
   * even where the view then supplies the project itself.
   */
  function ValidateIssue(body: IssuePayload, partial: bool, projects: set<nat>, users: set<nat>): (r: Result<IssueChanges, seq<FieldError>>)
    ensures r.Err? ==> r.error != []
    ensures r.Ok? ==> r.value == IssueChanges(Cleaned(body.title), Cleaned(body.description), body.status, body.priority, body.project, body.assignee)
    ensures r.Ok? <==>
      (!partial ==> body.title.Some? && body.description.Some? && body.project.Some?) &&
      (body.title.Some? ==> Strip(body.title.value) != "" && |Strip(body.title.value)| <= TITLE_MAX_LENGTH) &&
      (body.description.Some? ==> Strip(body.description.value) != "") &&
      (body.status.Some? ==> body.status.value in {"open", "in_progress", "closed"}) &&
      (body.priority.Some? ==> body.priority.value in {"low", "medium", "high", "critical"}) &&
      (body.project.Some? ==> body.project.value in projects) &&
      (body.assignee.Some? && body.assignee.value.Some? ==> body.assignee.value.value in users)
  {
    var errs := CharFieldErrors("title", body.title, !partial, false, 0, Some(TITLE_MAX_LENGTH))
              + CharFieldErrors("description", body.description, !partial, false, 0, None)
              + ChoiceErrors("status", body.status, ValidateStatus)
              + ChoiceErrors("priority", body.priority, ValidatePriority)
              + PrimaryKeyErrors("project", body.project, !partial, projects)
              + AssigneeErrors(body.assignee, users);
    if errs != [] then Err(errs)
    else Ok(IssueChanges(Cleaned(body.title), Cleaned(body.description), body.status, body.priority, body.project, body.assignee))
  }

  /** An invalid priority is refused however the rest of the body looks. */
  lemma InvalidPriorityRejected(body: IssuePayload, partial: bool, projects: set<nat>, users: set<nat>)
    requires body.priority.Some? && body.priority.value !in {"low", "medium", "high", "critical"}
    ensures ValidateIssue(body, partial, projects, users).Err?
  {
  }

  /** The client's `reporter` never affects validation. */
  lemma ValidateIgnoresReporter(body: IssuePayload, claimed: Option<nat>, partial: bool, projects: set<nat>, users: set<nat>)
    ensures ValidateIssue(body.(reporter := claimed), partial, projects, users) == ValidateIssue(body, partial, projects, users)
  {
  }

  /** The row a create saves: model defaults for absent status and priority, the reporter and project the view passes. */
  function NewIssue(id: nat, c: IssueChanges, project: nat, reporter: nat, now: nat): (i: Issue)
    requires c.title.Some? && c.description.Some?
    ensures i.id == id && i.project == project && i.reporter == Some(reporter)
    ensures i.title == c.title.value && i.description == c.description.value
    ensures i.status == (if c.status.Some? then c.status.value else DEFAULT_STATUS)
    ensures i.priority == (if c.priority.Some? then c.priority.value else DEFAULT_PRIORITY)
    ensures i.assignee == (if c.assignee.Some? then c.assignee.value else None)
    ensures i.createdAt == now && i.updatedAt == now
  {
    Issue(id, c.title.value, c.description.value, c.status.GetOr(DEFAULT_STATUS), c.priority.GetOr(DEFAULT_PRIORITY),
          project, Some(reporter), c.assignee.GetOr(None), now, now)
  }

  /** An update saves the fields present and stamps `updated_at`; id, reporter and created_at stay. */
  function ApplyIssueChanges(i: Issue, c: IssueChanges, now: nat): (j: Issue)
    ensures j.id == i.id && j.reporter == i.reporter && j.createdAt == i.createdAt && j.updatedAt == now
    ensures j.title == (if c.title.Some? then c.title.value else i.title)
    ensures j.description == (if c.description.Some? then c.description.value else i.description)
    ensures j.status == (if c.status.Some? then c.status.value else i.status)
    ensures j.priority == (if c.priority.Some? then c.priority.value else i.priority)
    ensures j.project == (if c.project.Some? then c.project.value else i.project)
    ensures j.assignee == (if c.assignee.Some? then c.assignee.value else i.assignee)
  {
    i.(title := c.title.GetOr(i.title), description := c.description.GetOr(i.description),
       status := c.status.GetOr(i.status), priority := c.priority.GetOr(i.priority),
       project := c.project.GetOr(i.project), assignee := c.assignee.GetOr(i.assignee), updatedAt := now)
  }

  /** `str(issue)` is its title. */
  function IssueString(i: Issue): string {
    i.title
  }

  // ---------------------------------------------------------------------------
  // Queryset filters over issue rows

  /** One `filter(...)` keyword lookup. */
  datatype Lookup =
    | StatusIs(status: string)            // status=...
    | PriorityIs(priority: string)        // priority=...
    | ProjectIs(project: nat)             // project_id=...
    | TitleContains(term: string)         // title__icontains=...
    | DescriptionContains(term: string)   // description__icontains=...

  predicate Holds(i: Issue, q: Lookup) {
    match q
    case StatusIs(s) => i.status == s
    case PriorityIs(p) => i.priority == p
    case ProjectIs(p) => i.project == p
    case TitleContains(t) => IContains(i.title, t)
    case DescriptionContains(t) => IContains(i.description, t)
  }

  /** `qs.filter(q)`, or `qs.filter(q) | qs.filter(q')` for Either: the rows that pass, in their order. */
  datatype Condition = Only(q: Lookup) | Either(left: Lookup, right: Lookup)

  predicate Satisfies(i: Issue, c: Condition) {
    match c
    case Only(q) => Holds(i, q)
    case Either(q, q') => Holds(i, q) || Holds(i, q')
  }

  function Where(rows: seq<Issue>, c: Condition): (r: seq<Issue>)
    ensures |r| <= |rows|
    ensures forall i :: i in r <==> i in rows && Satisfies(i, c)
  {
    if rows == [] then []
    else if Satisfies(rows[0], c) then [rows[0]] + Where(rows[1..], c)
    else Where(rows[1..], c)
  }

  /** Newest first by `created_at` (the model's `ordering = ['-created_at']`), with no ties. */
  predicate NewestFirst(rows: seq<Issue>) {
    forall a, b :: 0 <= a < b < |rows| ==> rows[a].createdAt > rows[b].createdAt
  }

  /** Filtering keeps the order of what it keeps. */
  lemma {:induction false} WherePreservesOrder(rows: seq<Issue>, c: Condition)
    requires NewestFirst(rows)
    ensures NewestFirst(Where(rows, c))
  {
    if rows != [] {
      WherePreservesOrder(rows[1..], c);
      var rest := Where(rows[1..], c);
      forall k | 0 <= k < |rest| ensures rest[k].createdAt < rows[0].createdAt {
        assert rest[k] in rows[1..];
      }
    }
  }

  lemma {:induction false} WhereIdempotent(rows: seq<Issue>, c: Condition)
    ensures Where(Where(rows, c), c) == Where(rows, c)
  {
    if rows != [] {
      WhereIdempotent(rows[1..], c);
      if Satisfies(rows[0], c) {
        assert ([rows[0]] + Where(rows[1..], c))[1..] == Where(rows[1..], c);
      }
    }
  }

  /** Two filters in a row keep the same rows in either order. */
  lemma {:induction false} WhereCommutes(rows: seq<Issue>, c: Condition, d: Condition)
    ensures Where(Where(rows, c), d) == Where(Where(rows, d), c)
  {
    if rows != [] {
      WhereCommutes(rows[1..], c, d);
      var x := rows[0];
      if Satisfies(x, c) {
        assert ([x] + Where(rows[1..], c))[1..] == Where(rows[1..], c);
      }
      if Satisfies(x, d) {
        assert ([x] + Where(rows[1..], d))[1..] == Where(rows[1..], d);
      }
    }
  }

  /** Every row passes: the filter changes nothing. */
  lemma {:induction false} WhereAll(rows: seq<Issue>, c: Condition)
    requires forall i :: i in rows ==> Satisfies(i, c)
    ensures Where(rows, c) == rows
  {
    if rows != [] {
      WhereAll(rows[1..], c);
    }
  }

  /** IssueViewSet.get_queryset: a non-empty `project_id` restricts to that project. */
  function IssueQuerySet(rows: seq<Issue>, projectId: Option<nat>): (r: seq<Issue>)
    ensures projectId.None? ==> r == rows
    ensures forall i :: i in r <==> i in rows && (projectId.Some? ==> i.project == projectId.value)
  {
    if projectId.Some? then Where(rows, Only(ProjectIs(projectId.value))) else rows
  }

  /** Rows newest first, each the table's row under its own id, have pairwise distinct ids. */
  lemma NewestFirstDistinctIds(rows: seq<Issue>, table: map<nat, Issue>)
    requires NewestFirst(rows)
    requires forall x :: x in rows ==> x.id in table && table[x.id] == x
    ensures forall a, b :: 0 <= a < b < |rows| ==> rows[a].id != rows[b].id
  {
    forall a, b | 0 <= a < b < |rows| ensures rows[a].id != rows[b].id {
      assert rows[a] in rows && rows[b] in rows;
    }
  }
}
