/**
 * The tracker's database and its REST endpoints: the four tables, the id sequences and the
 * clock the database supplies, and one member per view action of the accounts, projects,
 * issues and comments applications.
 */
module Tracker {
  import opened Common
  import opened Http
  import opened Accounts
  import opened Projects
  import opened Issues
  import opened Permissions
  import opened Comments
  import opened ProjectIssues
  import opened Tables

  /** ProjectSerializer's output: the row, `created_by_name` and `issue_count`. */
  datatype ProjectView = ProjectView(project: Project, createdByName: Option<string>, issueCount: nat)

  /** IssueSerializer's output: the row, the three `*_name` fields and `comment_count`. */
  datatype IssueView = IssueView(
    issue: Issue,
    projectName: Option<string>,
    reporterName: Option<string>,
    assigneeName: Option<string>,
    commentCount: nat)

  /** CommentSerializer's output: the row, `author_name` and `author_email`. */
  datatype CommentView = CommentView(comment: Comment, authorName: Option<string>, authorEmail: Option<string>)

  /** The serialized data of a successful response. */
  datatype Resource =
    | RegisteredBody(message: string, user: UserRepr)
    | UserBody(user: UserRepr)
    | UserListBody(users: seq<UserRepr>)
    | ProjectBody(project: ProjectView)
    | ProjectListBody(projects: seq<ProjectView>)
    | IssueBody(issue: IssueView)
    | IssueListBody(issues: seq<IssueView>)
    | CommentBody(comment: CommentView)
    | CommentListBody(comments: seq<CommentView>)

  type Reply = Response<Resource>

  const NOT_AUTHENTICATED_DETAIL := "Authentication credentials were not provided."
  const NOT_FOUND_DETAIL := "Not found."
  const REGISTERED_MESSAGE := "User registered successfully"
  const STATUS_REQUIRED_MESSAGE := "Status is required."
  const USER_NOT_FOUND_MESSAGE := "User not found."

  /** A request without valid credentials, as the client sees it after the exception handler. */
  function Unauthorized(): (r: Reply)
    ensures r == Response(401, Envelope("Unauthorized", "Authentication credentials were not provided or are invalid."))
  {
    Raise(HTTP_401_UNAUTHORIZED, NOT_AUTHENTICATED_DETAIL)
  }

  /** `get_object` or `get_object_or_404` on a missing row. */
  function NotFound(): (r: Reply)
    ensures r == Response(404, Envelope("Not Found", "The requested resource was not found."))
  {
    Raise(HTTP_404_NOT_FOUND, NOT_FOUND_DETAIL)
  }

  /** A refused object permission: the handler replaces the permission's own message. */
  function Forbidden(detail: string): (r: Reply)
    ensures r == Response(403, Envelope("Forbidden", "You do not have permission to perform this action."))
  {
    Raise(HTTP_403_FORBIDDEN, detail)
  }

  /** A failed serializer validation: 400 with the field errors, untouched by the handler. */
  function Invalid(errors: seq<FieldError>): Reply {
    Response(HTTP_400_BAD_REQUEST, ValidationErrors(errors))
  }

  function SerializeAll(rows: seq<User>): (rs: seq<UserRepr>)
    ensures |rs| == |rows|
    ensures forall k :: 0 <= k < |rows| ==> rs[k] == Serialize(rows[k])
  {
    if rows == [] then [] else [Serialize(rows[0])] + SerializeAll(rows[1..])
  }

  class Store {
    /** The database behind the views. */
    var db: Database

    /** The invariant the database keeps: see the Tables module. */
    ghost predicate Valid()
      reads this
    {
      Consistent(db)
    }

    /** A fresh installation: every table empty, every sequence at 1. */
    constructor ()
      ensures Valid()
      ensures db == EmptyDatabase
    {
      db := EmptyDatabase;
      EmptyConsistent();
    }

    function Emails(): set<string>
      reads this`db
    {
      set k | k in db.users :: db.users[k].email
    }

    function Usernames(): set<string>
      reads this`db
    {
      set k | k in db.users :: db.users[k].username
    }

    /** IsAuthenticated: the request carries the credentials of an existing user. */
    predicate Authenticated(caller: Option<nat>)
      reads this`db
    {
      caller.Some? && caller.value in db.users
    }

    // -------------------------------------------------------------------------
    // Serializer output

    /** `get_full_name` of a referenced user; None when the reference is empty. */
    function NameOf(r: Option<nat>): Option<string>
      reads this`db
    {
      if r.Some? && r.value in db.users then Some(FullName(db.users[r.value])) else None
    }

    /** The ids of the project's issues. */
    function IssuesOf(project: nat): set<nat>
      reads this`db
    {
      IssuesOfProject(db.issues, project)
    }

    /** The ids of the issue's comments. */
    function CommentsOf(issue: nat): set<nat>
      reads this`db
    {
      CommentsOfIssue(db.comments, issue)
    }

    /** The ids of the comments on any of the given issues. */
    function CommentsOfAny(ids: set<nat>): set<nat>
      reads this`db
    {
      CommentsOfIssues(db.comments, ids)
    }

    /** `obj.issues.count()` */
    function IssueCount(project: nat): nat
      reads this`db
    {
      |IssuesOf(project)|
    }

    /** `obj.comments.count()` */
    function CommentCount(issue: nat): nat
      reads this`db
    {
      |CommentsOf(issue)|
    }

    function ViewProject(p: Project): ProjectView
      reads this`db
    {
      ProjectView(p, NameOf(p.createdBy), IssueCount(p.id))
    }

    function ViewIssue(i: Issue): IssueView
      reads this`db
    {
      IssueView(i, if i.project in db.projects then Some(db.projects[i.project].name) else None,
                NameOf(i.reporter), NameOf(i.assignee), CommentCount(i.id))
    }

    function ViewComment(c: Comment): CommentView
      reads this`db
    {
      CommentView(c, NameOf(c.author), if c.author.Some? && c.author.value in db.users then Some(db.users[c.author.value].email) else None)
    }

    function ViewProjects(rows: seq<Project>): (vs: seq<ProjectView>)
      reads this`db
      ensures |vs| == |rows|
      ensures forall k :: 0 <= k < |rows| ==> vs[k] == ViewProject(rows[k])
    {
      if rows == [] then [] else [ViewProject(rows[0])] + ViewProjects(rows[1..])
    }

    function ViewIssues(rows: seq<Issue>): (vs: seq<IssueView>)
      reads this`db
      ensures |vs| == |rows|
      ensures forall k :: 0 <= k < |rows| ==> vs[k] == ViewIssue(rows[k])
    {
      if rows == [] then [] else [ViewIssue(rows[0])] + ViewIssues(rows[1..])
    }

    function ViewComments(rows: seq<Comment>): (vs: seq<CommentView>)
      reads this`db
      ensures |vs| == |rows|
      ensures forall k :: 0 <= k < |rows| ==> vs[k] == ViewComment(rows[k])
    {
      if rows == [] then [] else [ViewComment(rows[0])] + ViewComments(rows[1..])
    }

    /** Under the invariant every reference resolves, so a name is empty exactly when its reference is. */
    lemma ViewsResolveReferences(i: Issue, c: Comment)
      requires Valid()
      requires i in db.issues.Values && c in db.comments.Values
      ensures ViewIssue(i).projectName == Some(db.projects[i.project].name)
      ensures ViewIssue(i).reporterName.None? <==> i.reporter.None?
      ensures ViewIssue(i).assigneeName.None? <==> i.assignee.None?
      ensures ViewComment(c).authorEmail.None? <==> c.author.None?
      ensures c.author.Some? ==> ViewComment(c).authorEmail == Some(db.users[c.author.value].email)
    {
    }

    // -------------------------------------------------------------------------
    // Table listings in the models' default order

    function UserList(): seq<User>
      reads this`db
    {
      Listing(db.users, db.nextUser)
    }

    function ProjectList(): seq<Project>
      reads this`db
    {
      Listing(db.projects, db.nextProject)
    }

    function IssueList(): seq<Issue>
      reads this`db
    {
      Listing(db.issues, db.nextIssue)
    }

    function CommentList(): seq<Comment>
      reads this`db
    {
      Listing(db.comments, db.nextComment)
    }

    /** `User.objects.all()`: every user exactly once, newest first. */
    lemma UserListSpec()
      requires UsersKeyed(db.users, db.nextUser, db.clock) && UsersOrdered(db.users)
      ensures forall u :: u in UserList() <==> u.id in db.users && db.users[u.id] == u
      ensures Accounts.NewestFirst(UserList())
      ensures |UserList()| == |db.users|
    {
      UsersListed(db.users, db.nextUser, db.clock);
    }

    /** `Project.objects.all()`: every project exactly once, newest first. */
    lemma ProjectListSpec()
      requires ProjectsKeyed(db.projects, db.nextProject, db.clock) && ProjectsOrdered(db.projects)
      ensures forall p :: p in ProjectList() <==> p.id in db.projects && db.projects[p.id] == p
      ensures Projects.NewestFirst(ProjectList())
      ensures |ProjectList()| == |db.projects|
    {
      ProjectsListed(db.projects, db.nextProject, db.clock);
    }

    /** `Issue.objects.all()`: every issue exactly once, newest first. */
    lemma IssueListSpec()
      requires IssuesKeyed(db.issues, db.nextIssue, db.clock) && IssuesOrdered(db.issues)
      ensures forall i :: i in IssueList() <==> i.id in db.issues && db.issues[i.id] == i
      ensures Issues.NewestFirst(IssueList())
      ensures |IssueList()| == |db.issues|
    {
      IssuesListed(db.issues, db.nextIssue, db.clock);
    }

    /** `Comment.objects.all()`: every comment exactly once, newest first. */
    lemma CommentListSpec()
      requires CommentsKeyed(db.comments, db.nextComment, db.clock) && CommentsOrdered(db.comments)
      ensures forall c :: c in CommentList() <==> c.id in db.comments && db.comments[c.id] == c
      ensures Comments.NewestFirst(CommentList())
      ensures |CommentList()| == |db.comments|
    {
      CommentsListed(db.comments, db.nextComment, db.clock);
    }
  
    /** `issue_count` is the number of issues the project's listing shows. */
    lemma IssueCountIsListed(project: nat)
      requires IssuesKeyed(db.issues, db.nextIssue, db.clock) && IssuesOrdered(db.issues)
      ensures IssueCount(project) == |Where(IssueList(), Only(ProjectIs(project)))|
    {
      IssueCountListed(db.issues, db.nextIssue, db.clock, project);
    }

    /** `comment_count` is the number of comments the issue's listing shows. */
    lemma CommentCountIsListed(issue: nat)
      requires CommentsKeyed(db.comments, db.nextComment, db.clock) && CommentsOrdered(db.comments)
      ensures CommentCount(issue) == |OfIssue(CommentList(), issue)|
    {
      CommentCountListed(db.comments, db.nextComment, db.clock, issue);
    }

    // -------------------------------------------------------------------------
    // Read-only endpoints (IsAuthenticated on every one)

    /** UserViewSet.me: the caller's own account. */
    function Me(caller: Option<nat>): (r: Reply)
      reads this
      ensures !Authenticated(caller) ==> r == Unauthorized()
      ensures Authenticated(caller) ==> r.statusCode == 200 && r.body == Resource(UserBody(Serialize(db.users[caller.value])))
    {
      if !Authenticated(caller) then Unauthorized()
      else Response(HTTP_200_OK, Resource(UserBody(Serialize(db.users[caller.value]))))
    }

    /** UserViewSet.list */
    function ListUsers(caller: Option<nat>): (r: Reply)
      reads this
      ensures !Authenticated(caller) ==> r == Unauthorized()
      ensures Authenticated(caller) ==> r == Response(200, Resource(UserListBody(SerializeAll(UserList()))))
    {
      if !Authenticated(caller) then Unauthorized()
      else Response(HTTP_200_OK, Resource(UserListBody(SerializeAll(UserList()))))
    }

    /** UserViewSet.retrieve */
    function RetrieveUser(caller: Option<nat>, id: nat): (r: Reply)
      reads this
      ensures !Authenticated(caller) ==> r == Unauthorized()
      ensures Authenticated(caller) && id !in db.users ==> r == NotFound()
      ensures Authenticated(caller) && id in db.users ==> r == Response(200, Resource(UserBody(Serialize(db.users[id]))))
    {
      if !Authenticated(caller) then Unauthorized()
      else if id !in db.users then NotFound()
      else Response(HTTP_200_OK, Resource(UserBody(Serialize(db.users[id]))))
    }

    /** ProjectViewSet.list: every project, whoever created it. */
    function ListProjects(caller: Option<nat>): (r: Reply)
      reads this
      ensures !Authenticated(caller) ==> r == Unauthorized()
      ensures Authenticated(caller) ==> r == Response(200, Resource(ProjectListBody(ViewProjects(ProjectList()))))
    {
      if !Authenticated(caller) then Unauthorized()
      else Response(HTTP_200_OK, Resource(ProjectListBody(ViewProjects(ProjectList()))))
    }

    /** ProjectViewSet.retrieve */
    function RetrieveProject(caller: Option<nat>, id: nat): (r: Reply)
      reads this
      ensures !Authenticated(caller) ==> r == Unauthorized()
      ensures Authenticated(caller) && id !in db.projects ==> r == NotFound()
      ensures Authenticated(caller) && id in db.projects ==> r == Response(200, Resource(ProjectBody(ViewProject(db.projects[id]))))
    {
      if !Authenticated(caller) then Unauthorized()
      else if id !in db.projects then NotFound()
      else Response(HTTP_200_OK, Resource(ProjectBody(ViewProject(db.projects[id]))))
    }

    /** `project.issues.all()` narrowed by the action's query parameters. */
    function ProjectIssueList(project: nat, f: IssueFilters): seq<Issue>
      reads this
    {
      ApplyFilters(Where(IssueList(), Only(ProjectIs(project))), f)
    }

    /** The project `issues` action lists exactly the project's issues that match every given filter, newest first. */
    lemma ProjectIssueListSpec(project: nat, f: IssueFilters)
      requires IssuesKeyed(db.issues, db.nextIssue, db.clock) && IssuesOrdered(db.issues)
      ensures forall i :: i in ProjectIssueList(project, f) <==>
        i.id in db.issues && db.issues[i.id] == i && i.project == project && Matches(i, f)
      ensures Issues.NewestFirst(ProjectIssueList(project, f))
      ensures |ProjectIssueList(project, f)| <= IssueCount(project)
    {
      IssueListSpec();
      var mine := Where(IssueList(), Only(ProjectIs(project)));
      ApplyFiltersExact(mine, f);
      WherePreservesOrder(IssueList(), Only(ProjectIs(project)));
      ApplyFiltersPreservesOrder(mine, f);
      ApplyFiltersShrinks(mine, f);
      IssueCountIsListed(project);
    }

    /** ProjectViewSet.issues */
    function ListProjectIssues(caller: Option<nat>, id: nat, f: IssueFilters): (r: Reply)
      reads this
      ensures !Authenticated(caller) ==> r == Unauthorized()
      ensures Authenticated(caller) && id !in db.projects ==> r == NotFound()
      ensures Authenticated(caller) && id in db.projects ==>
        r == Response(200, Resource(IssueListBody(ViewIssues(ProjectIssueList(id, f)))))
    {
      if !Authenticated(caller) then Unauthorized()
      else if id !in db.projects then NotFound()
      else Response(HTTP_200_OK, Resource(IssueListBody(ViewIssues(ProjectIssueList(id, f)))))
    }

    /** IssueViewSet.list: every issue, or those of `project_id` when that parameter is given. */
    function ListIssues(caller: Option<nat>, projectId: Option<nat>): (r: Reply)
      reads this
      ensures !Authenticated(caller) ==> r == Unauthorized()
      ensures Authenticated(caller) ==> r == Response(200, Resource(IssueListBody(ViewIssues(IssueQuerySet(IssueList(), projectId)))))
    {
      if !Authenticated(caller) then Unauthorized()
      else Response(HTTP_200_OK, Resource(IssueListBody(ViewIssues(IssueQuerySet(IssueList(), projectId)))))
    }

    /** IssueViewSet.retrieve: any authenticated caller may read any issue. */
    function RetrieveIssue(caller: Option<nat>, id: nat): (r: Reply)
      reads this
      ensures !Authenticated(caller) ==> r == Unauthorized()
      ensures Authenticated(caller) && id !in db.issues ==> r == NotFound()
      ensures Authenticated(caller) && id in db.issues ==> r == Response(200, Resource(IssueBody(ViewIssue(db.issues[id]))))
    {
      if !Authenticated(caller) then Unauthorized()
      else if id !in db.issues then NotFound()
      else Response(HTTP_200_OK, Resource(IssueBody(ViewIssue(db.issues[id]))))
    }

    /** CommentViewSet.list: every comment, or those of `issue_id` when that parameter is given. */
    function ListComments(caller: Option<nat>, issueId: Option<nat>): (r: Reply)
      reads this
      ensures !Authenticated(caller) ==> r == Unauthorized()
      ensures Authenticated(caller) ==> r == Response(200, Resource(CommentListBody(ViewComments(CommentQuerySet(CommentList(), issueId)))))
    {
      if !Authenticated(caller) then Unauthorized()
      else Response(HTTP_200_OK, Resource(CommentListBody(ViewComments(CommentQuerySet(CommentList(), issueId)))))
    }

    /** CommentViewSet.retrieve */
    function RetrieveComment(caller: Option<nat>, id: nat): (r: Reply)
      reads this
      ensures !Authenticated(caller) ==> r == Unauthorized()
      ensures Authenticated(caller) && id !in db.comments ==> r == NotFound()
      ensures Authenticated(caller) && id in db.comments ==> r == Response(200, Resource(CommentBody(ViewComment(db.comments[id]))))
    {
      if !Authenticated(caller) then Unauthorized()
      else if id !in db.comments then NotFound()
      else Response(HTTP_200_OK, Resource(CommentBody(ViewComment(db.comments[id]))))
    }

    /** Every listing depends on the caller only through whether the caller is authenticated. */
    lemma ListingsIgnoreCaller(a: Option<nat>, b: Option<nat>, projectId: Option<nat>, issueId: Option<nat>)
      requires Authenticated(a) && Authenticated(b)
      ensures ListProjects(a) == ListProjects(b)
      ensures ListIssues(a, projectId) == ListIssues(b, projectId)
      ensures ListComments(a, issueId) == ListComments(b, issueId)
      ensures ListUsers(a) == ListUsers(b)
    {
    }

    /** The listings of the two list endpoints with a filter: exactly the stored rows that match, newest first. */
    lemma QuerySetsSpec(projectId: Option<nat>, issueId: Option<nat>)
      requires IssuesKeyed(db.issues, db.nextIssue, db.clock) && IssuesOrdered(db.issues)
      requires CommentsKeyed(db.comments, db.nextComment, db.clock) && CommentsOrdered(db.comments)
      ensures forall i :: i in IssueQuerySet(IssueList(), projectId) <==>
        i.id in db.issues && db.issues[i.id] == i && (projectId.Some? ==> i.project == projectId.value)
      ensures Issues.NewestFirst(IssueQuerySet(IssueList(), projectId))
      ensures forall c :: c in CommentQuerySet(CommentList(), issueId) <==>
        c.id in db.comments && db.comments[c.id] == c && (issueId.Some? ==> c.issue == issueId.value)
      ensures Comments.NewestFirst(CommentQuerySet(CommentList(), issueId))
    {
      IssueListSpec();
      CommentListSpec();
      WherePreservesOrder(IssueList(), Only(ProjectIs(projectId.GetOr(0))));
      OfIssuePreservesOrder(CommentList(), issueId.GetOr(0));
    }

    // -------------------------------------------------------------------------
    // Accounts

    /**
     * RegisterViewSet.register (AllowAny): validate, then `create_user` with the next id.
     * The unique check runs on the address as sent, but `create_user` stores it normalised;
     * when the normalised address is already taken the insert violates the unique constraint,
     * which no handler catches, so the client gets Django's 500 and nothing is saved.
     */
    method Register(req: RegisterRequest) returns (r: Reply)
      requires Valid()
      modifies this`db
      ensures Valid()
      ensures var v := ValidateRegistration(req, old(Emails()), old(Usernames()));
        if v.Err? then r == Invalid(v.error) && db == old(db)
        else if NormalizeEmail(v.value.email) in old(Emails()) then
          r == Response(500, ServerError) && db == old(db)
        else
          var u := User(old(db.nextUser), NormalizeEmail(v.value.email), v.value.username, v.value.firstName, v.value.lastName,
                        v.value.password, old(db.clock), old(db.clock));
          old(db.nextUser) !in old(db.users) &&
          db == UserAdded(old(db), u) &&
          r == Response(201, Resource(RegisteredBody(REGISTERED_MESSAGE, Serialize(u))))
    {
      var v := ValidateRegistration(req, Emails(), Usernames());
      if v.Err? {
        return Invalid(v.error);
      }
      var f := v.value;
      var email := NormalizeEmail(f.email);
      if email in Emails() {
        return Response(HTTP_500_INTERNAL_SERVER_ERROR, ServerError);
      }
      var u := User(db.nextUser, email, f.username, f.firstName, f.lastName, f.password, db.clock, db.clock);
      forall k | k in db.users ensures db.users[k].email != email && db.users[k].username != f.username {
        assert db.users[k].email in Emails() && db.users[k].username in Usernames();
      }
      InsertUserKeeps(db, u);
      db := UserAdded(db, u);
      r := Response(HTTP_201_CREATED, Resource(RegisteredBody(REGISTERED_MESSAGE, Serialize(u))));
    }

    // -------------------------------------------------------------------------
    // Projects

    /** ProjectViewSet.create: `created_by` is the caller, whatever the body says. */
    method CreateProject(caller: Option<nat>, body: ProjectPayload) returns (r: Reply)
      requires Valid()
      modifies this`db
      ensures Valid()
      ensures !Authenticated(caller) ==> r == Unauthorized() && db == old(db)
      ensures Authenticated(caller) ==>
        var v := ValidateProject(body, false);
        if v.Err? then r == Invalid(v.error) && db == old(db)
        else
          var p := Project(old(db.nextProject), v.value.name.value, v.value.description.value, caller, old(db.clock), old(db.clock));
          old(db.nextProject) !in old(db.projects) &&
          db == ProjectAdded(old(db), p) &&
          r == Response(201, Resource(ProjectBody(ViewProject(p)))) && IssueCount(p.id) == 0
    {
      if !Authenticated(caller) {
        return Unauthorized();
      }
      var v := ValidateProject(body, false);
      if v.Err? {
        return Invalid(v.error);
      }
      var p := Project(db.nextProject, v.value.name.value, v.value.description.value, caller, db.clock, db.clock);
      assert IssuesOf(db.nextProject) == {};
      InsertProjectKeeps(db, p);
      db := ProjectAdded(db, p);
      r := Response(HTTP_201_CREATED, Resource(ProjectBody(ViewProject(p))));
    }

    /** ProjectViewSet.update (`partial` false) and partial_update (`partial` true); any authenticated caller. */
    method UpdateProject(caller: Option<nat>, id: nat, body: ProjectPayload, partial: bool) returns (r: Reply)
      requires Valid()
      modifies this`db
      ensures Valid()
      ensures !Authenticated(caller) ==> r == Unauthorized() && db == old(db)
      ensures Authenticated(caller) && id !in old(db.projects) ==> r == NotFound() && db == old(db)
      ensures Authenticated(caller) && id in old(db.projects) ==>
        var v := ValidateProject(body, partial);
        if v.Err? then r == Invalid(v.error) && db == old(db)
        else
          var p := ApplyProjectChanges(old(db.projects)[id], v.value, old(db.clock));
          db == ProjectResaved(old(db), p) &&
          r == Response(200, Resource(ProjectBody(ViewProject(p))))
    {
      if !Authenticated(caller) {
        return Unauthorized();
      }
      if id !in db.projects {
        return NotFound();
      }
      var v := ValidateProject(body, partial);
      if v.Err? {
        return Invalid(v.error);
      }
      var p := ApplyProjectChanges(db.projects[id], v.value, db.clock);
      ResaveProjectKeeps(db, p);
      db := ProjectResaved(db, p);
      r := Response(HTTP_200_OK, Resource(ProjectBody(ViewProject(p))));
    }

    /** ProjectViewSet.destroy; the cascade takes the project's issues and their comments. */
    method DeleteProject(caller: Option<nat>, id: nat) returns (r: Reply)
      requires Valid()
      modifies this`db
      ensures Valid()
      ensures !Authenticated(caller) ==> r == Unauthorized() && db == old(db)
      ensures Authenticated(caller) && id !in old(db.projects) ==> r == NotFound() && db == old(db)
      ensures Authenticated(caller) && id in old(db.projects) ==>
        db == ProjectRemoved(old(db), id, old(IssuesOf(id)), old(CommentsOfAny(IssuesOf(id)))) &&
        r == Response(204, NoContent)
    {
      if !Authenticated(caller) {
        return Unauthorized();
      }
      if id !in db.projects {
        return NotFound();
      }
      var doomed := IssuesOf(id);
      var orphans := CommentsOfAny(doomed);
      DeleteProjectKeeps(db, id, doomed, orphans);
      db := ProjectRemoved(db, id, doomed, orphans);
      r := Response(HTTP_204_NO_CONTENT, NoContent);
    }

    // -------------------------------------------------------------------------
    // Issues

    /** `serializer.save(...)` of a new issue: the next id, the current time, defaults for status and priority. */
    method SaveNewIssue(c: IssueChanges, project: nat, reporter: nat) returns (r: Reply)
      requires Valid()
      requires c.title.Some? && c.description.Some?
      requires project in db.projects && reporter in db.users
      requires c.assignee.Some? && c.assignee.value.Some? ==> c.assignee.value.value in db.users
      modifies this`db
      ensures Valid()
      ensures var i := NewIssue(old(db.nextIssue), c, project, reporter, old(db.clock));
        old(db.nextIssue) !in old(db.issues) &&
        db == IssueAdded(old(db), i) &&
        r == Response(201, Resource(IssueBody(ViewIssue(i)))) && CommentCount(i.id) == 0
    {
      var i := NewIssue(db.nextIssue, c, project, reporter, db.clock);
      assert CommentsOf(db.nextIssue) == {};
      InsertIssueKeeps(db, i);
      db := IssueAdded(db, i);
      r := Response(HTTP_201_CREATED, Resource(IssueBody(ViewIssue(i))));
    }

    /** `issue.save()` of an existing issue whose fields were changed and `updated_at` stamped. */
    method SaveIssue(i: Issue) returns (r: Reply)
      requires Valid()
      requires i.id in db.issues && i.createdAt == db.issues[i.id].createdAt && i.updatedAt == db.clock
      requires i.project in db.projects && Ref(i.reporter, db.users.Keys) && Ref(i.assignee, db.users.Keys)
      modifies this`db
      ensures Valid()
      ensures db == IssueResaved(old(db), i)
      ensures r == Response(200, Resource(IssueBody(ViewIssue(i))))
    {
      ResaveIssueKeeps(db, i);
      db := IssueResaved(db, i);
      r := Response(HTTP_200_OK, Resource(IssueBody(ViewIssue(i))));
    }

    /** IssueViewSet.create: the reporter is the caller; the project comes from the body. */
    method CreateIssue(caller: Option<nat>, body: IssuePayload) returns (r: Reply)
      requires Valid()
      modifies this`db
      ensures Valid()
      ensures !Authenticated(caller) ==> r == Unauthorized() && db == old(db)
      ensures Authenticated(caller) ==>
        var v := ValidateIssue(body, false, old(db.projects).Keys, old(db.users).Keys);
        if v.Err? then r == Invalid(v.error) && db == old(db)
        else
          var i := NewIssue(old(db.nextIssue), v.value, v.value.project.value, caller.value, old(db.clock));
          old(db.nextIssue) !in old(db.issues) &&
          db == IssueAdded(old(db), i) &&
          r == Response(201, Resource(IssueBody(ViewIssue(i))))
    {
      if !Authenticated(caller) {
        return Unauthorized();
      }
      var v := ValidateIssue(body, false, db.projects.Keys, db.users.Keys);
      if v.Err? {
        return Invalid(v.error);
      }
      r := SaveNewIssue(v.value, v.value.project.value, caller.value);
    }

    /**
     * IssueViewSet.create_for_project: 404 for an unknown project, otherwise the body is
     * validated as for a create (its own `project` included) and the issue is filed under the
     * project of the URL.
     */
    method CreateIssueForProject(caller: Option<nat>, project: nat, body: IssuePayload) returns (r: Reply)
      requires Valid()
      modifies this`db
      ensures Valid()
      ensures !Authenticated(caller) ==> r == Unauthorized() && db == old(db)
      ensures Authenticated(caller) && project !in old(db.projects) ==> r == NotFound() && db == old(db)
      ensures Authenticated(caller) && project in old(db.projects) ==>
        var v := ValidateIssue(body, false, old(db.projects).Keys, old(db.users).Keys);
        if v.Err? then r == Invalid(v.error) && db == old(db)
        else
          var i := NewIssue(old(db.nextIssue), v.value, project, caller.value, old(db.clock));
          old(db.nextIssue) !in old(db.issues) &&
          db == IssueAdded(old(db), i) &&
          r == Response(201, Resource(IssueBody(ViewIssue(i))))
    {
      if !Authenticated(caller) {
        return Unauthorized();
      }
      if project !in db.projects {
        return NotFound();
      }
      var v := ValidateIssue(body, false, db.projects.Keys, db.users.Keys);
      if v.Err? {
        return Invalid(v.error);
      }
      r := SaveNewIssue(v.value, project, caller.value);
    }

    /**
     * IssueViewSet.update (`partial` false) and partial_update (`partial` true): 404, then the
     * reporter-or-assignee check (403), then validation (400).
     */
    method UpdateIssue(caller: Option<nat>, id: nat, body: IssuePayload, partial: bool) returns (r: Reply)
      requires Valid()
      modifies this`db
      ensures Valid()
      ensures !Authenticated(caller) ==> r == Unauthorized() && db == old(db)
      ensures Authenticated(caller) && id !in old(db.issues) ==> r == NotFound() && db == old(db)
      ensures Authenticated(caller) && id in old(db.issues) &&
              !ObjectPermitted(if partial then PartialUpdate else Update, caller.value, old(db.issues)[id]) ==>
        r == Forbidden(DENIED_MESSAGE) && db == old(db)
      ensures Authenticated(caller) && id in old(db.issues) &&
              ObjectPermitted(if partial then PartialUpdate else Update, caller.value, old(db.issues)[id]) ==>
        var v := ValidateIssue(body, partial, old(db.projects).Keys, old(db.users).Keys);
        if v.Err? then r == Invalid(v.error) && db == old(db)
        else
          var i := ApplyIssueChanges(old(db.issues)[id], v.value, old(db.clock));
          db == IssueResaved(old(db), i) &&
          r == Response(200, Resource(IssueBody(ViewIssue(i))))
    {
      if !Authenticated(caller) {
        return Unauthorized();
      }
      if id !in db.issues {
        return NotFound();
      }
      var action := if partial then PartialUpdate else Update;
      var denial := DenialMessage(action, caller.value, db.issues[id]);
      if denial.Some? {
        return Forbidden(denial.value);
      }
      var v := ValidateIssue(body, partial, db.projects.Keys, db.users.Keys);
      if v.Err? {
        return Invalid(v.error);
      }
      r := SaveIssue(ApplyIssueChanges(db.issues[id], v.value, db.clock));
    }

    /**
     * IssueViewSet.update_status: any authenticated caller; an absent or empty status is a
     * 400 with the view's own message, and any other value is stored unchecked.
     */
    method UpdateStatus(caller: Option<nat>, id: nat, status: Option<string>) returns (r: Reply)
      requires Valid()
      modifies this`db
      ensures Valid()
      ensures !Authenticated(caller) ==> r == Unauthorized() && db == old(db)
      ensures Authenticated(caller) && id !in old(db.issues) ==> r == NotFound() && db == old(db)
      ensures Authenticated(caller) && id in old(db.issues) && !Given(status) ==>
        r == Response(400, ErrorMessage(STATUS_REQUIRED_MESSAGE)) && db == old(db)
      ensures Authenticated(caller) && id in old(db.issues) && Given(status) ==>
        var i := old(db.issues)[id].(status := status.value, updatedAt := old(db.clock));
        db == IssueResaved(old(db), i) &&
        r == Response(200, Resource(IssueBody(ViewIssue(i))))
    {
      if !Authenticated(caller) {
        return Unauthorized();
      }
      if id !in db.issues {
        return NotFound();
      }
      // check_object_permissions runs only IsAuthenticated here, which grants every issue
      OwnershipCheckedOnlyOnUpdate(Action.UpdateStatus, caller.value, db.issues[id]);
      assert ObjectPermitted(Action.UpdateStatus, caller.value, db.issues[id]);
      if !Given(status) {
        return Response(HTTP_400_BAD_REQUEST, ErrorMessage(STATUS_REQUIRED_MESSAGE));
      }
      r := SaveIssue(db.issues[id].(status := status.value, updatedAt := db.clock));
    }

    /**
     * IssueViewSet.assign: any authenticated caller. An absent, null or zero `assignee_id`
     * clears the assignee; an unknown id is a 404 with the view's own message.
     */
    method Assign(caller: Option<nat>, id: nat, assigneeId: Option<nat>) returns (r: Reply)
      requires Valid()
      modifies this`db
      ensures Valid()
      ensures !Authenticated(caller) ==> r == Unauthorized() && db == old(db)
      ensures Authenticated(caller) && id !in old(db.issues) ==> r == NotFound() && db == old(db)
      ensures Authenticated(caller) && id in old(db.issues) && (assigneeId.None? || assigneeId.value == 0) ==>
        var i := old(db.issues)[id].(assignee := None, updatedAt := old(db.clock));
        db == IssueResaved(old(db), i) &&
        r == Response(200, Resource(IssueBody(ViewIssue(i))))
      ensures Authenticated(caller) && id in old(db.issues) && assigneeId.Some? && assigneeId.value != 0 &&
              assigneeId.value in old(db.users) ==>
        var i := old(db.issues)[id].(assignee := assigneeId, updatedAt := old(db.clock));
        db == IssueResaved(old(db), i) &&
        r == Response(200, Resource(IssueBody(ViewIssue(i))))
      ensures Authenticated(caller) && id in old(db.issues) && assigneeId.Some? && assigneeId.value != 0 &&
              assigneeId.value !in old(db.users) ==>
        r == Response(404, ErrorMessage(USER_NOT_FOUND_MESSAGE)) && db == old(db)
    {
      if !Authenticated(caller) {
        return Unauthorized();
      }
      if id !in db.issues {
        return NotFound();
      }
      OwnershipCheckedOnlyOnUpdate(Action.Assign, caller.value, db.issues[id]);
      assert ObjectPermitted(Action.Assign, caller.value, db.issues[id]);
      if assigneeId.None? || assigneeId.value == 0 {
        r := SaveIssue(db.issues[id].(assignee := None, updatedAt := db.clock));
      } else if assigneeId.value !in db.users {
        r := Response(HTTP_404_NOT_FOUND, ErrorMessage(USER_NOT_FOUND_MESSAGE));
      } else {
        r := SaveIssue(db.issues[id].(assignee := assigneeId, updatedAt := db.clock));
      }
    }

    /** IssueViewSet.destroy: any authenticated caller; the cascade takes the issue's comments. */
    method DeleteIssue(caller: Option<nat>, id: nat) returns (r: Reply)
      requires Valid()
      modifies this`db
      ensures Valid()
      ensures !Authenticated(caller) ==> r == Unauthorized() && db == old(db)
      ensures Authenticated(caller) && id !in old(db.issues) ==> r == NotFound() && db == old(db)
      ensures Authenticated(caller) && id in old(db.issues) ==>
        db == IssueRemoved(old(db), id, old(CommentsOf(id))) &&
        r == Response(204, NoContent)
    {
      if !Authenticated(caller) {
        return Unauthorized();
      }
      if id !in db.issues {
        return NotFound();
      }
      OwnershipCheckedOnlyOnUpdate(Destroy, caller.value, db.issues[id]);
      assert ObjectPermitted(Destroy, caller.value, db.issues[id]);
      var orphans := CommentsOf(id);
      DeleteIssueKeeps(db, id, orphans);
      db := IssueRemoved(db, id, orphans);
      r := Response(HTTP_204_NO_CONTENT, NoContent);
    }

    // -------------------------------------------------------------------------
    // Comments

    /** `serializer.save(author=...)` of a new comment: the next id and the current time. */
    method SaveNewComment(content: string, issue: nat, author: nat) returns (r: Reply)
      requires Valid()
      requires issue in db.issues && author in db.users
      modifies this`db
      ensures Valid()
      ensures var c := Comment(old(db.nextComment), content, issue, Some(author), old(db.clock), old(db.clock));
        old(db.nextComment) !in old(db.comments) &&
        db == CommentAdded(old(db), c) &&
        r == Response(201, Resource(CommentBody(ViewComment(c))))
    {
      var c := Comment(db.nextComment, content, issue, Some(author), db.clock, db.clock);
      InsertCommentKeeps(db, c);
      db := CommentAdded(db, c);
      r := Response(HTTP_201_CREATED, Resource(CommentBody(ViewComment(c))));
    }

    /** CommentViewSet.create: the author is the caller, whatever the body says. */
    method CreateComment(caller: Option<nat>, body: CommentPayload) returns (r: Reply)
      requires Valid()
      modifies this`db
      ensures Valid()
      ensures !Authenticated(caller) ==> r == Unauthorized() && db == old(db)
      ensures Authenticated(caller) ==>
        var v := ValidateComment(body, false, old(db.issues).Keys);
        if v.Err? then r == Invalid(v.error) && db == old(db)
        else
          var c := Comment(old(db.nextComment), v.value.content.value, v.value.issue.value, caller, old(db.clock), old(db.clock));
          old(db.nextComment) !in old(db.comments) &&
          db == CommentAdded(old(db), c) &&
          r == Response(201, Resource(CommentBody(ViewComment(c))))
    {
      if !Authenticated(caller) {
        return Unauthorized();
      }
      var v := ValidateComment(body, false, db.issues.Keys);
      if v.Err? {
        return Invalid(v.error);
      }
      r := SaveNewComment(v.value.content.value, v.value.issue.value, caller.value);
    }

    /**
     * CommentViewSet.create_for_issue: 404 for an unknown issue, otherwise the body is validated
     * as for a create (its own `issue` included) and the comment is filed under the issue of the URL.
     */
    method CreateCommentForIssue(caller: Option<nat>, issue: nat, body: CommentPayload) returns (r: Reply)
      requires Valid()
      modifies this`db
      ensures Valid()
      ensures !Authenticated(caller) ==> r == Unauthorized() && db == old(db)
      ensures Authenticated(caller) && issue !in old(db.issues) ==> r == NotFound() && db == old(db)
      ensures Authenticated(caller) && issue in old(db.issues) ==>
        var v := ValidateComment(body, false, old(db.issues).Keys);
        if v.Err? then r == Invalid(v.error) && db == old(db)
        else
          var c := Comment(old(db.nextComment), v.value.content.value, issue, caller, old(db.clock), old(db.clock));
          old(db.nextComment) !in old(db.comments) &&
          db == CommentAdded(old(db), c) &&
          r == Response(201, Resource(CommentBody(ViewComment(c))))
    {
      if !Authenticated(caller) {
        return Unauthorized();
      }
      if issue !in db.issues {
        return NotFound();
      }
      var v := ValidateComment(body, false, db.issues.Keys);
      if v.Err? {
        return Invalid(v.error);
      }
      r := SaveNewComment(v.value.content.value, issue, caller.value);
    }

    /** CommentViewSet.update (`partial` false) and partial_update (`partial` true); any authenticated caller. */
    method UpdateComment(caller: Option<nat>, id: nat, body: CommentPayload, partial: bool) returns (r: Reply)
      requires Valid()
      modifies this`db
      ensures Valid()
      ensures !Authenticated(caller) ==> r == Unauthorized() && db == old(db)
      ensures Authenticated(caller) && id !in old(db.comments) ==> r == NotFound() && db == old(db)
      ensures Authenticated(caller) && id in old(db.comments) ==>
        var v := ValidateComment(body, partial, old(db.issues).Keys);
        if v.Err? then r == Invalid(v.error) && db == old(db)
        else
          var c := ApplyCommentChanges(old(db.comments)[id], v.value, old(db.clock));
          db == CommentResaved(old(db), c) &&
          r == Response(200, Resource(CommentBody(ViewComment(c))))
    {
      if !Authenticated(caller) {
        return Unauthorized();
      }
      if id !in db.comments {
        return NotFound();
      }
      var v := ValidateComment(body, partial, db.issues.Keys);
      if v.Err? {
        return Invalid(v.error);
      }
      var c := ApplyCommentChanges(db.comments[id], v.value, db.clock);
      ResaveCommentKeeps(db, c);
      db := CommentResaved(db, c);
      r := Response(HTTP_200_OK, Resource(CommentBody(ViewComment(c))));
    }

    /** CommentViewSet.destroy; any authenticated caller. */
    method DeleteComment(caller: Option<nat>, id: nat) returns (r: Reply)
      requires Valid()
      modifies this`db
      ensures Valid()
      ensures !Authenticated(caller) ==> r == Unauthorized() && db == old(db)
      ensures Authenticated(caller) && id !in old(db.comments) ==> r == NotFound() && db == old(db)
      ensures Authenticated(caller) && id in old(db.comments) ==>
        db == CommentRemoved(old(db), id) && r == Response(204, NoContent)
    {
      if !Authenticated(caller) {
        return Unauthorized();
      }
      if id !in db.comments {
        return NotFound();
      }
      DeleteCommentKeeps(db, id);
      db := CommentRemoved(db, id);
      r := Response(HTTP_204_NO_CONTENT, NoContent);
    }

    // -------------------------------------------------------------------------
    // Deleting an account

    /**
     * `user.delete()`: the account goes, and the SET_NULL rules empty `created_by`, `reporter`,
     * `assignee` and `author` wherever they named it, without touching `updated_at`; no row
     * of the other tables is deleted. No endpoint deletes accounts; this is the deletion the
     * models define.
     */
    method DeleteUser(id: nat)
      requires Valid()
      modifies this`db
      ensures Valid()
      ensures db == UserRemoved(old(db), id)
    {
      DeleteUserKeeps(db, id);
      db := UserRemoved(db, id);
    }
  }
}
