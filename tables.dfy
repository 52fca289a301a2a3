/**
 * The four tables of the database as values: the invariant they keep (keys, creation order,
 * timestamps, foreign keys, unique accounts) and the ways each save or delete the views
 * perform keeps it, the `on_delete` rules of the models included.
 */
module Tables {
  import opened Common
  import opened Accounts
  import opened Projects
  import opened Issues
  import opened Comments

  // ---------------------------------------------------------------------------
  // The database invariant, table by table

  /** Each table: ids start at 1; every row sits under its own id, below the next id, stamped before `clock`. */
  ghost predicate UsersKeyed(m: map<nat, User>, next: nat, clock: nat) {
    0 < next && forall k :: k in m ==> m[k].id == k && 0 < k < next && m[k].createdAt <= m[k].updatedAt < clock
  }

  ghost predicate ProjectsKeyed(m: map<nat, Project>, next: nat, clock: nat) {
    0 < next && forall k :: k in m ==> m[k].id == k && 0 < k < next && m[k].createdAt <= m[k].updatedAt < clock
  }

  ghost predicate IssuesKeyed(m: map<nat, Issue>, next: nat, clock: nat) {
    0 < next && forall k :: k in m ==> m[k].id == k && 0 < k < next && m[k].createdAt <= m[k].updatedAt < clock
  }

  ghost predicate CommentsKeyed(m: map<nat, Comment>, next: nat, clock: nat) {
    0 < next && forall k :: k in m ==> m[k].id == k && 0 < k < next && m[k].createdAt <= m[k].updatedAt < clock
  }

  /** Each table: a later id was created later, so id order and creation order agree. */
  ghost predicate UsersOrdered(m: map<nat, User>) {
    forall a, b :: a in m && b in m && a < b ==> m[a].createdAt < m[b].createdAt
  }

  ghost predicate ProjectsOrdered(m: map<nat, Project>) {
    forall a, b :: a in m && b in m && a < b ==> m[a].createdAt < m[b].createdAt
  }

  ghost predicate IssuesOrdered(m: map<nat, Issue>) {
    forall a, b :: a in m && b in m && a < b ==> m[a].createdAt < m[b].createdAt
  }

  ghost predicate CommentsOrdered(m: map<nat, Comment>) {
    forall a, b :: a in m && b in m && a < b ==> m[a].createdAt < m[b].createdAt
  }

  // The table lemmas: the ways a save or a delete changes a table keep it keyed and ordered.

  lemma UsersLater(m: map<nat, User>, next: nat, clock: nat, next': nat, clock': nat)
    requires UsersKeyed(m, next, clock) && next <= next' && clock <= clock'
    ensures UsersKeyed(m, next', clock')
  {
  }

  /** A row saved under the next id at the current time keeps the table keyed and ordered. */
  lemma UsersAdd(m: map<nat, User>, next: nat, clock: nat, row: User)
    requires UsersKeyed(m, next, clock) && UsersOrdered(m)
    requires row.id == next && row.createdAt == clock && row.updatedAt == clock
    ensures next !in m
    ensures UsersKeyed(m[next := row], next + 1, clock + 1) && UsersOrdered(m[next := row])
  {
    var m' := m[next := row];
    forall a, b | a in m' && b in m' && a < b ensures m'[a].createdAt < m'[b].createdAt {
      if b == next {
        assert a in m;
      }
    }
  }

  /** Saving an existing row again stamps `updated_at` only. */
  lemma UsersTouch(m: map<nat, User>, next: nat, clock: nat, row: User)
    requires UsersKeyed(m, next, clock) && UsersOrdered(m)
    requires row.id in m && row.createdAt == m[row.id].createdAt && row.updatedAt == clock
    ensures UsersKeyed(m[row.id := row], next, clock + 1) && UsersOrdered(m[row.id := row])
  {
  }

  lemma UsersDrop(m: map<nat, User>, next: nat, clock: nat, gone: set<nat>)
    requires UsersKeyed(m, next, clock) && UsersOrdered(m)
    ensures UsersKeyed(m - gone, next, clock) && UsersOrdered(m - gone)
  {
  }

  lemma ProjectsLater(m: map<nat, Project>, next: nat, clock: nat, next': nat, clock': nat)
    requires ProjectsKeyed(m, next, clock) && next <= next' && clock <= clock'
    ensures ProjectsKeyed(m, next', clock')
  {
  }

  /** A row saved under the next id at the current time keeps the table keyed and ordered. */
  lemma ProjectsAdd(m: map<nat, Project>, next: nat, clock: nat, row: Project)
    requires ProjectsKeyed(m, next, clock) && ProjectsOrdered(m)
    requires row.id == next && row.createdAt == clock && row.updatedAt == clock
    ensures next !in m
    ensures ProjectsKeyed(m[next := row], next + 1, clock + 1) && ProjectsOrdered(m[next := row])
  {
    var m' := m[next := row];
    forall a, b | a in m' && b in m' && a < b ensures m'[a].createdAt < m'[b].createdAt {
      if b == next {
        assert a in m;
      }
    }
  }

  /** Saving an existing row again stamps `updated_at` only. */
  lemma ProjectsTouch(m: map<nat, Project>, next: nat, clock: nat, row: Project)
    requires ProjectsKeyed(m, next, clock) && ProjectsOrdered(m)
    requires row.id in m && row.createdAt == m[row.id].createdAt && row.updatedAt == clock
    ensures ProjectsKeyed(m[row.id := row], next, clock + 1) && ProjectsOrdered(m[row.id := row])
  {
  }

  lemma ProjectsDrop(m: map<nat, Project>, next: nat, clock: nat, gone: set<nat>)
    requires ProjectsKeyed(m, next, clock) && ProjectsOrdered(m)
    ensures ProjectsKeyed(m - gone, next, clock) && ProjectsOrdered(m - gone)
  {
  }

  lemma IssuesLater(m: map<nat, Issue>, next: nat, clock: nat, next': nat, clock': nat)
    requires IssuesKeyed(m, next, clock) && next <= next' && clock <= clock'
    ensures IssuesKeyed(m, next', clock')
  {
  }

  /** A row saved under the next id at the current time keeps the table keyed and ordered. */
  lemma IssuesAdd(m: map<nat, Issue>, next: nat, clock: nat, row: Issue)
    requires IssuesKeyed(m, next, clock) && IssuesOrdered(m)
    requires row.id == next && row.createdAt == clock && row.updatedAt == clock
    ensures next !in m
    ensures IssuesKeyed(m[next := row], next + 1, clock + 1) && IssuesOrdered(m[next := row])
  {
    var m' := m[next := row];
    forall a, b | a in m' && b in m' && a < b ensures m'[a].createdAt < m'[b].createdAt {
      if b == next {
        assert a in m;
      }
    }
  }

  /** Saving an existing row again stamps `updated_at` only. */
  lemma IssuesTouch(m: map<nat, Issue>, next: nat, clock: nat, row: Issue)
    requires IssuesKeyed(m, next, clock) && IssuesOrdered(m)
    requires row.id in m && row.createdAt == m[row.id].createdAt && row.updatedAt == clock
    ensures IssuesKeyed(m[row.id := row], next, clock + 1) && IssuesOrdered(m[row.id := row])
  {
  }

  lemma IssuesDrop(m: map<nat, Issue>, next: nat, clock: nat, gone: set<nat>)
    requires IssuesKeyed(m, next, clock) && IssuesOrdered(m)
    ensures IssuesKeyed(m - gone, next, clock) && IssuesOrdered(m - gone)
  {
  }

  lemma CommentsLater(m: map<nat, Comment>, next: nat, clock: nat, next': nat, clock': nat)
    requires CommentsKeyed(m, next, clock) && next <= next' && clock <= clock'
    ensures CommentsKeyed(m, next', clock')
  {
  }

  /** A row saved under the next id at the current time keeps the table keyed and ordered. */
  lemma CommentsAdd(m: map<nat, Comment>, next: nat, clock: nat, row: Comment)
    requires CommentsKeyed(m, next, clock) && CommentsOrdered(m)
    requires row.id == next && row.createdAt == clock && row.updatedAt == clock
    ensures next !in m
    ensures CommentsKeyed(m[next := row], next + 1, clock + 1) && CommentsOrdered(m[next := row])
  {
    var m' := m[next := row];
    forall a, b | a in m' && b in m' && a < b ensures m'[a].createdAt < m'[b].createdAt {
      if b == next {
        assert a in m;
      }
    }
  }

  /** Saving an existing row again stamps `updated_at` only. */
  lemma CommentsTouch(m: map<nat, Comment>, next: nat, clock: nat, row: Comment)
    requires CommentsKeyed(m, next, clock) && CommentsOrdered(m)
    requires row.id in m && row.createdAt == m[row.id].createdAt && row.updatedAt == clock
    ensures CommentsKeyed(m[row.id := row], next, clock + 1) && CommentsOrdered(m[row.id := row])
  {
  }

  lemma CommentsDrop(m: map<nat, Comment>, next: nat, clock: nat, gone: set<nat>)
    requires CommentsKeyed(m, next, clock) && CommentsOrdered(m)
    ensures CommentsKeyed(m - gone, next, clock) && CommentsOrdered(m - gone)
  {
  }

  /** A nullable foreign key: empty or naming an existing row. */
  predicate Ref(r: Option<nat>, ids: set<nat>) {
    r.None? || r.value in ids
  }

  /** Referential integrity of each table's foreign keys. */
  ghost predicate ProjectsLinked(m: map<nat, Project>, users: set<nat>) {
    forall k :: k in m ==> Ref(m[k].createdBy, users)
  }

  ghost predicate IssuesLinked(m: map<nat, Issue>, projects: set<nat>, users: set<nat>) {
    forall k :: k in m ==> m[k].project in projects && Ref(m[k].reporter, users) && Ref(m[k].assignee, users)
  }

  ghost predicate CommentsLinked(m: map<nat, Comment>, issues: set<nat>, users: set<nat>) {
    forall k :: k in m ==> m[k].issue in issues && Ref(m[k].author, users)
  }

  /** Foreign keys stay valid when the referenced tables only gain rows. */
  lemma ProjectsLinkedWiden(m: map<nat, Project>, users: set<nat>, users': set<nat>)
    requires ProjectsLinked(m, users) && users <= users'
    ensures ProjectsLinked(m, users')
  {
  }

  lemma IssuesLinkedWiden(m: map<nat, Issue>, projects: set<nat>, users: set<nat>, projects': set<nat>, users': set<nat>)
    requires IssuesLinked(m, projects, users) && projects <= projects' && users <= users'
    ensures IssuesLinked(m, projects', users')
  {
  }

  lemma CommentsLinkedWiden(m: map<nat, Comment>, issues: set<nat>, users: set<nat>, issues': set<nat>, users': set<nat>)
    requires CommentsLinked(m, issues, users) && issues <= issues' && users <= users'
    ensures CommentsLinked(m, issues', users')
  {
  }

  /** Foreign keys stay valid when a row whose own keys resolve is saved under any id. */
  lemma ProjectsLinkedPut(m: map<nat, Project>, users: set<nat>, k: nat, row: Project)
    requires ProjectsLinked(m, users) && Ref(row.createdBy, users)
    ensures ProjectsLinked(m[k := row], users)
  {
  }

  lemma IssuesLinkedPut(m: map<nat, Issue>, projects: set<nat>, users: set<nat>, k: nat, row: Issue)
    requires IssuesLinked(m, projects, users)
    requires row.project in projects && Ref(row.reporter, users) && Ref(row.assignee, users)
    ensures IssuesLinked(m[k := row], projects, users)
  {
  }

  lemma CommentsLinkedPut(m: map<nat, Comment>, issues: set<nat>, users: set<nat>, k: nat, row: Comment)
    requires CommentsLinked(m, issues, users) && row.issue in issues && Ref(row.author, users)
    ensures CommentsLinked(m[k := row], issues, users)
  {
  }

  /** The unique constraints on `email` and `username`. */
  ghost predicate UniqueAccounts(m: map<nat, User>) {
    forall a, b :: a in m && b in m && a != b ==> m[a].email != m[b].email && m[a].username != m[b].username
  }

  /** A new account whose email and username no account has keeps both unique. */
  lemma UniqueAccountsAdd(m: map<nat, User>, k: nat, row: User)
    requires UniqueAccounts(m) && k !in m
    requires forall j :: j in m ==> m[j].email != row.email && m[j].username != row.username
    ensures UniqueAccounts(m[k := row])
  {
    var m' := m[k := row];
    forall a, b | a in m' && b in m' && a != b ensures m'[a].email != m'[b].email && m'[a].username != m'[b].username {
      if a == k {
        assert b in m;
      } else if b == k {
        assert a in m;
      }
    }
  }

  /** SET_NULL on `created_by`: every project of the deleted user loses its creator; nothing else changes. */
  function UnsetCreators(m: map<nat, Project>, gone: nat): (r: map<nat, Project>)
    ensures r.Keys == m.Keys
    ensures forall k :: k in m ==> r[k] == m[k].(createdBy := Unset(m[k].createdBy, gone))
  {
    map k | k in m :: m[k].(createdBy := Unset(m[k].createdBy, gone))
  }

  /** SET_NULL on `reporter` and on `assignee`. */
  function UnsetPeople(m: map<nat, Issue>, gone: nat): (r: map<nat, Issue>)
    ensures r.Keys == m.Keys
    ensures forall k :: k in m ==> r[k] == m[k].(reporter := Unset(m[k].reporter, gone), assignee := Unset(m[k].assignee, gone))
  {
    map k | k in m :: m[k].(reporter := Unset(m[k].reporter, gone), assignee := Unset(m[k].assignee, gone))
  }

  /** SET_NULL on `author`. */
  function UnsetAuthors(m: map<nat, Comment>, gone: nat): (r: map<nat, Comment>)
    ensures r.Keys == m.Keys
    ensures forall k :: k in m ==> r[k] == m[k].(author := Unset(m[k].author, gone))
  {
    map k | k in m :: m[k].(author := Unset(m[k].author, gone))
  }

  // ---------------------------------------------------------------------------
  // Listings in the models' default order (`ordering = ['-created_at']`)

  /** `User.objects.all()`: every user exactly once, newest first. */
  lemma UsersListed(m: map<nat, User>, next: nat, clock: nat)
    requires UsersKeyed(m, next, clock) && UsersOrdered(m)
    ensures forall u :: u in Listing(m, next) <==> u.id in m && m[u.id] == u
    ensures Accounts.NewestFirst(Listing(m, next))
    ensures |Listing(m, next)| == |m|
  {
    var ids := KeysDescending(m.Keys, next);
    KeysDescendingSorted(m.Keys, next);
    ListingMembers(m, next);
    forall a, b | 0 <= a < b < |ids| ensures Listing(m, next)[a].createdAt > Listing(m, next)[b].createdAt {
      assert ids[a] in ids && ids[b] in ids;
    }
    ListingLength(m, next);
  }

  /** `Project.objects.all()`: every project exactly once, newest first. */
  lemma ProjectsListed(m: map<nat, Project>, next: nat, clock: nat)
    requires ProjectsKeyed(m, next, clock) && ProjectsOrdered(m)
    ensures forall p :: p in Listing(m, next) <==> p.id in m && m[p.id] == p
    ensures Projects.NewestFirst(Listing(m, next))
    ensures |Listing(m, next)| == |m|
  {
    var ids := KeysDescending(m.Keys, next);
    KeysDescendingSorted(m.Keys, next);
    ListingMembers(m, next);
    forall a, b | 0 <= a < b < |ids| ensures Listing(m, next)[a].createdAt > Listing(m, next)[b].createdAt {
      assert ids[a] in ids && ids[b] in ids;
    }
    ListingLength(m, next);
  }

  /** `Issue.objects.all()`: every issue exactly once, newest first. */
  lemma IssuesListed(m: map<nat, Issue>, next: nat, clock: nat)
    requires IssuesKeyed(m, next, clock) && IssuesOrdered(m)
    ensures forall i :: i in Listing(m, next) <==> i.id in m && m[i.id] == i
    ensures Issues.NewestFirst(Listing(m, next))
    ensures |Listing(m, next)| == |m|
  {
    var ids := KeysDescending(m.Keys, next);
    KeysDescendingSorted(m.Keys, next);
    ListingMembers(m, next);
    forall a, b | 0 <= a < b < |ids| ensures Listing(m, next)[a].createdAt > Listing(m, next)[b].createdAt {
      assert ids[a] in ids && ids[b] in ids;
    }
    ListingLength(m, next);
  }

  /** `Comment.objects.all()`: every comment exactly once, newest first. */
  lemma CommentsListed(m: map<nat, Comment>, next: nat, clock: nat)
    requires CommentsKeyed(m, next, clock) && CommentsOrdered(m)
    ensures forall c :: c in Listing(m, next) <==> c.id in m && m[c.id] == c
    ensures Comments.NewestFirst(Listing(m, next))
    ensures |Listing(m, next)| == |m|
  {
    var ids := KeysDescending(m.Keys, next);
    KeysDescendingSorted(m.Keys, next);
    ListingMembers(m, next);
    forall a, b | 0 <= a < b < |ids| ensures Listing(m, next)[a].createdAt > Listing(m, next)[b].createdAt {
      assert ids[a] in ids && ids[b] in ids;
    }
    ListingLength(m, next);
  }

  /** The ids of a project's issues (`project.issues`). */
  function IssuesOfProject(m: map<nat, Issue>, project: nat): set<nat> {
    set k | k in m && m[k].project == project
  }

  /** The ids of an issue's comments (`issue.comments`). */
  function CommentsOfIssue(m: map<nat, Comment>, issue: nat): set<nat> {
    set k | k in m && m[k].issue == issue
  }

  /** The ids of the comments on any of the given issues. */
  function CommentsOfIssues(m: map<nat, Comment>, ids: set<nat>): set<nat> {
    set k | k in m && m[k].issue in ids
  }

  /** `issue_count` is the number of issues the project's listing shows. */
  lemma IssueCountListed(m: map<nat, Issue>, next: nat, clock: nat, project: nat)
    requires IssuesKeyed(m, next, clock) && IssuesOrdered(m)
    ensures |IssuesOfProject(m, project)| == |Where(Listing(m, next), Only(ProjectIs(project)))|
  {
    var all := Listing(m, next);
    var listed := Where(all, Only(ProjectIs(project)));
    IssuesListed(m, next, clock);
    WherePreservesOrder(all, Only(ProjectIs(project)));
    NewestFirstDistinctIds(listed, m);
    var id := (x: Issue) => x.id;
    DistinctKeysCount(listed, id);
    forall x | x in listed ensures x.id in IssuesOfProject(m, project) {
      assert x in all && Holds(x, ProjectIs(project));
    }
    forall k | k in IssuesOfProject(m, project) ensures k in KeysOf(listed, id) {
      assert m[k] in all;
      assert m[k] in listed;
    }
    assert KeysOf(listed, id) == IssuesOfProject(m, project);
  }

  /** `comment_count` is the number of comments the issue's listing shows. */
  lemma CommentCountListed(m: map<nat, Comment>, next: nat, clock: nat, issue: nat)
    requires CommentsKeyed(m, next, clock) && CommentsOrdered(m)
    ensures |CommentsOfIssue(m, issue)| == |OfIssue(Listing(m, next), issue)|
  {
    var all := Listing(m, next);
    CommentsListed(m, next, clock);
    var listed := OfIssue(all, issue);
    OfIssuePreservesOrder(all, issue);
    forall a, b | 0 <= a < b < |listed| ensures listed[a].id != listed[b].id {
      assert listed[a] in all && listed[b] in all;
    }
    var id := (x: Comment) => x.id;
    DistinctKeysCount(listed, id);
    forall k | k in CommentsOfIssue(m, issue) ensures k in KeysOf(listed, id) {
      assert m[k] in all;
      assert m[k] in listed;
    }
    assert KeysOf(listed, id) == CommentsOfIssue(m, issue);
  }

  /**
   * The database: the four tables, the next value of each primary key sequence (keys start
   * at 1 and are never reused) and the time the next save stamps (`auto_now_add` /
   * `auto_now`), which grows with every save.
   */
  datatype Database = Database(
    users: map<nat, User>,
    projects: map<nat, Project>,
    issues: map<nat, Issue>,
    comments: map<nat, Comment>,
    nextUser: nat,
    nextProject: nat,
    nextIssue: nat,
    nextComment: nat,
    clock: nat)

  /** The empty database of a fresh installation. */
  const EmptyDatabase := Database(map[], map[], map[], map[], 1, 1, 1, 1, 0)

  /**
   * The invariant the database keeps: each table keyed by its ids below the next id, rows
   * newer by id, timestamps before the clock, every foreign key resolving, unique accounts.
   */
  ghost predicate Consistent(d: Database) {
    UsersKeyed(d.users, d.nextUser, d.clock) && ProjectsKeyed(d.projects, d.nextProject, d.clock) &&
    IssuesKeyed(d.issues, d.nextIssue, d.clock) && CommentsKeyed(d.comments, d.nextComment, d.clock) &&
    UsersOrdered(d.users) && ProjectsOrdered(d.projects) && IssuesOrdered(d.issues) && CommentsOrdered(d.comments) &&
    ProjectsLinked(d.projects, d.users.Keys) && IssuesLinked(d.issues, d.projects.Keys, d.users.Keys) &&
    CommentsLinked(d.comments, d.issues.Keys, d.users.Keys) && UniqueAccounts(d.users)
  }

  lemma EmptyConsistent()
    ensures Consistent(EmptyDatabase)
  {
  }

  // The write lemmas: each kind of save or delete the views perform keeps the database consistent.

  /** `create_user`: the row under the next id, one tick of the clock. */
  function UserAdded(d: Database, row: User): Database {
    d.(users := d.users[d.nextUser := row], nextUser := d.nextUser + 1, clock := d.clock + 1)
  }

  /** `create_user` with an email and a username no account has. */
  lemma InsertUserKeeps(d: Database, row: User)
    requires Consistent(d)
    requires row.id == d.nextUser && row.createdAt == d.clock && row.updatedAt == d.clock
    requires forall k :: k in d.users ==> d.users[k].email != row.email && d.users[k].username != row.username
    ensures d.nextUser !in d.users
    ensures Consistent(UserAdded(d, row))
  {
    UsersAdd(d.users, d.nextUser, d.clock, row);
    UniqueAccountsAdd(d.users, d.nextUser, row);
    ProjectsLater(d.projects, d.nextProject, d.clock, d.nextProject, d.clock + 1);
    IssuesLater(d.issues, d.nextIssue, d.clock, d.nextIssue, d.clock + 1);
    CommentsLater(d.comments, d.nextComment, d.clock, d.nextComment, d.clock + 1);
    var keys := d.users[d.nextUser := row].Keys;
    ProjectsLinkedWiden(d.projects, d.users.Keys, keys);
    IssuesLinkedWiden(d.issues, d.projects.Keys, d.users.Keys, d.projects.Keys, keys);
    CommentsLinkedWiden(d.comments, d.issues.Keys, d.users.Keys, d.issues.Keys, keys);
  }

  /** `serializer.save()` of a new project. */
  function ProjectAdded(d: Database, row: Project): Database {
    d.(projects := d.projects[d.nextProject := row], nextProject := d.nextProject + 1, clock := d.clock + 1)
  }

  lemma InsertProjectKeeps(d: Database, row: Project)
    requires Consistent(d)
    requires row.id == d.nextProject && row.createdAt == d.clock && row.updatedAt == d.clock
    requires Ref(row.createdBy, d.users.Keys)
    ensures d.nextProject !in d.projects
    ensures Consistent(ProjectAdded(d, row))
  {
    ProjectsAdd(d.projects, d.nextProject, d.clock, row);
    ProjectsLinkedPut(d.projects, d.users.Keys, d.nextProject, row);
    UsersLater(d.users, d.nextUser, d.clock, d.nextUser, d.clock + 1);
    IssuesLater(d.issues, d.nextIssue, d.clock, d.nextIssue, d.clock + 1);
    CommentsLater(d.comments, d.nextComment, d.clock, d.nextComment, d.clock + 1);
    IssuesLinkedWiden(d.issues, d.projects.Keys, d.users.Keys, d.projects[d.nextProject := row].Keys, d.users.Keys);
  }

  /** `serializer.save()` of an existing project: the row replaced under its id. */
  function ProjectResaved(d: Database, row: Project): Database {
    d.(projects := d.projects[row.id := row], clock := d.clock + 1)
  }

  lemma ResaveProjectKeeps(d: Database, row: Project)
    requires Consistent(d)
    requires row.id in d.projects && row.createdAt == d.projects[row.id].createdAt && row.updatedAt == d.clock
    requires Ref(row.createdBy, d.users.Keys)
    ensures Consistent(ProjectResaved(d, row))
  {
    ProjectsTouch(d.projects, d.nextProject, d.clock, row);
    ProjectsLinkedPut(d.projects, d.users.Keys, row.id, row);
    UsersLater(d.users, d.nextUser, d.clock, d.nextUser, d.clock + 1);
    IssuesLater(d.issues, d.nextIssue, d.clock, d.nextIssue, d.clock + 1);
    CommentsLater(d.comments, d.nextComment, d.clock, d.nextComment, d.clock + 1);
    assert d.projects[row.id := row].Keys == d.projects.Keys;
  }

  /** `project.delete()` with its cascade: the given issues and comments go with it. */
  function ProjectRemoved(d: Database, id: nat, doomed: set<nat>, orphans: set<nat>): Database {
    d.(projects := d.projects - {id}, issues := d.issues - doomed, comments := d.comments - orphans)
  }

  /** The project's CASCADE: its issues go, and the comments on them. */
  lemma DeleteProjectKeeps(d: Database, id: nat, doomed: set<nat>, orphans: set<nat>)
    requires Consistent(d)
    requires forall k :: k in d.issues && d.issues[k].project == id ==> k in doomed
    requires forall k :: k in d.comments && d.comments[k].issue in doomed ==> k in orphans
    ensures Consistent(ProjectRemoved(d, id, doomed, orphans))
  {
    ProjectsDrop(d.projects, d.nextProject, d.clock, {id});
    IssuesDrop(d.issues, d.nextIssue, d.clock, doomed);
    CommentsDrop(d.comments, d.nextComment, d.clock, orphans);
    assert IssuesLinked(d.issues - doomed, (d.projects - {id}).Keys, d.users.Keys);
    assert CommentsLinked(d.comments - orphans, (d.issues - doomed).Keys, d.users.Keys);
  }

  /** `serializer.save()` of a new issue. */
  function IssueAdded(d: Database, row: Issue): Database {
    d.(issues := d.issues[d.nextIssue := row], nextIssue := d.nextIssue + 1, clock := d.clock + 1)
  }

  lemma InsertIssueKeeps(d: Database, row: Issue)
    requires Consistent(d)
    requires row.id == d.nextIssue && row.createdAt == d.clock && row.updatedAt == d.clock
    requires row.project in d.projects && Ref(row.reporter, d.users.Keys) && Ref(row.assignee, d.users.Keys)
    ensures d.nextIssue !in d.issues
    ensures Consistent(IssueAdded(d, row))
  {
    IssuesAdd(d.issues, d.nextIssue, d.clock, row);
    IssuesLinkedPut(d.issues, d.projects.Keys, d.users.Keys, d.nextIssue, row);
    UsersLater(d.users, d.nextUser, d.clock, d.nextUser, d.clock + 1);
    ProjectsLater(d.projects, d.nextProject, d.clock, d.nextProject, d.clock + 1);
    CommentsLater(d.comments, d.nextComment, d.clock, d.nextComment, d.clock + 1);
    CommentsLinkedWiden(d.comments, d.issues.Keys, d.users.Keys, d.issues[d.nextIssue := row].Keys, d.users.Keys);
  }

  /** `save()` of an existing issue. */
  function IssueResaved(d: Database, row: Issue): Database {
    d.(issues := d.issues[row.id := row], clock := d.clock + 1)
  }

  lemma ResaveIssueKeeps(d: Database, row: Issue)
    requires Consistent(d)
    requires row.id in d.issues && row.createdAt == d.issues[row.id].createdAt && row.updatedAt == d.clock
    requires row.project in d.projects && Ref(row.reporter, d.users.Keys) && Ref(row.assignee, d.users.Keys)
    ensures Consistent(IssueResaved(d, row))
  {
    IssuesTouch(d.issues, d.nextIssue, d.clock, row);
    IssuesLinkedPut(d.issues, d.projects.Keys, d.users.Keys, row.id, row);
    UsersLater(d.users, d.nextUser, d.clock, d.nextUser, d.clock + 1);
    ProjectsLater(d.projects, d.nextProject, d.clock, d.nextProject, d.clock + 1);
    CommentsLater(d.comments, d.nextComment, d.clock, d.nextComment, d.clock + 1);
    assert d.issues[row.id := row].Keys == d.issues.Keys;
  }

  /** `issue.delete()` with its cascade: the given comments go with it. */
  function IssueRemoved(d: Database, id: nat, orphans: set<nat>): Database {
    d.(issues := d.issues - {id}, comments := d.comments - orphans)
  }

  /** The issue's CASCADE: its comments go. */
  lemma DeleteIssueKeeps(d: Database, id: nat, orphans: set<nat>)
    requires Consistent(d)
    requires forall k :: k in d.comments && d.comments[k].issue == id ==> k in orphans
    ensures Consistent(IssueRemoved(d, id, orphans))
  {
    IssuesDrop(d.issues, d.nextIssue, d.clock, {id});
    CommentsDrop(d.comments, d.nextComment, d.clock, orphans);
    assert CommentsLinked(d.comments - orphans, (d.issues - {id}).Keys, d.users.Keys);
  }

  /** `serializer.save()` of a new comment. */
  function CommentAdded(d: Database, row: Comment): Database {
    d.(comments := d.comments[d.nextComment := row], nextComment := d.nextComment + 1, clock := d.clock + 1)
  }

  lemma InsertCommentKeeps(d: Database, row: Comment)
    requires Consistent(d)
    requires row.id == d.nextComment && row.createdAt == d.clock && row.updatedAt == d.clock
    requires row.issue in d.issues && Ref(row.author, d.users.Keys)
    ensures d.nextComment !in d.comments
    ensures Consistent(CommentAdded(d, row))
  {
    CommentsAdd(d.comments, d.nextComment, d.clock, row);
    CommentsLinkedPut(d.comments, d.issues.Keys, d.users.Keys, d.nextComment, row);
    UsersLater(d.users, d.nextUser, d.clock, d.nextUser, d.clock + 1);
    ProjectsLater(d.projects, d.nextProject, d.clock, d.nextProject, d.clock + 1);
    IssuesLater(d.issues, d.nextIssue, d.clock, d.nextIssue, d.clock + 1);
  }

  /** `serializer.save()` of an existing comment. */
  function CommentResaved(d: Database, row: Comment): Database {
    d.(comments := d.comments[row.id := row], clock := d.clock + 1)
  }

  lemma ResaveCommentKeeps(d: Database, row: Comment)
    requires Consistent(d)
    requires row.id in d.comments && row.createdAt == d.comments[row.id].createdAt && row.updatedAt == d.clock
    requires row.issue in d.issues && Ref(row.author, d.users.Keys)
    ensures Consistent(CommentResaved(d, row))
  {
    CommentsTouch(d.comments, d.nextComment, d.clock, row);
    CommentsLinkedPut(d.comments, d.issues.Keys, d.users.Keys, row.id, row);
    UsersLater(d.users, d.nextUser, d.clock, d.nextUser, d.clock + 1);
    ProjectsLater(d.projects, d.nextProject, d.clock, d.nextProject, d.clock + 1);
    IssuesLater(d.issues, d.nextIssue, d.clock, d.nextIssue, d.clock + 1);
  }

  /** `comment.delete()` */
  function CommentRemoved(d: Database, id: nat): Database {
    d.(comments := d.comments - {id})
  }

  lemma DeleteCommentKeeps(d: Database, id: nat)
    requires Consistent(d)
    ensures Consistent(CommentRemoved(d, id))
  {
    CommentsDrop(d.comments, d.nextComment, d.clock, {id});
  }

  /** SET_NULL on one table keeps it keyed, ordered and linked to the remaining accounts. */
  lemma UnsetCreatorsKeeps(m: map<nat, Project>, next: nat, clock: nat, users: set<nat>, gone: nat)
    requires ProjectsKeyed(m, next, clock) && ProjectsOrdered(m) && ProjectsLinked(m, users)
    ensures ProjectsKeyed(UnsetCreators(m, gone), next, clock) && ProjectsOrdered(UnsetCreators(m, gone))
    ensures ProjectsLinked(UnsetCreators(m, gone), users - {gone})
  {
  }

  lemma UnsetPeopleKeeps(m: map<nat, Issue>, next: nat, clock: nat, projects: set<nat>, users: set<nat>, gone: nat)
    requires IssuesKeyed(m, next, clock) && IssuesOrdered(m) && IssuesLinked(m, projects, users)
    ensures IssuesKeyed(UnsetPeople(m, gone), next, clock) && IssuesOrdered(UnsetPeople(m, gone))
    ensures IssuesLinked(UnsetPeople(m, gone), projects, users - {gone})
  {
  }

  lemma UnsetAuthorsKeeps(m: map<nat, Comment>, next: nat, clock: nat, issues: set<nat>, users: set<nat>, gone: nat)
    requires CommentsKeyed(m, next, clock) && CommentsOrdered(m) && CommentsLinked(m, issues, users)
    ensures CommentsKeyed(UnsetAuthors(m, gone), next, clock) && CommentsOrdered(UnsetAuthors(m, gone))
    ensures CommentsLinked(UnsetAuthors(m, gone), issues, users - {gone})
  {
  }

  /** `user.delete()`: the account goes and SET_NULL empties every reference to it; no row of another table goes. */
  function UserRemoved(d: Database, id: nat): (e: Database)
    ensures e.users == d.users - {id}
    ensures e.projects == UnsetCreators(d.projects, id) && e.issues == UnsetPeople(d.issues, id) && e.comments == UnsetAuthors(d.comments, id)
    ensures e.nextUser == d.nextUser && e.nextProject == d.nextProject && e.nextIssue == d.nextIssue &&
            e.nextComment == d.nextComment && e.clock == d.clock
  {
    d.(users := d.users - {id}, projects := UnsetCreators(d.projects, id), issues := UnsetPeople(d.issues, id),
       comments := UnsetAuthors(d.comments, id))
  }

  /** The user's SET_NULL keeps the database consistent: no reference to the account is left, and no `updated_at` moves. */
  lemma DeleteUserKeeps(d: Database, id: nat)
    requires Consistent(d)
    ensures Consistent(UserRemoved(d, id))
  {
    UsersDrop(d.users, d.nextUser, d.clock, {id});
    assert (d.users - {id}).Keys == d.users.Keys - {id};
    UnsetCreatorsKeeps(d.projects, d.nextProject, d.clock, d.users.Keys, id);
    UnsetPeopleKeeps(d.issues, d.nextIssue, d.clock, d.projects.Keys, d.users.Keys, id);
    UnsetAuthorsKeeps(d.comments, d.nextComment, d.clock, d.issues.Keys, d.users.Keys, id);
  }

  // ---------------------------------------------------------------------------
  // What each write does to the rows, stated against the database before it

  /** Registration adds exactly one account under a fresh id and leaves every other account as it was. */
  lemma UserAddedOneRow(d: Database, u: User)
    requires UsersKeyed(d.users, d.nextUser, d.clock)
    ensures |UserAdded(d, u).users| == |d.users| + 1 && UserAdded(d, u).users[d.nextUser] == u
    ensures forall k :: k in d.users ==> k in UserAdded(d, u).users && UserAdded(d, u).users[k] == d.users[k]
  {
    assert d.nextUser !in d.users;
  }

  /** A create adds exactly one project under a fresh id and leaves every other project as it was. */
  lemma ProjectAddedOneRow(d: Database, p: Project)
    requires ProjectsKeyed(d.projects, d.nextProject, d.clock)
    ensures |ProjectAdded(d, p).projects| == |d.projects| + 1 && ProjectAdded(d, p).projects[d.nextProject] == p
    ensures forall k :: k in d.projects ==> k in ProjectAdded(d, p).projects && ProjectAdded(d, p).projects[k] == d.projects[k]
  {
    assert d.nextProject !in d.projects;
  }

  /** A create adds exactly one issue under a fresh id and leaves every other issue as it was. */
  lemma IssueAddedOneRow(d: Database, i: Issue)
    requires IssuesKeyed(d.issues, d.nextIssue, d.clock)
    ensures |IssueAdded(d, i).issues| == |d.issues| + 1 && IssueAdded(d, i).issues[d.nextIssue] == i
    ensures forall k :: k in d.issues ==> k in IssueAdded(d, i).issues && IssueAdded(d, i).issues[k] == d.issues[k]
  {
    assert d.nextIssue !in d.issues;
  }

  /** A create adds exactly one comment under a fresh id and leaves every other comment as it was. */
  lemma CommentAddedOneRow(d: Database, c: Comment)
    requires CommentsKeyed(d.comments, d.nextComment, d.clock)
    ensures |CommentAdded(d, c).comments| == |d.comments| + 1 && CommentAdded(d, c).comments[d.nextComment] == c
    ensures forall k :: k in d.comments ==> k in CommentAdded(d, c).comments && CommentAdded(d, c).comments[k] == d.comments[k]
  {
    assert d.nextComment !in d.comments;
  }

  /**
   * The project's cascade as the delete performs it: the project goes, an issue goes exactly
   * when it belongs to the project, a comment goes exactly when its issue went, and every row
   * that stays is unchanged.
   */
  lemma ProjectRemovedCascade(d: Database, id: nat)
    requires Consistent(d)
    ensures var doomed := IssuesOfProject(d.issues, id);
      var e := ProjectRemoved(d, id, doomed, CommentsOfIssues(d.comments, doomed));
      e.users == d.users && e.projects.Keys == d.projects.Keys - {id} &&
      (forall k :: k in e.issues <==> k in d.issues && d.issues[k].project != id) &&
      (forall k :: k in e.comments <==> k in d.comments && d.comments[k].issue in e.issues) &&
      (forall k :: k in e.projects ==> e.projects[k] == d.projects[k]) &&
      (forall k :: k in e.issues ==> e.issues[k] == d.issues[k]) &&
      (forall k :: k in e.comments ==> e.comments[k] == d.comments[k])
  {
    var doomed := IssuesOfProject(d.issues, id);
    var e := ProjectRemoved(d, id, doomed, CommentsOfIssues(d.comments, doomed));
    forall k | k in e.comments ensures d.comments[k].issue in e.issues {
      assert d.comments[k].issue in d.issues;
    }
  }

  /** The issue's cascade: the issue goes, a comment goes exactly when it was on that issue, the rest is unchanged. */
  lemma IssueRemovedCascade(d: Database, id: nat)
    requires Consistent(d)
    ensures var e := IssueRemoved(d, id, CommentsOfIssue(d.comments, id));
      e.users == d.users && e.projects == d.projects && e.issues.Keys == d.issues.Keys - {id} &&
      (forall k :: k in e.comments <==> k in d.comments && d.comments[k].issue != id) &&
      (forall k :: k in e.issues ==> e.issues[k] == d.issues[k]) &&
      (forall k :: k in e.comments ==> e.comments[k] == d.comments[k] && e.comments[k].issue in e.issues)
  {
    var e := IssueRemoved(d, id, CommentsOfIssue(d.comments, id));
    forall k | k in e.comments ensures e.comments[k].issue in e.issues {
      assert d.comments[k].issue in d.issues;
    }
  }

  /**
   * SET_NULL seen from the rows: after the user is deleted no row names the account, every
   * row survives, and a reference to anybody else is kept.
   */
  lemma UserRemovedUnreferenced(d: Database, id: nat)
    requires Consistent(d)
    ensures var e := UserRemoved(d, id);
      id !in e.users && e.projects.Keys == d.projects.Keys && e.issues.Keys == d.issues.Keys &&
      e.comments.Keys == d.comments.Keys &&
      (forall k :: k in d.projects ==> k in e.projects && e.projects[k].createdBy != Some(id) &&
                                       (d.projects[k].createdBy != Some(id) ==> e.projects[k] == d.projects[k])) &&
      (forall k :: k in d.issues ==> k in e.issues && e.issues[k].reporter != Some(id) && e.issues[k].assignee != Some(id) &&
                                     (d.issues[k].reporter != Some(id) ==> e.issues[k].reporter == d.issues[k].reporter) &&
                                     (d.issues[k].assignee != Some(id) ==> e.issues[k].assignee == d.issues[k].assignee) &&
                                     e.issues[k].project == d.issues[k].project &&
                                     e.issues[k].updatedAt == d.issues[k].updatedAt) &&
      (forall k :: k in d.comments ==> k in e.comments && e.comments[k].author != Some(id) &&
                                       (d.comments[k].author != Some(id) ==> e.comments[k] == d.comments[k]))
  {
  }
}
