# Bug tracker core, modelled in Dafny

This project models the server side of a small bug tracker, a Django REST application. It has
four applications:

- **accounts**: registration, the user listing and `me`;
- **projects**: projects and their filtered issue listing;
- **issues**: issues with a status and a priority, plus a reporter-or-assignee permission;
- **comments**: comments on issues.

All requests go through one exception handler, which rewrites 401, 403 and 404 bodies into an
`{error, message}` envelope.

The model is one in-memory tracker (`Tracker.Store`). It holds a single `Tables.Database`
value with:

- four tables keyed by primary key;
- the next value of each key sequence;
- a clock that stamps `created_at` and `updated_at`.

Every endpoint is a member of the store. Reads are functions and writes are methods. Each
method's postcondition gives the reply and the exact new database for every branch, and the
checks come in the same order as in the views: 401, then 404, then 403, then 400. Each new database
is written as a named function of the old one (`IssueAdded`, `ProjectRemoved`, `UserRemoved`,
…).

`Tables` proves, value by value, that each of these writes keeps the database `Consistent`.
`Consistent` means:

- every row sits under its own id, below the next id;
- a larger id means a later creation, so newest first equals descending id;
- every timestamp lies before the clock;
- every issue's project exists, every comment's issue exists, and every non-null user
  reference names an existing account;
- emails and usernames are unique.

`Tables` also proves what each write does to the rows: an insert adds exactly one row; a
delete removes exactly its cascade; SET_NULL leaves no reference to the deleted account.

The pure parts are datatypes, functions and lemmas, each in its own module:

- `Accounts`: registration validation;
- `Projects` and `Comments`: the serializers' writable fields;
- `Issues`: choice lists, validators and queryset filters;
- `ProjectIssues`: the filter chain of the project `issues` action;
- `Permissions`: the permission list each issue action runs;
- `Http`: the exception handler.

Every string field of the serializers trims leading and trailing whitespace before it is
checked. So a blank value is one that is empty once trimmed (`Common.Filled`), length limits
count the trimmed text, and the trimmed text (`Common.Cleaned`) is what gets saved. Choice
fields, query parameters and the `status` of `update_status` are not trimmed.

Some members have no contract and so no row in the table below. Where other members state
what they do, those are named beside them:

- `Accounts.UserString`, `Projects.ProjectString`, `Issues.IssueString` and
  `Comments.CommentString`: the `__str__` forms (backend/accounts/models.py:19-20,
  backend/projects/models.py:27-28, backend/issues/models.py:48-49,
  backend/comments/models.py:28-29), which no other member uses;
- `Accounts.FullName`: `get_full_name`, for the `*_name` read-only fields;
- `Accounts.Serialize`: UserSerializer (backend/accounts/serializers.py:10-17), stated by
  `Accounts.SerializeKeepsIdentity` and `Accounts.SerializeHidesPassword`;
- `Permissions.HasObjectPermission` and `Permissions.ObjectPermitted`: one permission's
  object check (backend/issues/permissions.py:13-17) and the conjunction over the list
  (backend/issues/views.py:41-47), stated by `Permissions.UpdatePermittedIff`,
  `Permissions.ReporterPermitted`, `Permissions.AssigneePermitted`,
  `Permissions.StrangerDenied` and `Permissions.OwnershipCheckedOnlyOnUpdate`;
- `Tracker.Store.Authenticated`: `IsAuthenticated` (backend/issues/views.py:20), stated by
  the 401 branch of every endpoint;
- `Tracker.Store.IssueCount` and `Tracker.Store.CommentCount`: `get_issue_count` and
  `get_comment_count` (backend/projects/serializers.py:20-24,
  backend/issues/serializers.py:25-29), stated by `Tracker.Store.IssueCountIsListed` and
  `Tracker.Store.CommentCountIsListed`;
- `Tracker.Store.ViewProject`, `Tracker.Store.ViewIssue` and `Tracker.Store.ViewComment`:
  the read-only fields (backend/projects/serializers.py:12-13,
  backend/issues/serializers.py:12-15, backend/comments/serializers.py:12-13), stated by
  `Tracker.Store.ViewsResolveReferences`;
- the new databases `Tables.UserAdded`, `ProjectAdded`, `ProjectResaved`, `ProjectRemoved`,
  `IssueAdded`, `IssueResaved`, `IssueRemoved`, `CommentAdded`, `CommentResaved` and
  `CommentRemoved`: the `save()` and `delete()` of each view (backend/accounts/views.py:27,
  backend/projects/views.py:31, backend/issues/views.py:39, 59, 76 and 100,
  backend/comments/views.py:38 and 50), stated by the matching `Insert*Keeps`,
  `Resave*Keeps`, `Delete*Keeps`, `*AddedOneRow` and `*RemovedCascade` lemmas and by the
  store methods that write them;
- `ProjectIssues.ApplyFilters` and `ProjectIssues.Matches`: the filter chain and its
  reference predicate (backend/projects/views.py:46-51), stated by the `ProjectIssues`
  lemmas.

Behaviour of the code worth noting:

- `update_status` and `assign` run only `IsAuthenticated` as the object permission.
  `get_permissions` adds the reporter-or-assignee check only for `update` and
  `partial_update`. So any authenticated user may change an issue's status or assignee, and
  `Permissions.OwnershipCheckedOnlyOnUpdate` records this.
- An unknown project in the body of a plain issue create is a 400 field error from the
  primary-key field, not a 404. Only `create-for-project` answers 404.
- `create-for-project` and `create-for-issue` still validate the body with the full
  serializer, so the body must name some existing project or issue. The URL's parent then
  replaces it.
- The 400 of `update_status` and the 404 of `assign` are built by the views themselves. They
  carry `{error: ...}` and never pass through the exception handler's envelope.

## Model

| member | source | states |
|---|---|---|
| Common.CharFieldErrors | backend/accounts/serializers.py:24-25 | a string field has no error iff it is absent and optional, or blank once trimmed where blank is allowed, or its trimmed length is within the bounds; at most one error, keyed on the field |
| Common.DecimalString | backend/accounts/serializers.py:24 | Python's `str(n)`: non-empty, digits only, with a leading zero exactly for 0 |
| Common.DecimalRoundTrip | backend/accounts/serializers.py:24-25 | reading back the decimal form gives the number: `int(str(n)) == n` |
| Common.DecimalStringInjective | backend/accounts/serializers.py:24-25 | different numbers have different decimal forms |
| Common.LengthLimitsSpelled | backend/projects/models.py:14 | the limits 8 and 255 that the length messages quote are spelled "8" and "255" |
| Common.IContainsIffIOccurs | backend/projects/views.py:51 | the recursive case-insensitive containment agrees with "the term occurs at some index" |
| Http.EnvelopeFor | backend/bug_tracking/exception_handler.py:15-29 | an envelope exists exactly for 401, 403 and 404, and it is an `{error, message}` body |
| Http.HandleException | backend/bug_tracking/exception_handler.py:8-31 | None stays None; the status code never changes; any code other than 401/403/404 keeps its response unchanged; 401/403/404 get the envelope |
| Http.Raise | backend/bug_tracking/exception_handler.py:12-14 | a raised API error keeps its status code through the handler |
| Http.HandleExceptionIdempotent | backend/bug_tracking/exception_handler.py:14-31 | handling an already handled response changes nothing |
| Http.EnvelopeIgnoresBody | backend/bug_tracking/exception_handler.py:14-29 | for 401/403/404 the result does not depend on the original body |
| Http.UnauthorizedEnvelope | backend/bug_tracking/exception_handler.py:15-19 | a 401 becomes {Unauthorized, "Authentication credentials were not provided or are invalid."} |
| Http.ForbiddenEnvelope | backend/bug_tracking/exception_handler.py:20-24 | a 403 becomes {Forbidden, "You do not have permission to perform this action."} |
| Http.NotFoundEnvelope | backend/bug_tracking/exception_handler.py:25-29 | a 404 becomes {Not Found, "The requested resource was not found."} |
| Http.ValidationErrorsPassThrough | backend/bug_tracking/exception_handler.py:14-31 | a 400 with serializer errors keeps its body |
| Accounts.SerializeHidesPassword | backend/accounts/serializers.py:24 | the password is write-only: users differing only in it serialize alike |
| Accounts.SerializeKeepsIdentity | backend/accounts/serializers.py:16-17 | the representation carries the row's id, email and username |
| Accounts.NormalizeEmail | backend/accounts/serializers.py:43 | the address `create_user` stores: same length, everything up to the last '@' kept, every character after it lowercased; no '@' means unchanged |
| Accounts.NormalizeEmailIdempotent | backend/accounts/serializers.py:43 | normalising a stored address again changes nothing |
| Accounts.DomainCaseFolded | backend/accounts/serializers.py:43 | "a@X.com" is stored as "a@x.com", so it collides with an existing "a@x.com" only after the unique check |
| Accounts.UniqueFieldErrors | backend/accounts/models.py:12 | a unique field has no error exactly when it is given, not blank once trimmed, and its trimmed text is not taken |
| Accounts.RegistrationFieldErrors | backend/accounts/serializers.py:24-29 | no field error exactly when email and username are given, non-blank and free once trimmed, and both passwords are given with at least 8 characters after trimming |
| Accounts.ValidateRegistration | backend/accounts/serializers.py:31-37 | accepted data holds the body's trimmed values, equal trimmed passwords of 8+ characters, a non-blank free email and username, and no `password_confirm` |
| Accounts.RegistrationAcceptedIff | backend/accounts/serializers.py:24-37 | registration is accepted if and only if the trimmed email and username are non-blank and free, the trimmed password has 8+ characters and the trimmed confirmation equals it |
| Accounts.MismatchKeyedOnPassword | backend/accounts/serializers.py:35-36 | otherwise-valid data with different passwords fails with exactly one error, on `password` |
| Accounts.ShortPasswordRejected | backend/accounts/serializers.py:24-25 | a password or confirmation under 8 characters once trimmed is rejected |
| Accounts.TakenEmailRejected | backend/accounts/models.py:12 | an email whose trimmed text is already in use is rejected with the unique-email error |
| Projects.ValidateProject | backend/projects/models.py:14-15 | accepted exactly when, outside a partial update, name and description are present, neither is blank once trimmed and the trimmed name has at most 255 characters; the changes carry the trimmed texts |
| Projects.ValidateIgnoresCreatedBy | backend/projects/serializers.py:18 | a client-sent `created_by` never changes validation |
| Projects.ApplyProjectChanges | backend/projects/serializers.py:17-18 | an update replaces only the given name and description, stamps `updated_at`, and keeps id, creator and `created_at` |
| Issues.Codes | backend/issues/serializers.py:35 | the codes of a choice list, in declaration order |
| Issues.StatusCodes | backend/issues/models.py:15-19 | the status codes are open, in_progress, closed, joined "open, in_progress, closed" |
| Issues.PriorityCodes | backend/issues/models.py:21-26 | the priority codes are low, medium, high, critical, joined in that order |
| Issues.DefaultsAreChoices | backend/issues/models.py:30-31 | the defaults open and medium are among the choices |
| Issues.ValidateChoice | backend/issues/serializers.py:31-47 | a value is accepted iff it is one of the codes; the rejection lists the codes in order, joined by ", " |
| Issues.ValidateStatus | backend/issues/serializers.py:31-38 | accepts exactly the three status codes; otherwise the message lists them |
| Issues.ValidatePriority | backend/issues/serializers.py:40-47 | accepts exactly the four priority codes; otherwise the message lists them |
| Issues.ChoiceErrors | backend/issues/serializers.py:31-47 | a choice field has no error iff it is absent or its validator accepts it |
| Issues.AssigneeErrors | backend/issues/models.py:34 | the assignee may be absent or null; otherwise it must name an existing user |
| Issues.ValidateIssue | backend/issues/serializers.py:17-23 | accepted exactly when the required fields are present, title and description are not blank once trimmed, the trimmed title fits, the choices are valid and project and assignee exist; the changes carry the trimmed texts and never `reporter`, `id` or timestamps |
| Issues.InvalidPriorityRejected | backend/issues/serializers.py:40-47 | an invalid priority fails validation whatever else the body holds |
| Issues.ValidateIgnoresReporter | backend/issues/serializers.py:23 | a client-sent `reporter` never changes validation |
| Issues.NewIssue | backend/issues/models.py:30-31 | a new issue takes the status and priority given or the defaults open/medium, the caller as reporter, and the view's project |
| Issues.ApplyIssueChanges | backend/issues/serializers.py:23 | each of title, description, status, priority, project and assignee takes the given value or keeps the old one; id, reporter and `created_at` are kept |
| Issues.Where | backend/projects/views.py:46-51 | a row is kept iff it satisfies the lookup, or either lookup for an OR of two querysets |
| Issues.WherePreservesOrder | backend/issues/models.py:39 | filtering keeps a newest-first listing newest first |
| Issues.WhereIdempotent | backend/projects/views.py:46-51 | the same filter twice equals once |
| Issues.WhereCommutes | backend/projects/views.py:46-49 | two filters give the same rows in either order |
| Issues.WhereAll | backend/projects/views.py:46-51 | a filter every row passes changes nothing |
| Issues.IssueQuerySet | backend/issues/views.py:29-31 | with `project_id` exactly that project's issues; without it every issue, unchanged |
| Permissions.PermissionsFor | backend/issues/views.py:41-47 | every action needs authentication; reporter-or-assignee is added iff the action is update or partial_update |
| Permissions.DenialMessage | backend/issues/permissions.py:11 | a denial comes exactly when some permission refuses, and it always carries the fixed message |
| Permissions.UpdatePermittedIff | backend/issues/permissions.py:13-17 | on update, permitted iff the caller is the reporter or the assignee |
| Permissions.ReporterPermitted | backend/issues/permissions.py:17 | the reporter is permitted on every action |
| Permissions.AssigneePermitted | backend/issues/permissions.py:17 | the assignee is permitted on every action |
| Permissions.StrangerDenied | backend/issues/permissions.py:17 | on update, a caller who is neither reporter nor assignee is denied with the fixed message |
| Permissions.UnassignedOnlyReporter | backend/issues/permissions.py:17 | on an unassigned issue only the reporter may update |
| Permissions.OwnershipCheckedOnlyOnUpdate | backend/issues/views.py:41-47 | every other action, update_status, assign and destroy among them, grants any authenticated caller |
| Comments.ValidateComment | backend/comments/serializers.py:17-18 | accepted exactly when, outside a partial update, content and issue are present, content is not blank once trimmed and the issue exists; the changes carry the trimmed content and never `author` |
| Comments.ValidateIgnoresAuthor | backend/comments/serializers.py:18 | a client-sent `author` never changes validation |
| Comments.ApplyCommentChanges | backend/comments/serializers.py:17-18 | an update replaces only content and issue, and keeps id, author and `created_at` |
| Comments.OfIssue | backend/comments/views.py:28-30 | keeps exactly the comments on the issue |
| Comments.OfIssuePreservesOrder | backend/comments/models.py:21 | the issue filter keeps a newest-first listing newest first |
| Comments.CommentQuerySet | backend/comments/views.py:21-32 | with `issue_id` exactly that issue's comments; without it every comment, unchanged |
| ProjectIssues.ApplyFiltersExact | backend/projects/views.py:46-51 | an issue is listed iff it is among the rows, has the given status AND priority, and its title or description contains the search term case-insensitively |
| ProjectIssues.SearchFindsOccurrence | backend/projects/views.py:50-51 | a search alone keeps a row iff the lowered term occurs at some position of the lowered title or description |
| ProjectIssues.ApplyFiltersShrinks | backend/projects/views.py:46-51 | the filters only remove rows |
| ProjectIssues.ApplyFiltersPreservesOrder | backend/projects/views.py:39-51 | the filtered listing stays newest first |
| ProjectIssues.EmptyParametersNeutral | backend/projects/views.py:46-51 | absent or empty status, priority and search impose nothing |
| ProjectIssues.StatusOnly | backend/projects/views.py:46-47 | a status filter alone keeps exactly the rows with that status, in order |
| ProjectIssues.StatusSplits | backend/projects/views.py:46-47 | two different status filters select disjoint rows |
| ProjectIssues.ApplyFiltersIdempotent | backend/projects/views.py:46-51 | applying the same filters twice equals once |
| Tables.UniqueAccountsAdd | backend/accounts/models.py:12 | an account whose email and username are new keeps both unique |
| Tables.UsersListed | backend/accounts/models.py:17 | the listing holds every user exactly once, newest first |
| Tables.ProjectsListed | backend/projects/models.py:21 | the listing holds every project exactly once, newest first |
| Tables.IssuesListed | backend/issues/models.py:39 | the listing holds every issue exactly once, newest first |
| Tables.CommentsListed | backend/comments/models.py:21 | the listing holds every comment exactly once, newest first |
| Tables.IssueCountListed | backend/projects/serializers.py:20-24 | `issue_count` equals the number of the project's issues in the listing |
| Tables.CommentCountListed | backend/issues/serializers.py:25-29 | `comment_count` equals the number of the issue's comments in the listing |
| Tables.EmptyConsistent | backend/issues/models.py:32-34 | the empty database satisfies the invariant |
| Tables.InsertUserKeeps | backend/accounts/serializers.py:39-44 | creating a user with a fresh email and username keeps the invariant, under a fresh id |
| Tables.InsertProjectKeeps | backend/projects/views.py:27-31 | a new project whose creator exists keeps the invariant, under a fresh id |
| Tables.ResaveProjectKeeps | backend/projects/models.py:16-18 | re-saving a project keeps the invariant |
| Tables.DeleteProjectKeeps | backend/issues/models.py:32 | deleting a project together with all of its issues and their comments keeps every foreign key resolving |
| Tables.InsertIssueKeeps | backend/issues/views.py:35-39 | a new issue whose project, reporter and assignee exist keeps the invariant, under a fresh id |
| Tables.ResaveIssueKeeps | backend/issues/views.py:75-76 | re-saving an issue whose references exist keeps the invariant |
| Tables.DeleteIssueKeeps | backend/comments/models.py:15 | deleting an issue together with its comments keeps the invariant |
| Tables.InsertCommentKeeps | backend/comments/views.py:34-38 | a new comment on an existing issue by an existing author keeps the invariant, under a fresh id |
| Tables.ResaveCommentKeeps | backend/comments/models.py:14-18 | re-saving a comment on an existing issue keeps the invariant |
| Tables.DeleteCommentKeeps | backend/comments/views.py:13-19 | deleting a comment keeps the invariant |
| Tables.UnsetCreators | backend/projects/models.py:16 | every project survives; a creator equal to the deleted user becomes null, the rest is untouched |
| Tables.UnsetPeople | backend/issues/models.py:33-34 | every issue survives; a reporter or assignee equal to the deleted user becomes null |
| Tables.UnsetAuthors | backend/comments/models.py:16 | every comment survives; an author equal to the deleted user becomes null |
| Tables.UnsetCreatorsKeeps | backend/projects/models.py:16 | after SET_NULL every creator resolves among the remaining users |
| Tables.UnsetPeopleKeeps | backend/issues/models.py:33-34 | after SET_NULL every reporter and assignee resolves among the remaining users |
| Tables.UnsetAuthorsKeeps | backend/comments/models.py:16 | after SET_NULL every author resolves among the remaining users |
| Tables.UserRemoved | backend/issues/models.py:33-34 | deleting a user removes only that account, applies SET_NULL to each table, and moves no sequence or clock |
| Tables.DeleteUserKeeps | backend/issues/models.py:33-34 | deleting a user keeps the invariant |
| Tables.UserAddedOneRow | backend/accounts/views.py:26-31 | registration adds exactly one user and keeps the others |
| Tables.ProjectAddedOneRow | backend/projects/views.py:27-31 | a create adds exactly one project and keeps the others |
| Tables.IssueAddedOneRow | backend/issues/views.py:35-39 | a create adds exactly one issue and keeps the others |
| Tables.CommentAddedOneRow | backend/comments/views.py:34-38 | a create adds exactly one comment and keeps the others |
| Tables.ProjectRemovedCascade | backend/issues/models.py:32 | the project goes; an issue goes iff it belonged to the project; a comment goes iff its issue went; every surviving row is unchanged |
| Tables.IssueRemovedCascade | backend/comments/models.py:15 | the issue goes; a comment goes iff it was on that issue; every surviving row is unchanged and still resolves |
| Tables.UserRemovedUnreferenced | backend/issues/models.py:33-34 | after deleting a user no row names the account, every row survives, and references to anybody else stay |
| Tracker.Unauthorized | backend/bug_tracking/exception_handler.py:15-19 | a missing login is answered 401 with the Unauthorized envelope |
| Tracker.NotFound | backend/bug_tracking/exception_handler.py:25-29 | a missing object is answered 404 with the Not Found envelope |
| Tracker.Forbidden | backend/bug_tracking/exception_handler.py:20-24 | a refused permission is answered 403 with the Forbidden envelope, whatever its own message |
| Tracker.SerializeAll | backend/accounts/views.py:39-40 | one user representation per row, in order |
| Tracker.Store.ViewProjects | backend/projects/serializers.py:17 | one serialized project per row, in order |
| Tracker.Store.ViewIssues | backend/issues/serializers.py:19-22 | one serialized issue per row, in order |
| Tracker.Store.ViewComments | backend/comments/serializers.py:17 | one serialized comment per row, in order |
| Tracker.Store.ViewsResolveReferences | backend/issues/serializers.py:12-14 | for a stored row, `project_name` is the project's name, and a name or email is null exactly when its reference is null |
| Tracker.Store.UserListSpec | backend/accounts/views.py:39 | the user listing holds every stored user exactly once, newest first |
| Tracker.Store.ProjectListSpec | backend/projects/views.py:21-25 | the project listing holds every project exactly once, whoever created it, newest first |
| Tracker.Store.IssueListSpec | backend/issues/views.py:22-26 | the issue listing holds every stored issue exactly once, newest first |
| Tracker.Store.CommentListSpec | backend/comments/views.py:21-25 | the comment listing holds every stored comment exactly once, newest first |
| Tracker.Store.IssueCountIsListed | backend/projects/serializers.py:20-24 | a project's `issue_count` equals the length of its issue listing |
| Tracker.Store.CommentCountIsListed | backend/issues/serializers.py:25-29 | an issue's `comment_count` equals the length of its comment listing |
| Tracker.Store.Me | backend/accounts/views.py:43-49 | 401 without login; otherwise 200 with the caller's own record |
| Tracker.Store.ListUsers | backend/accounts/views.py:35-41 | 401 without login; otherwise 200 with every user |
| Tracker.Store.RetrieveUser | backend/accounts/views.py:35-41 | 401 without login, 404 for an unknown id, otherwise the user |
| Tracker.Store.ListProjects | backend/projects/views.py:21-25 | 401 without login; otherwise every project with its creator's name and issue count |
| Tracker.Store.RetrieveProject | backend/projects/views.py:13-25 | 401 without login, 404 for an unknown id, otherwise the project |
| Tracker.Store.ProjectIssueListSpec | backend/projects/views.py:38-51 | the project's listing is exactly its stored issues matching every given filter, newest first, and no longer than `issue_count` |
| Tracker.Store.ListProjectIssues | backend/projects/views.py:33-58 | 401 without login, 404 for an unknown project, otherwise the filtered issues of that project |
| Tracker.Store.ListIssues | backend/issues/views.py:22-33 | 401 without login; otherwise the issues of the `project_id` query set |
| Tracker.Store.RetrieveIssue | backend/issues/views.py:14-20 | 401 without login, 404 for an unknown id, otherwise the issue to any authenticated caller |
| Tracker.Store.ListComments | backend/comments/views.py:21-32 | 401 without login; otherwise the comments of the `issue_id` query set |
| Tracker.Store.RetrieveComment | backend/comments/views.py:13-19 | 401 without login, 404 for an unknown id, otherwise the comment |
| Tracker.Store.ListingsIgnoreCaller | backend/projects/views.py:21-25 | every listing is the same for any two authenticated callers |
| Tracker.Store.QuerySetsSpec | backend/issues/views.py:28-31 | the filtered issue and comment lists are exactly the stored rows that match, newest first |
| Tracker.Store.Register | backend/accounts/views.py:21-32 | needs no login; invalid data gives 400 with the errors and changes nothing; valid data whose normalised email is already stored gives 500 and changes nothing; otherwise exactly one user is added under a fresh id with the normalised email, answered 201 "User registered successfully" with the user |
| Tracker.Store.CreateProject | backend/projects/views.py:27-31 | 401/400 change nothing; otherwise one new project whose `created_by` is the caller whatever the body says, with issue count 0 |
| Tracker.Store.UpdateProject | backend/projects/serializers.py:17-18 | 401/404/400 change nothing; otherwise only the given fields of that project change |
| Tracker.Store.DeleteProject | backend/issues/models.py:32 | 401/404 change nothing; otherwise the project, its issues and their comments are removed and 204 answered |
| Tracker.Store.SaveNewIssue | backend/issues/views.py:35-39 | the saved issue takes the next id, the caller as reporter, and starts with no comments |
| Tracker.Store.SaveIssue | backend/issues/views.py:75-76 | the issue row is replaced and answered 200 |
| Tracker.Store.CreateIssue | backend/issues/views.py:35-39 | 401/400 change nothing; otherwise one new issue whose reporter is the caller |
| Tracker.Store.CreateIssueForProject | backend/issues/views.py:49-61 | 401, or 404 for an unknown project, changes nothing; 400 changes nothing; otherwise one new issue in the URL's project with the caller as reporter |
| Tracker.Store.UpdateIssue | backend/issues/views.py:41-47 | 401, 404, 403 for a caller who is neither reporter nor assignee, and 400 each change nothing; otherwise only the given fields change |
| Tracker.Store.UpdateStatus | backend/issues/views.py:63-78 | any authenticated caller; an absent or empty status gives 400 "Status is required." and changes nothing; otherwise the value is stored unchecked and only status and `updated_at` change |
| Tracker.Store.Assign | backend/issues/views.py:80-102 | any authenticated caller; an absent or zero id clears the assignee; an existing user becomes the assignee; an unknown id gives 404 "User not found." and saves nothing |
| Tracker.Store.DeleteIssue | backend/comments/models.py:15 | 401/404 change nothing; otherwise the issue and its comments are removed, by any authenticated caller |
| Tracker.Store.SaveNewComment | backend/comments/views.py:34-38 | the saved comment takes the next id and the given author |
| Tracker.Store.CreateComment | backend/comments/views.py:34-38 | 401/400 change nothing; otherwise one new comment whose author is the caller whatever the body says |
| Tracker.Store.CreateCommentForIssue | backend/comments/views.py:40-52 | 401, or 404 for an unknown issue, changes nothing; 400 with the errors changes nothing; otherwise one new comment on the URL's issue by the caller |
| Tracker.Store.UpdateComment | backend/comments/views.py:13-19 | any authenticated caller may update; 401/404/400 change nothing; otherwise only content and issue change |
| Tracker.Store.DeleteComment | backend/comments/views.py:13-19 | any authenticated caller may delete; 401/404 change nothing |
| Tracker.Store.DeleteUser | backend/issues/models.py:33-34 | the account goes and SET_NULL clears every reference to it; the invariant holds afterwards |

## Left out

- Authentication: the JWT tokens and the login and logout endpoints belong to external
  libraries. The caller is an input, `Option<nat>`, where None means "no valid credentials".
- Password hashing inside `create_user` is left out; the stored password is the one given.
- Tracker.Store.Register: of `create_user`'s normalisation it models `normalize_email` only,
  with ASCII lowercasing of the domain. `normalize_username` (Unicode NFKC) is not modelled, so
  a username that collides only after NFKC is inserted here, where the source answers 500 from
  the unique constraint. The 500 branch also leaves every key sequence where it was, although
  some databases consume a sequence value on a failed insert.
- Real time is left out: `created_at` and `updated_at` are ticks of a counter that grows with
  every save, so two rows never tie.
- Pagination envelopes come from settings that are not part of this model. Listings are whole
  sequences.
- Parameter parsing: `project_id`, `issue_id` and `assignee_id` arrive as numbers, and a
  non-numeric value, which makes Django fail with a server error, is not modelled.
  - `project_id` and `issue_id` are query strings: None stands for absent or empty. Any given
    value is truthy, "0" included, and filters by that id, so `Some(0)` yields no rows, as in
    the source.
  - `assignee_id` comes from the JSON body: None stands for absent or null and `Some(0)` for
    the falsy number 0; both clear the assignee. The truthy string "0", which the source looks
    up and answers with 404, is not modelled.
- The `project_id` and `issue_id` filters also narrow `get_object` on the detail routes. The
  model applies them to the list endpoints only.
- `Issues.ValidateIssue` reports `validate_status`'s and `validate_priority`'s messages for
  an invalid choice. The model-generated choice field would refuse the same values first,
  with its own "not a valid choice" message. Which values are refused is identical.
- `Accounts.RegistrationFieldErrors` leaves out the email-format and username-character
  validators and the maximum lengths of the user model's fields.
- Trimming removes the ASCII whitespace of Python's `str.strip`; other Unicode whitespace is
  not modelled.
- The 20-character maximum of `status` and `priority` is not checked on `update_status`,
  since the view saves without validation.
- `Tracker.Store.ViewProject`, `Tracker.Store.ViewIssue` and `Tracker.Store.ViewComment` give
  None for a name whose reference is null. The serializer omits such a read-only key or renders it null; the model
  does not distinguish the two.
- The "icontains" search folds ASCII letters only. It approximates the database collation.
- Read-only user viewset: there is no endpoint that deletes an account.
  `Tracker.Store.DeleteUser` models the deletion the `on_delete` rules define.
- Concurrency and last-write-wins between requests belong to the database and are not
  modelled.
- Admin classes, migrations, routing tables and the frontend are outside this model.
