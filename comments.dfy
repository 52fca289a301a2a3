/**
 * Comments: the row, the writable part of CommentSerializer, `str(comment)` and the
 * `issue_id` list filter (comments/models.py, comments/serializers.py, comments/views.py).
 */
module Comments {
  import opened Common
  import opened Accounts
  import opened Issues

  /** A comment row; `author` is None once the author's account is deleted. */
  datatype Comment = Comment(
    id: nat,
    content: string,
    issue: nat,
    author: Option<nat>,
    createdAt: nat,
    updatedAt: nat)

  /**
   * A comment request body: `content` and `issue` are writable. `author` is whatever the
   * client sent for the read-only field; it is never read.
   */
  datatype CommentPayload = CommentPayload(content: Option<string>, issue: Option<nat>, author: Option<nat>)

  datatype CommentChanges = CommentChanges(content: Option<string>, issue: Option<nat>)

  /** CommentSerializer's validation against the existing issue ids; `content` is trimmed and may not be blank. */
  function ValidateComment(body: CommentPayload, partial: bool, issues: set<nat>): (r: Result<CommentChanges, seq<FieldError>>)
    ensures r.Err? ==> r.error != [] && forall e :: e in r.error ==> e.field in {"content", "issue"}
    ensures r.Ok? ==> r.value == CommentChanges(Cleaned(body.content), body.issue)
    ensures r.Ok? <==>
      (!partial ==> body.content.Some? && body.issue.Some?) &&
      (body.content.Some? ==> Strip(body.content.value) != "") &&
      (body.issue.Some? ==> body.issue.value in issues)
  {
    var errs := CharFieldErrors("content", body.content, !partial, false, 0, None)
              + PrimaryKeyErrors("issue", body.issue, !partial, issues);
    if errs != [] then Err(errs) else Ok(CommentChanges(Cleaned(body.content), body.issue))
  }

  /** The client's `author` never affects validation. */
  lemma ValidateIgnoresAuthor(body: CommentPayload, claimed: Option<nat>, partial: bool, issues: set<nat>)
    ensures ValidateComment(body.(author := claimed), partial, issues) == ValidateComment(body, partial, issues)
  {
  }

  function ApplyCommentChanges(c: Comment, ch: CommentChanges, now: nat): (d: Comment)
    ensures d.id == c.id && d.author == c.author && d.createdAt == c.createdAt && d.updatedAt == now
    ensures d.content == (if ch.content.Some? then ch.content.value else c.content)
    ensures d.issue == (if ch.issue.Some? then ch.issue.value else c.issue)
  {
    c.(content := ch.content.GetOr(c.content), issue := ch.issue.GetOr(c.issue), updatedAt := now)
  }

  /** `f'Comment by {self.author} on {self.issue}'`; a missing author prints as None. */
  function CommentString(author: Option<User>, issue: Issue): string {
    "Comment by " + (if author.Some? then UserString(author.value) else "None") + " on " + IssueString(issue)
  }

  /** Comments newest first by `created_at`, with no ties. */
  predicate NewestFirst(rows: seq<Comment>) {
    forall a, b :: 0 <= a < b < |rows| ==> rows[a].createdAt > rows[b].createdAt
  }

  /** `filter(issue_id=...)` */
  function OfIssue(rows: seq<Comment>, issue: nat): (r: seq<Comment>)
    ensures |r| <= |rows|
    ensures forall c :: c in r <==> c in rows && c.issue == issue
  {
    if rows == [] then []
    else if rows[0].issue == issue then [rows[0]] + OfIssue(rows[1..], issue)
    else OfIssue(rows[1..], issue)
  }

  lemma {:induction false} OfIssuePreservesOrder(rows: seq<Comment>, issue: nat)
    requires NewestFirst(rows)
    ensures NewestFirst(OfIssue(rows, issue))
  {
    if rows != [] {
      OfIssuePreservesOrder(rows[1..], issue);
      var rest := OfIssue(rows[1..], issue);
      forall k | 0 <= k < |rest| ensures rest[k].createdAt < rows[0].createdAt {
        assert rest[k] in rows[1..];
      }
    }
  }

  /** CommentViewSet.get_queryset: a non-empty `issue_id` restricts to that issue. */
  function CommentQuerySet(rows: seq<Comment>, issueId: Option<nat>): (r: seq<Comment>)
    ensures issueId.None? ==> r == rows
    ensures forall c :: c in r <==> c in rows && (issueId.Some? ==> c.issue == issueId.value)
  {
    if issueId.Some? then OfIssue(rows, issueId.value) else rows
  }
}
