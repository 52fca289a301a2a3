/** Projects: the row and the writable part of ProjectSerializer (projects/models.py, projects/serializers.py). */
module Projects {
  import opened Common

  /** A project row; `createdBy` is None once the creator's account is deleted. */
  datatype Project = Project(
    id: nat,
    name: string,
    description: string,
    createdBy: Option<nat>,
    createdAt: nat,
    updatedAt: nat)

  const NAME_MAX_LENGTH: nat := 255

  /**
   * A project request body. `createdBy` is whatever the client sent for the read-only
   * `created_by` field; the serializer never reads it.
   */
  datatype ProjectPayload = ProjectPayload(name: Option<string>, description: Option<string>, createdBy: Option<nat>)

  /** The validated writable fields: those present in the body, trimmed. */
  datatype ProjectChanges = ProjectChanges(name: Option<string>, description: Option<string>)

  /**
   * ProjectSerializer's validation; for a create or a full update (`partial` false) both fields
   * are required, and neither may be blank once trimmed.
   */
  function ValidateProject(body: ProjectPayload, partial: bool): (r: Result<ProjectChanges, seq<FieldError>>)
    ensures r.Err? ==> r.error != [] && forall e :: e in r.error ==> e.field in {"name", "description"}
    ensures r.Ok? ==> r.value == ProjectChanges(Cleaned(body.name), Cleaned(body.description))
    ensures r.Ok? <==>
      (!partial ==> body.name.Some? && body.description.Some?) &&
      (body.name.Some? ==> Strip(body.name.value) != "" && |Strip(body.name.value)| <= NAME_MAX_LENGTH) &&
      (body.description.Some? ==> Strip(body.description.value) != "")
  {
    var errs := CharFieldErrors("name", body.name, !partial, false, 0, Some(NAME_MAX_LENGTH))
              + CharFieldErrors("description", body.description, !partial, false, 0, None);
    if errs != [] then Err(errs) else Ok(ProjectChanges(Cleaned(body.name), Cleaned(body.description)))
  }

  /** Whatever the client says about `created_by`, validation comes out the same. */
  lemma ValidateIgnoresCreatedBy(body: ProjectPayload, claimed: Option<nat>, partial: bool)
    ensures ValidateProject(body.(createdBy := claimed), partial) == ValidateProject(body, partial)
  {
  }

  /** Saving validated changes: the fields present are replaced, `updated_at` is stamped, nothing else moves. */
  function ApplyProjectChanges(p: Project, c: ProjectChanges, now: nat): (q: Project)
    ensures q.id == p.id && q.createdBy == p.createdBy && q.createdAt == p.createdAt && q.updatedAt == now
    ensures q.name == (if c.name.Some? then c.name.value else p.name)
    ensures q.description == (if c.description.Some? then c.description.value else p.description)
  {
    p.(name := c.name.GetOr(p.name), description := c.description.GetOr(p.description), updatedAt := now)
  }

  /** `str(project)` is its name. */
  function ProjectString(p: Project): string {
    p.name
  }

  /** Projects newest first by `created_at` (the model's `ordering = ['-created_at']`), with no ties. */
  predicate NewestFirst(rows: seq<Project>) {
    forall a, b :: 0 <= a < b < |rows| ==> rows[a].createdAt > rows[b].createdAt
  }
}
