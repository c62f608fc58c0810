/** The records exchanged with the JIRA REST API. They are plain data; a
    member the JSON does not set keeps its default (null, 0 or false). */
module JiraObjects {
  import opened Common

  /** One project the user can see (GET /rest/api/2/project). */
  datatype JiraProject = JiraProject(
    self: Option<string>,
    id: int,
    key: Option<string>,
    name: Option<string>,
    avatarUrls: Option<map<string, string>>)

  /** `JiraIssue.clFields.clProject`. */
  datatype IssueProject = IssueProject(key: Option<string>)

  /** `JiraIssue.clFields.clIssueType`. */
  datatype IssueType = IssueType(name: Option<string>)

  /** `JiraIssue.clFields`: what a new issue carries. There is no priority:
      that member is commented out in the request record. */
  datatype IssueFields = IssueFields(
    project: IssueProject,
    summary: Option<string>,
    description: Option<string>,
    issuetype: IssueType)

  /** The body of POST /rest/api/2/issue/. */
  datatype JiraIssue = JiraIssue(fields: IssueFields)

  /** The reply to an issue creation. */
  datatype JiraIssueCreated = JiraIssueCreated(self: Option<string>, key: Option<string>, id: int)

  /** `JiraFileAttached.clAuthor`. */
  datatype Author = Author(
    self: Option<string>,
    name: Option<string>,
    emailAddress: Option<string>,
    avatarUrls: Option<map<string, string>>,
    displayName: Option<string>,
    active: bool)

  /** One element of the reply to an upload. `created` is a `DateTime`,
      kept here as its tick count. */
  datatype JiraFileAttached = JiraFileAttached(
    self: Option<string>,
    id: int,
    filename: Option<string>,
    author: Author,
    created: int,
    size: int,
    mimeType: Option<string>,
    content: Option<string>,
    thumbnail: Option<string>)

  /** `new JiraIssue()`: the nested `fields`, `project` and `issuetype`
      records exist (their initialisers run), every string in them is null. */
  function NewJiraIssue(): (r: JiraIssue)
    ensures r.fields.project.key.None? && r.fields.issuetype.name.None?
    ensures r.fields.summary.None? && r.fields.description.None?
  {
    JiraIssue(IssueFields(IssueProject(None), None, None, IssueType(None)))
  }

  /** `new JiraFileAttached()`: the nested `author` record exists and is empty. */
  function NewJiraFileAttached(): (r: JiraFileAttached)
    ensures r.author == Author(None, None, None, None, None, false)
    ensures r.filename.None? && r.self.None? && r.id == 0 && r.size == 0
  {
    JiraFileAttached(None, 0, None, Author(None, None, None, None, None, false), 0, 0, None, None, None)
  }

  /** `new JiraProject()`, the record that the JSON populates. */
  function NewJiraProject(): JiraProject
  {
    JiraProject(None, 0, None, None, None)
  }

  /** `new JiraIssueCreated()`, the record that the JSON populates. */
  function NewJiraIssueCreated(): JiraIssueCreated
  {
    JiraIssueCreated(None, None, 0)
  }
}
