/** The records the services exchange. */
module Types {
  import opened Outcomes
  import Json

  /** A repository as the git provider lists it; `null` fields are `None`. */
  datatype Repo = Repo(
    name: string,
    description: Option<string>,
    htmlUrl: string,
    updatedAt: Option<string>,
    createdAt: Option<string>,
    defaultBranch: Option<string>)

  /** A repository recommended for deletion together with the classifier's reason. */
  datatype DeletionCandidate = DeletionCandidate(repo: Repo, reason: string)

  /** The classification of one repository. `tags` holds whatever array the classifier's JSON held. */
  datatype Analysis = Analysis(category: string, tags: seq<Json.Value>, shouldKeep: bool, reason: string)

  /** The application's settings. */
  datatype AppConfig = AppConfig(githubUsername: string, githubToken: string, openaiApiKey: string, openaiModel: string)

  /** `text || ''` for a nullable string. */
  function OrEmpty(text: Option<string>): (r: string)
    ensures text.Some? ==> r == text.value
    ensures text.None? ==> r == ""
  {
    if text.Some? then text.value else ""
  }
}
