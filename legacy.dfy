/** The original single-file program: it checks its settings at start-up, classifies every listed
    repository with the same normalisation as the classification adapter, annotates the kept ones,
    swallowing every README and update error, and writes a report of the rest. The hosting service,
    the language model, the file system and the clock are the fields of a `World`; every call the
    program makes is recorded in a ghost log. */
module Legacy {
  import opened Outcomes
  import opened Types
  import opened Sequences
  import Json
  import Text
  import Config
  import GitHubService
  import OpenAIService
  import ReportService
  import GitRepoAnalysis

  const StartupMessage := "GitHub username, GitHub token, and OpenAI API key must be set in .env file"
  const Unknown := "unknown"
  const ReportStem := "repos-to-delete"
  const ProfileRoot := "https://github.com/"

  /** The start-up check on the environment: the settings, or the error that stops the program. */
  function Startup(env: map<string, string>): (r: Outcome<AppConfig>)
    ensures r.Fail? ==> r.error == StartupMessage
  {
    var username := Config.EnvText(env, "GITHUB_USERNAME");
    var token := Config.EnvText(env, "GITHUB_TOKEN");
    var apiKey := Config.EnvText(env, "OPENAI_API_KEY");
    var model := Config.EnvText(env, "OPENAI_MODEL");
    var modelName := if model != "" then model else Config.DefaultModel;
    if username == "" || token == "" || apiKey == "" then Fail(StartupMessage)
    else Ok(AppConfig(username, token, apiKey, modelName))
  }

  /** The start-up check accepts exactly the environments the configuration services accept, and
      reads the same settings from them; only the error text differs. */
  lemma StartupAgrees(env: map<string, string>)
    ensures Startup(env).Ok? <==> Config.ConfigFromEnv(env).Ok?
    ensures Startup(env).Ok? ==> Startup(env).value == Config.ConfigFromEnv(env).value
  {
  }

  /** The hosting service, the language model, the file system and the clock, as seen by one run. */
  datatype World = World(
    username: string,
    model: string,
    listing: Outcome<seq<Repo>>,
    readmeReply: string -> GitHubService.ContentReply,
    decode: string -> string,
    complete: OpenAIService.Request -> OpenAIService.Completion,
    parse: string -> Option<Json.Value>,
    write: (string, string) -> Outcome<()>,
    now: string)

  /** One call the program makes outside itself. */
  datatype Call =
    | ListRepos
    | FetchReadme(repoName: string)
    | Complete(request: OpenAIService.Request)
    | Update(repoName: string, description: string)
    | WriteReport(fileName: string, content: string)

  /** A repository's analysis together with the name and description it was made under. */
  datatype RepoAnalysis = RepoAnalysis(name: string, description: string, analysis: Analysis)

  /** A row of the legacy report. */
  datatype RepoToDelete = RepoToDelete(name: string, url: string, reason: string, lastUpdated: string, createdAt: string)

  /** `name || 'unknown'`, for a repository's name. */
  function RepoName(name: string): (r: string)
    ensures r != ""
    ensures name != "" ==> r == name
    ensures name == "" ==> r == Unknown
  {
    if name != "" then name else Unknown
  }

  /** The README text: the decoded content of a file with content, and "" for anything else,
      including every error the request threw. */
  function Readme(reply: GitHubService.ContentReply, decode: string -> string): (r: string)
    ensures GitHubService.HasFileContent(reply) ==> r == decode(reply.content.value)
    ensures !GitHubService.HasFileContent(reply) ==> r == ""
  {
    match reply
    case HttpError(_, _) => ""
    case Data(kind, content) => if kind == "file" && content.Some? && content.value != "" then decode(content.value) else ""
  }

  /** The legacy README agrees with the provider's `getFileContent` wherever that returns, and is
      empty where it throws. */
  lemma ReadmeAgrees(reply: GitHubService.ContentReply, decode: string -> string)
    ensures GitHubService.GetFileContent(reply, decode).Ok? ==>
      Readme(reply, decode) == OrEmpty(GitHubService.GetFileContent(reply, decode).value)
    ensures GitHubService.GetFileContent(reply, decode).Fail? ==> Readme(reply, decode) == ""
  {
  }

  /** The classification request for `repo`. */
  function ClassifyRequest(w: World, repo: Repo): OpenAIService.Request
  {
    var name := RepoName(repo.name);
    OpenAIService.Request(w.model, name, OrEmpty(repo.description), Readme(w.readmeReply(name), w.decode))
  }

  /** `analyzeRepo`: the classification of the language model's reply under the fallback name and
      description; it never fails. */
  function AnalyzeRepo(w: World, repo: Repo): (r: RepoAnalysis)
    ensures r.name == RepoName(repo.name) && r.description == OrEmpty(repo.description)
    ensures !r.analysis.shouldKeep <==> OpenAIService.RepliesDelete(w.complete(ClassifyRequest(w, repo)), w.parse)
  {
    OpenAIService.DeleteOnlyWhenSaid(w.complete(ClassifyRequest(w, repo)), w.parse);
    RepoAnalysis(RepoName(repo.name), OrEmpty(repo.description), OpenAIService.Analyze(w.complete(ClassifyRequest(w, repo)), w.parse))
  }

  /** For a named repository whose README request returns, the legacy classification is the one the
      classification adapter makes with the same model, backend and README. */
  lemma ClassificationAgrees(w: World, config: AppConfig, repo: Repo)
    requires repo.name != "" && config.openaiModel == w.model
    requires GitHubService.GetFileContent(w.readmeReply(repo.name), w.decode).Ok?
    ensures AnalyzeRepo(w, repo).analysis == OpenAIService.AnalyzeRepository(config, w.complete, w.parse, repo,
                                               OrEmpty(GitHubService.GetFileContent(w.readmeReply(repo.name), w.decode).value))
  {
    ReadmeAgrees(w.readmeReply(repo.name), w.decode);
  }

  /** The annotated description the update sends. */
  function UpdatedDescription(a: RepoAnalysis): string
    requires Json.AllPrintable(a.analysis.tags)
  {
    a.description + " | Category: " + a.analysis.category + " | Tags: " + Json.JoinValues(a.analysis.tags, ", ")
  }

  /** The legacy update goes to the repository that was analysed (the name fallback is applied a
      second time, to no effect) and writes the same annotated description as the orchestrator. */
  lemma UpdateAgrees(w: World, repo: Repo)
    requires Json.AllPrintable(AnalyzeRepo(w, repo).analysis.tags)
    ensures RepoName(AnalyzeRepo(w, repo).name) == RepoName(repo.name)
    ensures UpdatedDescription(AnalyzeRepo(w, repo)) == GitRepoAnalysis.NewDescription(repo, AnalyzeRepo(w, repo).analysis)
  {
    var a := AnalyzeRepo(w, repo);
    var d, c, t := a.description, a.analysis.category, Json.JoinValues(a.analysis.tags, ", ");
    assert d == OrEmpty(repo.description);
    assert d + " | Category: " + c + " | Tags: " + t == d + (" | Category: " + c + " | Tags: " + t);
  }

  /** `value || 'unknown'` for a nullable timestamp. */
  function OrUnknown(text: Option<string>): (r: string)
    ensures r != ""
    ensures text.Some? && text.value != "" ==> r == text.value
    ensures !(text.Some? && text.value != "") ==> r == Unknown
  {
    if text.Some? && text.value != "" then text.value else Unknown
  }

  /** The report row for a repository recommended for deletion; the URL falls back to the owner's
      profile path. */
  function ToDelete(w: World, repo: Repo, a: Analysis): (r: RepoToDelete)
    ensures repo.htmlUrl != "" ==> r.url == repo.htmlUrl
    ensures repo.htmlUrl == "" ==> r.url == ProfileRoot + w.username + "/" + repo.name
    ensures r.name == repo.name && r.reason == a.reason
    ensures r.lastUpdated == OrUnknown(repo.updatedAt) && r.createdAt == OrUnknown(repo.createdAt)
  {
    RepoToDelete(repo.name, if repo.htmlUrl != "" then repo.htmlUrl else ProfileRoot + w.username + "/" + repo.name,
                 a.reason, OrUnknown(repo.updatedAt), OrUnknown(repo.createdAt))
  }

  // The report.

  /** One record, ended by a line feed. */
  function Line(r: RepoToDelete): string
  {
    ReportService.QuotedRecord(r.name, r.url, r.reason, r.lastUpdated, r.createdAt) + "\n"
  }

  /** The header line followed by one line per row, in order. */
  function Body(repos: seq<RepoToDelete>): (s: string)
    ensures ReportService.HeaderLine <= s
    ensures s[|s| - 1] == '\n'
    decreases |repos|
  {
    if repos == [] then ReportService.HeaderLine
    else Body(repos[..|repos| - 1]) + Line(repos[|repos| - 1])
  }

  /** The report: the sentinel for no rows, else the header line and one line per row, each line
      ended by a line feed. */
  function DeletionReport(repos: seq<RepoToDelete>): (s: string)
    ensures repos == [] ==> s == ReportService.NoCandidatesText
    ensures repos != [] ==> ReportService.HeaderLine <= s && s[|s| - 1] == '\n'
  {
    if repos == [] then ReportService.NoCandidatesText else Body(repos)
  }

  /** `generateDeletionReport`. */
  method GenerateDeletionReport(repos: seq<RepoToDelete>) returns (csv: string)
    ensures csv == DeletionReport(repos)
  {
    if |repos| == 0 {
      return ReportService.NoCandidatesText;
    }
    csv := ReportService.HeaderLine;
    var i := 0;
    assert repos[..i] == [];
    while i < |repos|
      invariant 0 <= i <= |repos|
      invariant csv == Body(repos[..i])
    {
      BodySnoc(repos, i);
      csv := csv + Line(repos[i]);
      i := i + 1;
    }
    assert repos[..i] == repos;
  }

  lemma BodySnoc(repos: seq<RepoToDelete>, i: nat)
    requires i < |repos|
    ensures Body(repos[..i + 1]) == Body(repos[..i]) + Line(repos[i])
  {
    assert repos[..i + 1][..i] == repos[..i];
  }

  /** The legacy row writes the same five texts as the report encoder writes for `c`. */
  predicate SameRow(r: RepoToDelete, c: DeletionCandidate)
  {
    && r.name == c.repo.name && r.url == c.repo.htmlUrl && r.reason == c.reason
    && r.lastUpdated == ReportService.TemplateText(c.repo.updatedAt)
    && r.createdAt == ReportService.TemplateText(c.repo.createdAt)
  }

  lemma LineIsRow(r: RepoToDelete, c: DeletionCandidate)
    requires SameRow(r, c)
    ensures Line(r) == ReportService.Row(c) + "\n"
  {
  }

  lemma {:induction false} BodyIsJoin(repos: seq<RepoToDelete>, cs: seq<DeletionCandidate>)
    requires |repos| == |cs| > 0
    requires forall i :: 0 <= i < |repos| ==> SameRow(repos[i], cs[i])
    ensures Body(repos) == ReportService.HeaderLine + Text.Join(ReportService.Rows(cs), "\n") + "\n"
    decreases |repos|
  {
    var n := |repos|;
    if n == 1 {
      FirstRow(repos, cs);
    } else {
      var repos0, cs0 := repos[..n - 1], cs[..n - 1];
      assert forall i :: 0 <= i < |repos0| ==> SameRow(repos0[i], cs0[i]);
      BodyIsJoin(repos0, cs0);
      LastRow(repos, cs);
      AppendLine(ReportService.HeaderLine, ReportService.Rows(cs0), ReportService.Row(cs[n - 1]), Body(repos0));
    }
  }

  /** The body of one row is the header line and that row's record. */
  lemma FirstRow(repos: seq<RepoToDelete>, cs: seq<DeletionCandidate>)
    requires |repos| == |cs| == 1 && SameRow(repos[0], cs[0])
    ensures Body(repos) == ReportService.HeaderLine + Text.Join(ReportService.Rows(cs), "\n") + "\n"
  {
    var h, row := ReportService.HeaderLine, ReportService.Row(cs[0]);
    LastRow(repos, cs);
    assert repos[..0] == [] && cs[..0] == [];
    assert ReportService.Rows(cs) == [row];
    FirstLine(h, row);
  }

  /** The body and the service's records both grow by the last row. */
  lemma LastRow(repos: seq<RepoToDelete>, cs: seq<DeletionCandidate>)
    requires |repos| == |cs| > 0 && SameRow(repos[|repos| - 1], cs[|cs| - 1])
    ensures var row := ReportService.Row(cs[|cs| - 1]);
      && Body(repos) == Body(repos[..|repos| - 1]) + (row + "\n")
      && ReportService.Rows(cs) == ReportService.Rows(cs[..|cs| - 1]) + [row]
  {
    LineIsRow(repos[|repos| - 1], cs[|cs| - 1]);
    RowsSnoc(cs);
  }

  lemma RowsSnoc(cs: seq<DeletionCandidate>)
    requires cs != []
    ensures ReportService.Rows(cs) == ReportService.Rows(cs[..|cs| - 1]) + [ReportService.Row(cs[|cs| - 1])]
  {
  }

  lemma FirstLine(h: string, row: string)
    ensures h + (row + "\n") == h + Text.Join([row], "\n") + "\n"
  {
  }

  /** Appending one more line to a header and joined lines joins one more line. */
  lemma AppendLine(h: string, rows: seq<string>, row: string, body: string)
    requires rows != [] && body == h + Text.Join(rows, "\n") + "\n"
    ensures body + (row + "\n") == h + Text.Join(rows + [row], "\n") + "\n"
  {
    var j := Text.Join(rows, "\n");
    Text.JoinSnoc(rows, row, "\n");
    assert (h + j + "\n") + (row + "\n") == h + (j + "\n" + row) + "\n";
  }

  /** The legacy report is the service's report followed by one more line feed: the service joins
      the records with line feeds, the legacy program ends every line with one. */
  lemma ReportExtendsService(repos: seq<RepoToDelete>, cs: seq<DeletionCandidate>)
    requires |repos| == |cs|
    requires forall i :: 0 <= i < |repos| ==> SameRow(repos[i], cs[i])
    ensures repos == [] ==> DeletionReport(repos) == ReportService.GenerateCsvContent(cs)
    ensures repos != [] ==> DeletionReport(repos) == ReportService.GenerateCsvContent(cs) + "\n"
  {
    if repos != [] {
      BodyIsJoin(repos, cs);
    }
  }

  // The main loop.

  /** Logging the analysis of `repo` joins its tags, which throws when a tag cannot be written; the
      error reaches the handler of `main` and ends the run. */
  predicate Loggable(w: World, repo: Repo)
  {
    Json.AllPrintable(AnalyzeRepo(w, repo).analysis.tags)
  }

  predicate AllLoggable(w: World, repos: seq<Repo>)
  {
    forall i :: 0 <= i < |repos| ==> Loggable(w, repos[i])
  }

  /** The calls made for one repository: the README request, the completion request, and the
      update when the repository is kept and its tags could be logged. Errors of the README request
      and of the update are swallowed. */
  function StepCalls(w: World, repo: Repo): seq<Call>
  {
    var a := AnalyzeRepo(w, repo);
    var asked := [FetchReadme(RepoName(repo.name)), Complete(ClassifyRequest(w, repo))];
    if Loggable(w, repo) && a.analysis.shouldKeep then asked + [Update(RepoName(a.name), UpdatedDescription(a))]
    else asked
  }

  /** The rows for deletion so far, the calls made so far, and the error that ended the loop, if
      one did. */
  datatype State = State(toDelete: seq<RepoToDelete>, calls: seq<Call>, failure: Option<string>)

  /** The loop over `repos`, one repository after another; a repository whose tags cannot be
      logged ends it. */
  function Process(w: World, repos: seq<Repo>): State
    decreases |repos|
  {
    if repos == [] then State([], [], None)
    else
      var before := Process(w, repos[..|repos| - 1]);
      var last := repos[|repos| - 1];
      if before.failure.Some? then before
      else State(before.toDelete + DeletedOne(w, last), before.calls + StepCalls(w, last),
                 if Loggable(w, last) then None else Some(Json.ToPrimitiveError))
  }

  /** How a run ends: the rows it recommended for deletion or the error that made it exit, and every
      call it made. */
  datatype Finished = Finished(outcome: Outcome<seq<RepoToDelete>>, calls: seq<Call>)

  /** The end of `main` after the loop reached state `s`: an error in the loop ends the run; else
      the report is written only when some repository is recommended for deletion, and a failed
      write ends the run with that error. */
  function Conclusion(w: World, s: State): Finished
  {
    if s.failure.Some? then Finished(Fail(s.failure.value), [ListRepos] + s.calls)
    else if s.toDelete == [] then Finished(Ok([]), [ListRepos] + s.calls)
    else
      var fileName := ReportService.ReportFileName(ReportStem, w.now);
      var content := DeletionReport(s.toDelete);
      var written := w.write(fileName, content);
      Finished(if written.Fail? then Fail(written.error) else Ok(s.toDelete),
               [ListRepos] + s.calls + [WriteReport(fileName, content)])
  }

  /** `main`: list, process every repository, then conclude. A failed listing ends the run with
      that error. */
  function Finish(w: World): Finished
  {
    match w.listing
    case Fail(e) => Finished(Fail(e), [ListRepos])
    case Ok(repos) => Conclusion(w, Process(w, repos))
  }

  /** One more repository, while the loop is still running, extends the rows and the calls by its
      own and ends the loop when its tags cannot be logged. */
  lemma ProcessSnoc(w: World, repos: seq<Repo>, i: nat)
    requires i < |repos| && Process(w, repos[..i]).failure.None?
    ensures Process(w, repos[..i + 1])
      == State(Process(w, repos[..i]).toDelete + DeletedOne(w, repos[i]), Process(w, repos[..i]).calls + StepCalls(w, repos[i]),
               if Loggable(w, repos[i]) then None else Some(Json.ToPrimitiveError))
  {
    assert repos[..i + 1][..i] == repos[..i];
  }

  /** Once the loop has ended, the rest of the listing changes nothing. */
  lemma {:induction false} FailureSticks(w: World, repos: seq<Repo>, k: nat)
    requires k <= |repos|
    requires Process(w, repos[..k]).failure.Some?
    ensures Process(w, repos) == Process(w, repos[..k])
    decreases |repos| - k
  {
    if k < |repos| {
      assert repos[..k + 1][..k] == repos[..k];
      FailureSticks(w, repos, k + 1);
    } else {
      assert repos[..k] == repos;
    }
  }

  /** `saveReport`: writes `content` to the file named after `stem` and the clock. */
  method SaveReport(w: World, content: string, stem: string) returns (written: Outcome<()>, ghost call: Call)
    ensures call == WriteReport(ReportService.ReportFileName(stem, w.now), content)
    ensures written == w.write(ReportService.ReportFileName(stem, w.now), content)
  {
    var fileName := ReportService.ReportFileName(stem, w.now);
    call := WriteReport(fileName, content);
    written := w.write(fileName, content);
  }

  /** The body of the loop for one repository: analyse it, log its tags, then annotate it or set
      its row aside. */
  method Examine(w: World, repo: Repo) returns (row: seq<RepoToDelete>, stop: Option<string>, ghost asked: seq<Call>)
    ensures row == DeletedOne(w, repo)
    ensures stop == if Loggable(w, repo) then None else Some(Json.ToPrimitiveError)
    ensures asked == StepCalls(w, repo)
  {
    var analysis := AnalyzeRepo(w, repo);
    asked := [FetchReadme(RepoName(repo.name)), Complete(ClassifyRequest(w, repo))];
    var tagsText := Json.Joined(analysis.analysis.tags, ", ");
    if tagsText.Fail? {
      return [], Some(tagsText.error), asked;
    }
    stop := None;
    if analysis.analysis.shouldKeep {
      asked := asked + [Update(RepoName(analysis.name), UpdatedDescription(analysis))];
      row := [];
    } else {
      row := [ToDelete(w, repo, analysis.analysis)];
    }
  }

  /** The end of `main`: an error in the loop ends the run; else the report is generated and saved
      only when there is a row. */
  method Conclude(w: World, reposToDelete: seq<RepoToDelete>, failure: Option<string>, ghost log: seq<Call>)
    returns (r: Outcome<seq<RepoToDelete>>, ghost calls: seq<Call>)
    ensures r == Conclusion(w, State(reposToDelete, log, failure)).outcome
    ensures calls == Conclusion(w, State(reposToDelete, log, failure)).calls
  {
    calls := [ListRepos] + log;
    if failure.Some? {
      return Fail(failure.value), calls;
    }
    if |reposToDelete| > 0 {
      var report := GenerateDeletionReport(reposToDelete);
      var written;
      ghost var call;
      written, call := SaveReport(w, report, ReportStem);
      calls := calls + [call];
      if written.Fail? {
        return Fail(written.error), calls;
      }
    }
    r := Ok(reposToDelete);
  }

  /** The loop of `main` over the listing; it stops at the first error. */
  method ProcessAll(w: World, repos: seq<Repo>) returns (reposToDelete: seq<RepoToDelete>, failure: Option<string>, ghost log: seq<Call>)
    ensures reposToDelete == Process(w, repos).toDelete
    ensures failure == Process(w, repos).failure
    ensures log == Process(w, repos).calls
  {
    reposToDelete, log := [], [];
    var i := 0;
    while i < |repos|
      invariant 0 <= i <= |repos|
      invariant Process(w, repos[..i]) == State(reposToDelete, log, None)
    {
      ProcessSnoc(w, repos, i);
      var row, stop;
      ghost var asked;
      row, stop, asked := Examine(w, repos[i]);
      reposToDelete := reposToDelete + row;
      log := log + asked;
      if stop.Some? {
        FailureSticks(w, repos, i + 1);
        return reposToDelete, stop, log;
      }
      i := i + 1;
    }
    assert repos[..i] == repos;
    failure := None;
  }

  /** `main`. */
  method Run(w: World) returns (r: Outcome<seq<RepoToDelete>>, ghost calls: seq<Call>)
    ensures r == Finish(w).outcome
    ensures calls == Finish(w).calls
  {
    var listing := w.listing;
    if listing.Fail? {
      return Fail(listing.error), [ListRepos];
    }
    var reposToDelete, failure;
    ghost var log;
    reposToDelete, failure, log := ProcessAll(w, listing.value);
    r, calls := Conclude(w, reposToDelete, failure, log);
  }

  // Reference definitions, stated per repository and independently of the loop.

  /** The row for `repo` when it is recommended for deletion and its tags could be logged, else
      nothing. */
  function DeletedOne(w: World, repo: Repo): seq<RepoToDelete>
  {
    var a := AnalyzeRepo(w, repo).analysis;
    if Json.AllPrintable(a.tags) && !a.shouldKeep then [ToDelete(w, repo, a)] else []
  }

  /** The rows for the repositories recommended for deletion, in listing order. */
  function Deleted(w: World, repos: seq<Repo>): seq<RepoToDelete>
  {
    if repos == [] then [] else DeletedOne(w, repos[0]) + Deleted(w, repos[1..])
  }

  /** The update of `repo` when it is kept and its tags could be logged, else nothing. */
  function UpdatedOne(w: World, repo: Repo): seq<Call>
  {
    var a := AnalyzeRepo(w, repo).analysis;
    if Json.AllPrintable(a.tags) && a.shouldKeep then [Update(RepoName(repo.name), GitRepoAnalysis.NewDescription(repo, a))] else []
  }

  /** The updates of the kept repositories, in listing order. */
  function Updated(w: World, repos: seq<Repo>): seq<Call>
  {
    if repos == [] then [] else UpdatedOne(w, repos[0]) + Updated(w, repos[1..])
  }

  /** One README request per repository, in listing order, under its fallback name. */
  function ReadmeRequests(repos: seq<Repo>): (r: seq<Call>)
    ensures |r| == |repos|
  {
    seq(|repos|, i requires 0 <= i < |repos| => FetchReadme(RepoName(repos[i].name)))
  }

  predicate IsUpdate(c: Call) { c.Update? }
  predicate IsReadmeRequest(c: Call) { c.FetchReadme? }
  predicate IsWrite(c: Call) { c.WriteReport? }

  lemma {:induction false} DeletedSnoc(w: World, repos: seq<Repo>, repo: Repo)
    ensures Deleted(w, repos + [repo]) == Deleted(w, repos) + DeletedOne(w, repo)
  {
    if repos == [] {
      assert [repo][1..] == [];
    } else {
      assert (repos + [repo])[1..] == repos[1..] + [repo];
      DeletedSnoc(w, repos[1..], repo);
    }
  }

  lemma {:induction false} UpdatedSnoc(w: World, repos: seq<Repo>, repo: Repo)
    ensures Updated(w, repos + [repo]) == Updated(w, repos) + UpdatedOne(w, repo)
  {
    if repos == [] {
      assert [repo][1..] == [];
    } else {
      assert (repos + [repo])[1..] == repos[1..] + [repo];
      UpdatedSnoc(w, repos[1..], repo);
    }
  }

  /** The calls for one repository: one README request, the update of a kept repository whose
      tags could be logged, and no listing or report write. */
  lemma StepFilters(w: World, repo: Repo)
    ensures Only(StepCalls(w, repo), IsReadmeRequest) == [FetchReadme(RepoName(repo.name))]
    ensures Only(StepCalls(w, repo), IsUpdate) == UpdatedOne(w, repo)
    ensures Only(StepCalls(w, repo), IsWrite) == []
  {
    var a := AnalyzeRepo(w, repo);
    var fetch, complete := FetchReadme(RepoName(repo.name)), Complete(ClassifyRequest(w, repo));
    if Loggable(w, repo) && a.analysis.shouldKeep {
      UpdateAgrees(w, repo);
      var update := Update(RepoName(a.name), UpdatedDescription(a));
      assert StepCalls(w, repo) == [fetch, complete, update];
      OnlyThree(fetch, complete, update, IsReadmeRequest);
      OnlyThree(fetch, complete, update, IsUpdate);
      OnlyThree(fetch, complete, update, IsWrite);
    } else {
      assert StepCalls(w, repo) == [fetch, complete];
      OnlyTwo(fetch, complete, IsReadmeRequest);
      OnlyTwo(fetch, complete, IsUpdate);
      OnlyTwo(fetch, complete, IsWrite);
    }
  }

  /** The loop agrees with the reference definitions: it runs to the end exactly when every
      repository's tags can be logged, and otherwise stops with the conversion error; when it runs
      to the end, its rows are those of the repositories recommended for deletion, its updates
      those of the kept ones, and it asked once for each README; it never writes a report. */
  lemma ProcessMeetsReference(w: World, repos: seq<Repo>)
    ensures Process(w, repos).failure.None? <==> AllLoggable(w, repos)
    ensures Process(w, repos).failure.Some? ==> Process(w, repos).failure.value == Json.ToPrimitiveError
    ensures AllLoggable(w, repos) ==>
      && Process(w, repos).toDelete == Deleted(w, repos)
      && Only(Process(w, repos).calls, IsUpdate) == Updated(w, repos)
      && Only(Process(w, repos).calls, IsReadmeRequest) == ReadmeRequests(repos)
    ensures Only(Process(w, repos).calls, IsWrite) == []
  {
    ProcessSucceeds(w, repos);
    if AllLoggable(w, repos) {
      ProcessRows(w, repos);
      ProcessUpdates(w, repos);
      ProcessReadmes(w, repos);
    }
    ProcessWrites(w, repos);
  }

  /** The loop over a non-empty listing is the loop over all but the last repository, followed by
      the last repository's step unless the loop had already stopped. */
  lemma ProcessLast(w: World, repos: seq<Repo>)
    requires repos != []
    ensures var init, last := repos[..|repos| - 1], repos[|repos| - 1];
      && repos == init + [last]
      && (Process(w, init).failure.Some? ==> Process(w, repos) == Process(w, init))
      && (Process(w, init).failure.None? ==>
            && Process(w, repos).toDelete == Process(w, init).toDelete + DeletedOne(w, last)
            && Process(w, repos).calls == Process(w, init).calls + StepCalls(w, last)
            && Process(w, repos).failure == if Loggable(w, last) then None else Some(Json.ToPrimitiveError))
      && (AllLoggable(w, repos) <==> AllLoggable(w, init) && Loggable(w, last))
  {
    var init := repos[..|repos| - 1];
    assert forall i :: 0 <= i < |init| ==> repos[i] == init[i];
  }

  lemma {:induction false} ProcessSucceeds(w: World, repos: seq<Repo>)
    ensures Process(w, repos).failure.None? <==> AllLoggable(w, repos)
    ensures Process(w, repos).failure.Some? ==> Process(w, repos).failure.value == Json.ToPrimitiveError
    decreases |repos|
  {
    if repos != [] {
      ProcessLast(w, repos);
      ProcessSucceeds(w, repos[..|repos| - 1]);
    }
  }

  lemma {:induction false} ProcessRows(w: World, repos: seq<Repo>)
    requires AllLoggable(w, repos)
    ensures Process(w, repos).toDelete == Deleted(w, repos)
    decreases |repos|
  {
    if repos != [] {
      var init, last := repos[..|repos| - 1], repos[|repos| - 1];
      ProcessLast(w, repos);
      ProcessSucceeds(w, init);
      ProcessRows(w, init);
      DeletedSnoc(w, init, last);
    }
  }

  lemma {:induction false} ProcessUpdates(w: World, repos: seq<Repo>)
    requires AllLoggable(w, repos)
    ensures Only(Process(w, repos).calls, IsUpdate) == Updated(w, repos)
    decreases |repos|
  {
    if repos != [] {
      var init, last := repos[..|repos| - 1], repos[|repos| - 1];
      ProcessLast(w, repos);
      ProcessSucceeds(w, init);
      ProcessUpdates(w, init);
      StepFilters(w, last);
      OnlyAppend(Process(w, init).calls, StepCalls(w, last), IsUpdate);
      UpdatedSnoc(w, init, last);
    }
  }

  lemma {:induction false} ProcessReadmes(w: World, repos: seq<Repo>)
    requires AllLoggable(w, repos)
    ensures Only(Process(w, repos).calls, IsReadmeRequest) == ReadmeRequests(repos)
    decreases |repos|
  {
    if repos != [] {
      var init, last := repos[..|repos| - 1], repos[|repos| - 1];
      ProcessLast(w, repos);
      ProcessSucceeds(w, init);
      ProcessReadmes(w, init);
      StepFilters(w, last);
      OnlyAppend(Process(w, init).calls, StepCalls(w, last), IsReadmeRequest);
      ReadmeRequestsSnoc(init, last);
    }
  }

  lemma ReadmeRequestsSnoc(repos: seq<Repo>, repo: Repo)
    ensures ReadmeRequests(repos + [repo]) == ReadmeRequests(repos) + [FetchReadme(RepoName(repo.name))]
  {
  }

  lemma {:induction false} ProcessWrites(w: World, repos: seq<Repo>)
    ensures Only(Process(w, repos).calls, IsWrite) == []
    decreases |repos|
  {
    if repos != [] {
      var init, last := repos[..|repos| - 1], repos[|repos| - 1];
      ProcessLast(w, repos);
      ProcessWrites(w, init);
      if Process(w, init).failure.None? {
        StepFilters(w, last);
        OnlyAppend(Process(w, init).calls, StepCalls(w, last), IsWrite);
      }
    }
  }

  /** Fail-fast: when the loop stops, some repository `k` is the first whose tags cannot be logged,
      and nothing after it is requested: the state is that of `repos[..k+1]`. */
  lemma {:induction false} FailFast(w: World, repos: seq<Repo>) returns (k: nat)
    requires Process(w, repos).failure.Some?
    ensures k < |repos|
    ensures AllLoggable(w, repos[..k]) && !Loggable(w, repos[k])
    ensures Process(w, repos) == Process(w, repos[..k + 1])
    decreases |repos|
  {
    assert repos != [];
    var init := repos[..|repos| - 1];
    if Process(w, init).failure.Some? {
      StoppedBefore(w, repos);
      k := FailFast(w, init);
      FailsEarlier(w, repos, k);
    } else {
      k := |repos| - 1;
      FailsAtLast(w, repos);
    }
  }

  /** The case of `FailFast` where the loop had already stopped before the last repository. */
  lemma FailsEarlier(w: World, repos: seq<Repo>, k: nat)
    requires repos != [] && k < |repos| - 1
    requires var init := repos[..|repos| - 1];
      && Process(w, repos) == Process(w, init)
      && AllLoggable(w, init[..k]) && !Loggable(w, init[k]) && Process(w, init) == Process(w, init[..k + 1])
    ensures AllLoggable(w, repos[..k]) && !Loggable(w, repos[k]) && Process(w, repos) == Process(w, repos[..k + 1])
  {
    PrefixOfInit(repos, k);
  }

  /** A loop that stopped before the last repository is not changed by it. */
  lemma StoppedBefore(w: World, repos: seq<Repo>)
    requires repos != [] && Process(w, repos[..|repos| - 1]).failure.Some?
    ensures Process(w, repos) == Process(w, repos[..|repos| - 1])
  {
  }

  /** The case of `FailFast` where the last repository is the first whose tags cannot be logged. */
  lemma FailsAtLast(w: World, repos: seq<Repo>)
    requires repos != []
    requires Process(w, repos[..|repos| - 1]).failure.None?
    requires Process(w, repos).failure.Some?
    ensures var k := |repos| - 1;
      AllLoggable(w, repos[..k]) && !Loggable(w, repos[k]) && Process(w, repos) == Process(w, repos[..k + 1])
  {
    var k := |repos| - 1;
    assert repos[..k + 1] == repos;
    ProcessSucceeds(w, repos[..k]);
  }

  /** When every repository's tags can be logged, each repository is either annotated or
      recommended for deletion, never both. */
  lemma {:induction false} Partition(w: World, repos: seq<Repo>)
    requires AllLoggable(w, repos)
    ensures |Updated(w, repos)| + |Deleted(w, repos)| == |repos|
  {
    if repos != [] {
      assert Loggable(w, repos[0]);
      assert AllLoggable(w, repos[1..]) by {
        assert forall i :: 0 <= i < |repos[1..]| ==> repos[1..][i] == repos[i + 1];
      }
      Partition(w, repos[1..]);
    }
  }

  /** What a run does: a failed listing ends it at once; a tag that cannot be logged ends it with
      the conversion error and no report; otherwise it fails only when there is a row and the report
      cannot be written, returns the rows of the repositories recommended for deletion, writes
      exactly one report, named after the stem and the clock, exactly when there is a row, annotates
      exactly the kept repositories and asks once for each README. */
  lemma RunLaw(w: World)
    ensures w.listing.Fail? ==> Finish(w) == Finished(Fail(w.listing.error), [ListRepos])
    ensures w.listing.Ok? && !AllLoggable(w, w.listing.value) ==>
      Finish(w).outcome == Fail(Json.ToPrimitiveError) && Only(Finish(w).calls, IsWrite) == []
    ensures w.listing.Ok? && AllLoggable(w, w.listing.value) ==> var rows := Deleted(w, w.listing.value);
      && (Finish(w).outcome.Fail? <==> rows != [] && w.write(ReportService.ReportFileName(ReportStem, w.now), DeletionReport(rows)).Fail?)
      && (Finish(w).outcome.Ok? ==> Finish(w).outcome.value == rows)
      && Only(Finish(w).calls, IsWrite) == (if rows == [] then [] else [WriteReport(ReportService.ReportFileName(ReportStem, w.now), DeletionReport(rows))])
      && Only(Finish(w).calls, IsUpdate) == Updated(w, w.listing.value)
      && Only(Finish(w).calls, IsReadmeRequest) == ReadmeRequests(w.listing.value)
  {
    if w.listing.Ok? {
      ProcessMeetsReference(w, w.listing.value);
      ConclusionCalls(w, Process(w, w.listing.value));
    }
  }

  /** Concluding adds the listing before the loop's calls and, when the loop ran to the end and
      there is a row, the report write after them. */
  lemma ConclusionCalls(w: World, s: State)
    requires Only(s.calls, IsWrite) == []
    ensures Only(Conclusion(w, s).calls, IsWrite)
      == if s.failure.Some? || s.toDelete == [] then [] else [WriteReport(ReportService.ReportFileName(ReportStem, w.now), DeletionReport(s.toDelete))]
    ensures Only(Conclusion(w, s).calls, IsUpdate) == Only(s.calls, IsUpdate)
    ensures Only(Conclusion(w, s).calls, IsReadmeRequest) == Only(s.calls, IsReadmeRequest)
  {
    if s.failure.Some? || s.toDelete == [] {
      assert Conclusion(w, s).calls == [ListRepos] + s.calls + [];
      OnlyAround(ListRepos, s.calls, [], IsWrite);
      OnlyAround(ListRepos, s.calls, [], IsUpdate);
      OnlyAround(ListRepos, s.calls, [], IsReadmeRequest);
    } else {
      var write := WriteReport(ReportService.ReportFileName(ReportStem, w.now), DeletionReport(s.toDelete));
      assert Conclusion(w, s).calls == [ListRepos] + s.calls + [write];
      assert [write][1..] == [];
      OnlyAround(ListRepos, s.calls, [write], IsWrite);
      OnlyAround(ListRepos, s.calls, [write], IsUpdate);
      OnlyAround(ListRepos, s.calls, [write], IsReadmeRequest);
    }
  }
}
