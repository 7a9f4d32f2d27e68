/** The analysis orchestrator: one pass over the listing that fetches each README, asks the
    classifier, and either annotates the repository's description or records it for deletion.
    Both providers are abstract; every call the orchestrator makes is recorded in a ghost log. */
module GitRepoAnalysis {
  import opened Outcomes
  import opened Types
  import Json
  import opened Sequences

  /** The file every repository is asked for. */
  const ReadmePath := "README.md"

  /** The source-hosting provider: its listing, and its answers to file and update requests. */
  datatype GitProvider = GitProvider(
    repositories: Outcome<seq<Repo>>,
    getFileContent: (string, string) -> Outcome<Option<string>>,
    updateRepoDescription: (string, string) -> Outcome<()>)

  /** The classification provider. */
  datatype Classifier = Classifier(analyze: (Repo, string) -> Outcome<Analysis>)

  /** One call the orchestrator makes to a provider. */
  datatype Call =
    | GetRepositories
    | GetFileContent(repoName: string, path: string)
    | Analyze(repo: Repo, readme: string)
    | UpdateRepoDescription(repoName: string, description: string)

  /** The annotated description of a kept repository: the old description (or nothing), then the
      category, then the tags joined with ", ". */
  function NewDescription(repo: Repo, a: Analysis): (d: string)
    requires Json.AllPrintable(a.tags)
    ensures |d| >= |OrEmpty(repo.description)|
    ensures d[..|OrEmpty(repo.description)|] == OrEmpty(repo.description)
    ensures d[|OrEmpty(repo.description)|..] == " | Category: " + a.category + " | Tags: " + Json.JoinValues(a.tags, ", ")
  {
    OrEmpty(repo.description) + (" | Category: " + a.category + " | Tags: " + Json.JoinValues(a.tags, ", "))
  }

  /** How the handling of one repository ended. */
  datatype Verdict = Keep(analysis: Analysis) | Delete(analysis: Analysis) | Abort(error: string)

  /** The verdict on one repository and the calls made while reaching it. */
  datatype Step = Step(verdict: Verdict, calls: seq<Call>)

  /** One iteration of the loop. Logging the tags joins them, which throws when a tag cannot be
      written; that happens before the repository is annotated or set aside. */
  function AnalyzeRepo(git: GitProvider, llm: Classifier, repo: Repo): (s: Step)
    ensures 1 <= |s.calls| <= 3 && s.calls[0] == GetFileContent(repo.name, ReadmePath)
    ensures s.verdict.Keep? ==> s.verdict.analysis.shouldKeep && |s.calls| == 3
    ensures s.verdict.Delete? ==> !s.verdict.analysis.shouldKeep && |s.calls| == 2
    ensures !s.verdict.Abort? ==> Json.AllPrintable(s.verdict.analysis.tags)
  {
    var fetchCall := GetFileContent(repo.name, ReadmePath);
    match git.getFileContent(repo.name, ReadmePath)
    case Fail(e) => Step(Abort(e), [fetchCall])
    case Ok(content) =>
      var readme := OrEmpty(content);
      var analyzeCall := Analyze(repo, readme);
      match llm.analyze(repo, readme)
      case Fail(e) => Step(Abort(e), [fetchCall, analyzeCall])
      case Ok(a) =>
        if !Json.AllPrintable(a.tags) then Step(Abort(Json.ToPrimitiveError), [fetchCall, analyzeCall])
        else if a.shouldKeep then
          var description := NewDescription(repo, a);
          var updateCall := UpdateRepoDescription(repo.name, description);
          match git.updateRepoDescription(repo.name, description)
          case Fail(e) => Step(Abort(e), [fetchCall, analyzeCall, updateCall])
          case Ok(_) => Step(Keep(a), [fetchCall, analyzeCall, updateCall])
        else Step(Delete(a), [fetchCall, analyzeCall])
  }

  /** The state after a prefix of the listing: candidates so far, the calls made, and the error
      that stopped the run, if one did. */
  datatype RunState = RunState(candidates: seq<DeletionCandidate>, calls: seq<Call>, failure: Option<string>)

  /** Folds one step into the state. */
  function Advance(before: RunState, repo: Repo, step: Step): RunState
  {
    match step.verdict
    case Keep(_) => RunState(before.candidates, before.calls + step.calls, None)
    case Delete(a) => RunState(before.candidates + [DeletionCandidate(repo, a.reason)], before.calls + step.calls, None)
    case Abort(e) => RunState(before.candidates, before.calls + step.calls, Some(e))
  }

  /** The loop over `repos`, one repository after another; the first error stops it. */
  function Process(git: GitProvider, llm: Classifier, repos: seq<Repo>): (s: RunState)
    decreases |repos|
  {
    if repos == [] then RunState([], [], None)
    else
      var before := Process(git, llm, repos[..|repos| - 1]);
      if before.failure.Some? then before
      else Advance(before, repos[|repos| - 1], AnalyzeRepo(git, llm, repos[|repos| - 1]))
  }

  /** What `analyzeUserRepositories` returns or throws. */
  function RunResult(git: GitProvider, llm: Classifier): Outcome<seq<DeletionCandidate>>
  {
    match git.repositories
    case Fail(e) => Fail(e)
    case Ok(repos) =>
      var s := Process(git, llm, repos);
      if s.failure.Some? then Fail(s.failure.value) else Ok(s.candidates)
  }

  /** Every call `analyzeUserRepositories` makes, in order. */
  function RunCalls(git: GitProvider, llm: Classifier): seq<Call>
  {
    [GetRepositories] + (if git.repositories.Ok? then Process(git, llm, git.repositories.value).calls else [])
  }

  class GitRepoAnalyzer {
    const gitProvider: GitProvider
    const llmProvider: Classifier

    constructor(gitProvider: GitProvider, llmProvider: Classifier)
      ensures this.gitProvider == gitProvider && this.llmProvider == llmProvider
    {
      this.gitProvider := gitProvider;
      this.llmProvider := llmProvider;
    }

    /** The body of the loop for one repository: fetch its README, classify it, and annotate it
        when it is kept; the first call that throws ends the iteration with its error. */
    method HandleRepository(repo: Repo) returns (verdict: Verdict, ghost calls: seq<Call>)
      ensures verdict == AnalyzeRepo(gitProvider, llmProvider, repo).verdict
      ensures calls == AnalyzeRepo(gitProvider, llmProvider, repo).calls
    {
      calls := [GetFileContent(repo.name, ReadmePath)];
      var fetched := gitProvider.getFileContent(repo.name, ReadmePath);
      if fetched.Fail? {
        return Abort(fetched.error), calls;
      }
      var readmeContent := OrEmpty(fetched.value);
      calls := calls + [Analyze(repo, readmeContent)];
      var analyzed := llmProvider.analyze(repo, readmeContent);
      if analyzed.Fail? {
        return Abort(analyzed.error), calls;
      }
      var analysis := analyzed.value;
      var tagsText := Json.Joined(analysis.tags, ", ");
      if tagsText.Fail? {
        return Abort(tagsText.error), calls;
      }
      if !analysis.shouldKeep {
        return Delete(analysis), calls;
      }
      var newDescription := NewDescription(repo, analysis);
      calls := calls + [UpdateRepoDescription(repo.name, newDescription)];
      var updated := gitProvider.updateRepoDescription(repo.name, newDescription);
      if updated.Fail? {
        return Abort(updated.error), calls;
      }
      verdict := Keep(analysis);
    }

    /** The loop of `analyzeUserRepositories` over the listing; it stops at the first error. */
    method ProcessAll(repos: seq<Repo>) returns (deletionCandidates: seq<DeletionCandidate>, failure: Option<string>, ghost log: seq<Call>)
      ensures deletionCandidates == Process(gitProvider, llmProvider, repos).candidates
      ensures failure == Process(gitProvider, llmProvider, repos).failure
      ensures log == Process(gitProvider, llmProvider, repos).calls
    {
      ghost var git, llm := gitProvider, llmProvider;
      deletionCandidates, log := [], [];
      var i := 0;
      while i < |repos|
        invariant 0 <= i <= |repos|
        invariant Process(git, llm, repos[..i]) == RunState(deletionCandidates, log, None)
      {
        ProcessSnoc(git, llm, repos, i);
        var verdict;
        ghost var stepCalls;
        verdict, stepCalls := HandleRepository(repos[i]);
        log := log + stepCalls;
        if verdict.Abort? {
          FailureSticks(git, llm, repos, i + 1);
          return deletionCandidates, Some(verdict.error), log;
        }
        if verdict.Delete? {
          deletionCandidates := deletionCandidates + [DeletionCandidate(repos[i], verdict.analysis.reason)];
        }
        i := i + 1;
      }
      assert repos[..i] == repos;
      failure := None;
    }

    /** `analyzeUserRepositories`: the deletion candidates, or the first error any provider threw. */
    method AnalyzeUserRepositories() returns (r: Outcome<seq<DeletionCandidate>>, ghost calls: seq<Call>)
      ensures r == RunResult(gitProvider, llmProvider)
      ensures calls == RunCalls(gitProvider, llmProvider)
    {
      var listing := gitProvider.repositories;
      if listing.Fail? {
        return Fail(listing.error), [GetRepositories];
      }
      var deletionCandidates, failure;
      ghost var log;
      deletionCandidates, failure, log := ProcessAll(listing.value);
      calls := [GetRepositories] + log;
      if failure.Some? {
        return Fail(failure.value), calls;
      }
      r := Ok(deletionCandidates);
    }
  }

  /** One more repository folds its own step into the state. */
  lemma ProcessSnoc(git: GitProvider, llm: Classifier, repos: seq<Repo>, i: nat)
    requires i < |repos| && Process(git, llm, repos[..i]).failure.None?
    ensures Process(git, llm, repos[..i + 1]) == Advance(Process(git, llm, repos[..i]), repos[i], AnalyzeRepo(git, llm, repos[i]))
  {
    assert repos[..i + 1][..i] == repos[..i];
  }

  /** Once the run has stopped on a prefix, the rest of the listing changes nothing. */
  lemma {:induction false} FailureSticks(git: GitProvider, llm: Classifier, repos: seq<Repo>, k: nat)
    requires k <= |repos|
    requires Process(git, llm, repos[..k]).failure.Some?
    ensures Process(git, llm, repos) == Process(git, llm, repos[..k])
    decreases |repos| - k
  {
    if k < |repos| {
      assert repos[..k + 1][..k] == repos[..k];
      FailureSticks(git, llm, repos, k + 1);
    } else {
      assert repos[..k] == repos;
    }
  }

  // Reference definitions, stated per repository and independently of the loop.

  /** The README text the classifier is given for `repo` (`null` becomes ""), or the error the fetch threw. */
  function Readme(git: GitProvider, repo: Repo): Outcome<string>
  {
    match git.getFileContent(repo.name, ReadmePath)
    case Fail(e) => Fail(e)
    case Ok(content) => Ok(OrEmpty(content))
  }

  /** The classification of `repo` once its tags are logged, or the first error met on the way. */
  function ClassificationOf(git: GitProvider, llm: Classifier, repo: Repo): (r: Outcome<Analysis>)
    ensures r.Ok? ==> Json.AllPrintable(r.value.tags)
  {
    match Readme(git, repo)
    case Fail(e) => Fail(e)
    case Ok(readme) =>
      match llm.analyze(repo, readme)
      case Fail(e) => Fail(e)
      case Ok(a) => if Json.AllPrintable(a.tags) then Ok(a) else Fail(Json.ToPrimitiveError)
  }

  /** No provider call on `repo` throws. */
  predicate Succeeds(git: GitProvider, llm: Classifier, repo: Repo)
  {
    var c := ClassificationOf(git, llm, repo);
    c.Ok? && (c.value.shouldKeep ==> git.updateRepoDescription(repo.name, NewDescription(repo, c.value)).Ok?)
  }

  predicate AllSucceed(git: GitProvider, llm: Classifier, repos: seq<Repo>)
  {
    forall i :: 0 <= i < |repos| ==> Succeeds(git, llm, repos[i])
  }

  /** `[DeletionCandidate(repo, reason)]` when `repo` is classified for deletion, else nothing. */
  function DeletedOne(git: GitProvider, llm: Classifier, repo: Repo): seq<DeletionCandidate>
  {
    var c := ClassificationOf(git, llm, repo);
    if c.Ok? && !c.value.shouldKeep then [DeletionCandidate(repo, c.value.reason)] else []
  }

  /** The repositories classified for deletion, in listing order, each with its reason. */
  function Deleted(git: GitProvider, llm: Classifier, repos: seq<Repo>): seq<DeletionCandidate>
  {
    if repos == [] then [] else DeletedOne(git, llm, repos[0]) + Deleted(git, llm, repos[1..])
  }

  /** The description update for `repo` when it is classified as kept, else nothing. */
  function UpdatedOne(git: GitProvider, llm: Classifier, repo: Repo): seq<Call>
  {
    var c := ClassificationOf(git, llm, repo);
    if c.Ok? && c.value.shouldKeep then [UpdateRepoDescription(repo.name, NewDescription(repo, c.value))] else []
  }

  /** The description updates of the kept repositories, in listing order. */
  function Updated(git: GitProvider, llm: Classifier, repos: seq<Repo>): seq<Call>
  {
    if repos == [] then [] else UpdatedOne(git, llm, repos[0]) + Updated(git, llm, repos[1..])
  }

  /** The classifier request for `repo` (its README, `null` given as ""), when the README fetch
      returns; nothing when it throws. */
  function AskedOne(git: GitProvider, repo: Repo): seq<Call>
  {
    match Readme(git, repo)
    case Fail(_) => []
    case Ok(readme) => [Analyze(repo, readme)]
  }

  /** The classifier requests, in listing order. */
  function Asked(git: GitProvider, repos: seq<Repo>): seq<Call>
  {
    if repos == [] then [] else AskedOne(git, repos[0]) + Asked(git, repos[1..])
  }

  /** One README request per repository, in listing order. */
  function ReadmeRequests(repos: seq<Repo>): (r: seq<Call>)
    ensures |r| == |repos|
  {
    seq(|repos|, i requires 0 <= i < |repos| => GetFileContent(repos[i].name, ReadmePath))
  }

  predicate IsUpdate(c: Call) { c.UpdateRepoDescription? }
  predicate IsFileRequest(c: Call) { c.GetFileContent? }
  predicate IsAnalyze(c: Call) { c.Analyze? }

  lemma {:induction false} DeletedSnoc(git: GitProvider, llm: Classifier, repos: seq<Repo>, repo: Repo)
    ensures Deleted(git, llm, repos + [repo]) == Deleted(git, llm, repos) + DeletedOne(git, llm, repo)
  {
    if repos == [] {
      assert [repo][1..] == [];
    } else {
      assert (repos + [repo])[1..] == repos[1..] + [repo];
      DeletedSnoc(git, llm, repos[1..], repo);
    }
  }

  lemma {:induction false} UpdatedSnoc(git: GitProvider, llm: Classifier, repos: seq<Repo>, repo: Repo)
    ensures Updated(git, llm, repos + [repo]) == Updated(git, llm, repos) + UpdatedOne(git, llm, repo)
  {
    if repos == [] {
      assert [repo][1..] == [];
    } else {
      assert (repos + [repo])[1..] == repos[1..] + [repo];
      UpdatedSnoc(git, llm, repos[1..], repo);
    }
  }

  /** The calls of one iteration: the README request first and only once, the classification
      second, and the update last when there is one. */
  lemma StepCalls(git: GitProvider, llm: Classifier, repo: Repo)
    ensures var calls := AnalyzeRepo(git, llm, repo).calls;
      && calls[0] == GetFileContent(repo.name, ReadmePath)
      && Only(calls, IsFileRequest) == [GetFileContent(repo.name, ReadmePath)]
      && (Readme(git, repo).Ok? ==> calls[1] == Analyze(repo, Readme(git, repo).value))
      && Only(calls, IsAnalyze) == AskedOne(git, repo)
      && GetRepositories !in calls
  {
    var calls := AnalyzeRepo(git, llm, repo).calls;
    var fetch := GetFileContent(repo.name, ReadmePath);
    match git.getFileContent(repo.name, ReadmePath)
    case Fail(_) =>
      assert calls == [fetch];
      assert calls[1..] == [];
    case Ok(content) =>
      var ask := Analyze(repo, OrEmpty(content));
      assert Readme(git, repo) == Ok(OrEmpty(content));
      assert calls[..2] == [fetch, ask];
      if |calls| == 2 {
        assert calls == [fetch, ask];
        OnlyTwo(fetch, ask, IsFileRequest);
        OnlyTwo(fetch, ask, IsAnalyze);
      } else {
        assert calls == [fetch, ask, calls[2]];
        OnlyThree(fetch, ask, calls[2], IsFileRequest);
        OnlyThree(fetch, ask, calls[2], IsAnalyze);
      }
  }

  /** The verdict of one iteration: it stops exactly when some call on the repository throws, and
      otherwise issues the update of a kept repository or records a deleted one, and nothing else. */
  lemma StepVerdict(git: GitProvider, llm: Classifier, repo: Repo)
    ensures var s := AnalyzeRepo(git, llm, repo);
      && (s.verdict.Abort? <==> !Succeeds(git, llm, repo))
      && (!s.verdict.Abort? ==> Only(s.calls, IsUpdate) == UpdatedOne(git, llm, repo))
      && (s.verdict.Delete? ==> [DeletionCandidate(repo, s.verdict.analysis.reason)] == DeletedOne(git, llm, repo))
      && (s.verdict.Keep? ==> DeletedOne(git, llm, repo) == [])
  {
    var calls := AnalyzeRepo(git, llm, repo).calls;
    if |calls| == 2 {
      assert calls == [calls[0], calls[1]];
      OnlyTwo(calls[0], calls[1], IsUpdate);
    } else if |calls| == 3 {
      assert calls == [calls[0], calls[1], calls[2]];
      OnlyThree(calls[0], calls[1], calls[2], IsUpdate);
    }
  }

  /** The loop over a non-empty listing is the loop over all but the last repository, followed by
      the last repository's step unless the run had already stopped. */
  lemma ProcessLast(git: GitProvider, llm: Classifier, repos: seq<Repo>)
    requires repos != []
    ensures var init, last := repos[..|repos| - 1], repos[|repos| - 1];
      && repos == init + [last]
      && Process(git, llm, repos)
         == (if Process(git, llm, init).failure.Some? then Process(git, llm, init)
             else Advance(Process(git, llm, init), last, AnalyzeRepo(git, llm, last)))
      && (AllSucceed(git, llm, repos) <==> AllSucceed(git, llm, init) && Succeeds(git, llm, last))
  {
    var init := repos[..|repos| - 1];
    assert forall i :: 0 <= i < |init| ==> repos[i] == init[i];
  }

  /** The loop agrees with the reference definitions: it finishes exactly when no call throws, and
      then its candidates are the deletions, its updates are those of the kept repositories, and it
      asked once for each README; it never lists the repositories again. */
  lemma ProcessMeetsReference(git: GitProvider, llm: Classifier, repos: seq<Repo>)
    ensures Process(git, llm, repos).failure.None? <==> AllSucceed(git, llm, repos)
    ensures AllSucceed(git, llm, repos) ==>
      && Process(git, llm, repos).candidates == Deleted(git, llm, repos)
      && Only(Process(git, llm, repos).calls, IsUpdate) == Updated(git, llm, repos)
      && Only(Process(git, llm, repos).calls, IsFileRequest) == ReadmeRequests(repos)
      && Only(Process(git, llm, repos).calls, IsAnalyze) == Asked(git, repos)
    ensures GetRepositories !in Process(git, llm, repos).calls
  {
    ProcessSucceeds(git, llm, repos);
    if AllSucceed(git, llm, repos) {
      ProcessCandidates(git, llm, repos);
      ProcessUpdates(git, llm, repos);
      ProcessReadmes(git, llm, repos);
      ProcessAnalyses(git, llm, repos);
    }
    ProcessNeverRelists(git, llm, repos);
  }

  lemma {:induction false} ProcessSucceeds(git: GitProvider, llm: Classifier, repos: seq<Repo>)
    ensures Process(git, llm, repos).failure.None? <==> AllSucceed(git, llm, repos)
    decreases |repos|
  {
    if repos != [] {
      var init, last := repos[..|repos| - 1], repos[|repos| - 1];
      ProcessLast(git, llm, repos);
      ProcessSucceeds(git, llm, init);
      StepVerdict(git, llm, last);
    }
  }

  lemma {:induction false} ProcessCandidates(git: GitProvider, llm: Classifier, repos: seq<Repo>)
    requires AllSucceed(git, llm, repos)
    ensures Process(git, llm, repos).candidates == Deleted(git, llm, repos)
    decreases |repos|
  {
    if repos != [] {
      var init, last := repos[..|repos| - 1], repos[|repos| - 1];
      ProcessLast(git, llm, repos);
      ProcessSucceeds(git, llm, init);
      ProcessCandidates(git, llm, init);
      StepVerdict(git, llm, last);
      DeletedSnoc(git, llm, init, last);
    }
  }

  lemma {:induction false} ProcessUpdates(git: GitProvider, llm: Classifier, repos: seq<Repo>)
    requires AllSucceed(git, llm, repos)
    ensures Only(Process(git, llm, repos).calls, IsUpdate) == Updated(git, llm, repos)
    decreases |repos|
  {
    if repos != [] {
      var init, last := repos[..|repos| - 1], repos[|repos| - 1];
      ProcessLast(git, llm, repos);
      ProcessSucceeds(git, llm, init);
      ProcessUpdates(git, llm, init);
      StepVerdict(git, llm, last);
      OnlyAppend(Process(git, llm, init).calls, AnalyzeRepo(git, llm, last).calls, IsUpdate);
      UpdatedSnoc(git, llm, init, last);
    }
  }

  lemma {:induction false} ProcessReadmes(git: GitProvider, llm: Classifier, repos: seq<Repo>)
    requires AllSucceed(git, llm, repos)
    ensures Only(Process(git, llm, repos).calls, IsFileRequest) == ReadmeRequests(repos)
    decreases |repos|
  {
    if repos != [] {
      var init, last := repos[..|repos| - 1], repos[|repos| - 1];
      ProcessLast(git, llm, repos);
      ProcessSucceeds(git, llm, init);
      ProcessReadmes(git, llm, init);
      StepCalls(git, llm, last);
      OnlyAppend(Process(git, llm, init).calls, AnalyzeRepo(git, llm, last).calls, IsFileRequest);
      ReadmeRequestsSnoc(init, last);
    }
  }

  lemma {:induction false} ProcessAnalyses(git: GitProvider, llm: Classifier, repos: seq<Repo>)
    requires AllSucceed(git, llm, repos)
    ensures Only(Process(git, llm, repos).calls, IsAnalyze) == Asked(git, repos)
    decreases |repos|
  {
    if repos != [] {
      var init, last := repos[..|repos| - 1], repos[|repos| - 1];
      ProcessLast(git, llm, repos);
      ProcessSucceeds(git, llm, init);
      ProcessAnalyses(git, llm, init);
      StepCalls(git, llm, last);
      OnlyAppend(Process(git, llm, init).calls, AnalyzeRepo(git, llm, last).calls, IsAnalyze);
      AskedSnoc(git, init, last);
    }
  }

  lemma {:induction false} AskedSnoc(git: GitProvider, repos: seq<Repo>, repo: Repo)
    ensures Asked(git, repos + [repo]) == Asked(git, repos) + AskedOne(git, repo)
  {
    if repos == [] {
      assert [repo][1..] == [];
    } else {
      assert (repos + [repo])[1..] == repos[1..] + [repo];
      AskedSnoc(git, repos[1..], repo);
    }
  }

  lemma ReadmeRequestsSnoc(repos: seq<Repo>, repo: Repo)
    ensures ReadmeRequests(repos + [repo]) == ReadmeRequests(repos) + [GetFileContent(repo.name, ReadmePath)]
  {
  }

  lemma {:induction false} ProcessNeverRelists(git: GitProvider, llm: Classifier, repos: seq<Repo>)
    ensures GetRepositories !in Process(git, llm, repos).calls
    decreases |repos|
  {
    if repos != [] {
      var init, last := repos[..|repos| - 1], repos[|repos| - 1];
      ProcessLast(git, llm, repos);
      ProcessNeverRelists(git, llm, init);
      StepCalls(git, llm, last);
    }
  }

  /** Order-preserving filter law: `analyzeUserRepositories` returns normally exactly when the
      listing and every call on every repository succeed, and then its result is the subsequence of
      the listing classified for deletion, each with its reason. */
  lemma FilterLaw(git: GitProvider, llm: Classifier)
    ensures RunResult(git, llm).Ok? <==> git.repositories.Ok? && AllSucceed(git, llm, git.repositories.value)
    ensures RunResult(git, llm).Ok? ==> RunResult(git, llm).value == Deleted(git, llm, git.repositories.value)
  {
    if git.repositories.Ok? {
      ProcessMeetsReference(git, llm, git.repositories.value);
    }
  }

  /** On a normal return, the updates issued are exactly those of the kept repositories, one each,
      in listing order; the listing was requested once, each README once, and the classifier once
      per repository with that repository's README, all in listing order. */
  lemma CallLaw(git: GitProvider, llm: Classifier)
    requires RunResult(git, llm).Ok?
    ensures Only(RunCalls(git, llm), IsUpdate) == Updated(git, llm, git.repositories.value)
    ensures Only(RunCalls(git, llm), IsFileRequest) == ReadmeRequests(git.repositories.value)
    ensures Only(RunCalls(git, llm), IsAnalyze) == Asked(git, git.repositories.value)
    ensures |Asked(git, git.repositories.value)| == |git.repositories.value|
    ensures RunCalls(git, llm)[0] == GetRepositories && GetRepositories !in RunCalls(git, llm)[1..]
  {
    var repos := git.repositories.value;
    ProcessMeetsReference(git, llm, repos);
    var calls := Process(git, llm, repos).calls;
    OnlyAppend([GetRepositories], calls, IsUpdate);
    OnlyAppend([GetRepositories], calls, IsFileRequest);
    OnlyAppend([GetRepositories], calls, IsAnalyze);
    FilterLaw(git, llm);
    AskedCount(git, llm, repos);
    assert RunCalls(git, llm)[1..] == calls;
  }

  /** When every call succeeds, the classifier is asked once per repository. */
  lemma {:induction false} AskedCount(git: GitProvider, llm: Classifier, repos: seq<Repo>)
    requires AllSucceed(git, llm, repos)
    ensures |Asked(git, repos)| == |repos|
  {
    if repos != [] {
      assert Succeeds(git, llm, repos[0]);
      assert AllSucceed(git, llm, repos[1..]) by {
        assert forall i :: 0 <= i < |repos[1..]| ==> repos[1..][i] == repos[i + 1];
      }
      AskedCount(git, llm, repos[1..]);
    }
  }

  /** Partition: when every call succeeds, each repository is either updated or a candidate and
      never both, so updates and candidates together number the repositories. */
  lemma {:induction false} Partition(git: GitProvider, llm: Classifier, repos: seq<Repo>)
    requires AllSucceed(git, llm, repos)
    ensures |Updated(git, llm, repos)| + |Deleted(git, llm, repos)| == |repos|
  {
    if repos != [] {
      assert Succeeds(git, llm, repos[0]);
      assert AllSucceed(git, llm, repos[1..]) by {
        assert forall i :: 0 <= i < |repos[1..]| ==> repos[1..][i] == repos[i + 1];
      }
      Partition(git, llm, repos[1..]);
    }
  }

  /** Fail-fast: when the run throws, some repository `k` is the first whose handling threw, the
      error is that one, and nothing after `k` was requested (the state is that of `repos[..k+1]`,
      with exactly `k + 1` README requests). */
  lemma {:induction false} FailFast(git: GitProvider, llm: Classifier, repos: seq<Repo>) returns (k: nat)
    requires Process(git, llm, repos).failure.Some?
    ensures k < |repos|
    ensures AllSucceed(git, llm, repos[..k]) && !Succeeds(git, llm, repos[k])
    ensures AnalyzeRepo(git, llm, repos[k]).verdict == Abort(Process(git, llm, repos).failure.value)
    ensures Process(git, llm, repos) == Process(git, llm, repos[..k + 1])
    ensures |Only(Process(git, llm, repos).calls, IsFileRequest)| == k + 1
    decreases |repos|
  {
    var init := repos[..|repos| - 1];
    if Process(git, llm, init).failure.Some? {
      k := FailFast(git, llm, init);
      assert Process(git, llm, repos) == Process(git, llm, init);
      assert init[..k] == repos[..k] && init[..k + 1] == repos[..k + 1];
      assert init[k] == repos[k];
    } else {
      k := |repos| - 1;
      FailsAtLast(git, llm, repos);
    }
  }

  /** The case of `FailFast` where the last repository is the first to throw. */
  lemma FailsAtLast(git: GitProvider, llm: Classifier, repos: seq<Repo>)
    requires repos != []
    requires Process(git, llm, repos[..|repos| - 1]).failure.None?
    requires Process(git, llm, repos).failure.Some?
    ensures var k := |repos| - 1;
      && AllSucceed(git, llm, repos[..k]) && !Succeeds(git, llm, repos[k])
      && AnalyzeRepo(git, llm, repos[k]).verdict == Abort(Process(git, llm, repos).failure.value)
      && Process(git, llm, repos) == Process(git, llm, repos[..k + 1])
      && |Only(Process(git, llm, repos).calls, IsFileRequest)| == k + 1
  {
    var k := |repos| - 1;
    var init, last := repos[..k], repos[k];
    assert repos[..k + 1] == repos;
    var before := Process(git, llm, init);
    ProcessMeetsReference(git, llm, init);
    StepCalls(git, llm, last);
    StepVerdict(git, llm, last);
    OnlyAppend(before.calls, AnalyzeRepo(git, llm, last).calls, IsFileRequest);
  }

  /** An empty listing returns no candidates after listing the repositories and nothing else. */
  lemma EmptyListing(git: GitProvider, llm: Classifier)
    requires git.repositories == Ok([])
    ensures RunResult(git, llm) == Ok([])
    ensures RunCalls(git, llm) == [GetRepositories]
  {
  }

  /** A missing README is given to the classifier as the empty string. */
  lemma MissingReadmeIsEmpty(git: GitProvider, llm: Classifier, repo: Repo)
    requires git.getFileContent(repo.name, ReadmePath) == Ok(None)
    ensures AnalyzeRepo(git, llm, repo).calls[1] == Analyze(repo, "")
  {
  }

  /** A repository without a description gets a description that starts with " | Category: ". */
  lemma MissingDescription(repo: Repo, a: Analysis)
    requires repo.description.None? && Json.AllPrintable(a.tags)
    ensures " | Category: " <= NewDescription(repo, a)
  {
  }
}
