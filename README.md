# GitHub repository analyzer, modelled in Dafny

This project models the core of a tool that walks a user's GitHub repositories. For each
repository it fetches the README and asks a language model to classify it. A repository the model
keeps has its description annotated with the category and tags. A repository the model recommends
for deletion goes into a report. The report is written as comma-separated text with a
timestamped file name.

The model covers five parts:

- **The analysis orchestrator** (`GitRepoAnalysis`).
  - `GitRepoAnalyzer.AnalyzeUserRepositories` is a loop over the listing, proved against the
    back-recursive specification `Process`.
  - A ghost log records every provider call.
  - Lemmas relate `Process` to reference definitions that go front to back, one repository at a
    time: the filter law, the call law, the partition law and fail-fast.
  - Both providers are values: a `GitProvider` holds the listing and two answer functions, and a
    `Classifier` holds one answer function. Each answer is an `Outcome` (a value or a thrown error).
- **The report encoder** (`ReportService`).
  - The report text is a pure function.
  - Lemmas split it back into its lines and its quoted fields.
  - A lemma shows that fields are not escaped, with two different candidates that write the same
    record.
  - The file-name rule has a slice-by-slice contract.
- **The classification adapter** (`OpenAIService`).
  - The network call and `JSON.parse` are abstract functions.
  - `Analyze` states each fallback case and the field-by-field defaulting.
  - The JSON envelope the prompt asks for goes round-trip through the normaliser.
- **The two configuration services** (`Config`, `DotEnvConfig`).
  - Each is a class with `isLoaded` and a cached `config`.
  - The environment is a `map<string, string>` given to each read.
  - A ghost log, or a ghost counter, records each run of the `.env` loader.
- **The original single-file program** (`Legacy`, `src/index.ts`).
  - Its start-up check, its README and analysis handling, and its annotation template are proved
    equal to the services' versions.
  - Its report generator is a loop. It is proved to equal the service report plus one line feed.
  - Its main loop is proved against reference definitions: which repositories get rows and which
    get updates, and exactly when the report is written.

Supporting modules:

- `Outcomes`: `Option` and `Outcome`.
- `Text`: JavaScript's `join`, a splitter proved to undo it, and integer rendering.
- `Json`: parsed JSON values and how `Array.prototype.join` renders them.
- `Types`: the shared records.
- `GitHubService`: how the hosting service's reply to a file request becomes the README outcome.
- `Sequences`: order-preserving filtering of call logs.

Behaviour of the code that the model keeps as written:

- A reply whose content parses to JSON `null` is analysed as the fixed fallback. Reading a field of
  `null` throws inside the `try` of `src/services/openai_service.ts:41-90`.
- A reply that parses to any other non-object, such as `42` or `"text"`, is not a fallback. It is
  normalised field by field, so every field takes its default and the repository is kept with
  reason "No reason provided".
- No field of the report is escaped: `src/services/report_service.ts:22` and `src/index.ts:174`
  put each text between double quotes as it is. The disabled test at
  `__tests__/report-utils.test.ts:33-42` is titled as a test of escaping, but its expected strings
  hold the quotes unescaped too. `ReportService.RecordsAmbiguous` states what this allows.
- Tags are whatever JSON array the reply holds. Logging them joins them with `join`, which throws
  a `TypeError` when an element is an object with its own `toString` member, at any depth of
  nesting. In the orchestrator (`src/services/git_repo_analysis.ts:38`) that error ends the run.
  In `src/index.ts:207` the handler of `main` catches it and exits with status 1, before any report
  is written.

## Model

| member | source | states |
|---|---|---|
| Config.ConfigFromEnv | src/services/config.ts:76-89 | Succeeds exactly when the three required variables are present and non-empty, and otherwise fails with the missing-variables message. The credentials are the environment's values. The model is `OPENAI_MODEL` when non-empty, else "gpt-3.5-turbo". A loaded config has no empty field. |
| Config.LoaderPath | src/services/config.ts:57 | The `.env` loader gets the path exactly when a non-empty `envPath` was given, and no options otherwise. |
| Config.DotEnvConfigService.constructor | src/services/config.ts:38-46 | A new service keeps `envPath`, is not loaded, has no cached config and has run no loader. |
| Config.DotEnvConfigService.Load | src/services/config.ts:52-59 | Afterwards the service is loaded. The loader ran once with `LoaderPath(envPath)` if the service was not loaded before, and not at all otherwise. The cached config is unchanged. |
| Config.DotEnvConfigService.GetConfig | src/services/config.ts:66-92 | Before `load`: the not-loaded error, nothing changes. With a cached config: that config, unchanged. Otherwise: `ConfigFromEnv(env)`, cached only on success. `isLoaded` and the loader log never change. |
| Config.GetBeforeLoad | src/services/config.ts:67-69 | On a fresh service, reading fails with "Configuration has not been loaded. Call load() first." |
| Config.ReadTwice | src/services/config.ts:71-74 | After a successful read, a second read with any other environment returns the same config. After a failed read, the second read is the new environment's result. Loading twice runs the loader once (config.ts:53). |
| DotEnvConfig.DotEnvConfigService.constructor | src/services/dot_env_config.ts:9-15 | A new service is not loaded, has no cached config and has run no loader. |
| DotEnvConfig.DotEnvConfigService.Load | src/services/dot_env_config.ts:21-28 | Afterwards the service is loaded and the loader has run exactly once, however often `load` was called. The cached config is unchanged. |
| DotEnvConfig.DotEnvConfigService.GetConfig | src/services/dot_env_config.ts:35-61 | Same cases as the `envPath` variant: the not-loaded error, then the cached config, then the environment's settings, cached only on success. |
| DotEnvConfig.ReadAfterMissing | src/services/dot_env_config.ts:49-51 | A read with a required variable missing fails with the missing-variables error and caches nothing, so a later read returns the fixed environment's settings. |
| DotEnvConfig.ReadTwice | src/services/dot_env_config.ts:40-43 | Once a read succeeded, later reads return the same config whatever the environment has become. |
| GitHubService.GetFileContent | src/services/github_service.ts:70-91 | Throws exactly on an HTTP error whose status is not 404. Returns text exactly for a file with non-empty content, and that text is the decoded content. Everything else gives `null`. |
| OpenAIService.Normalize | src/services/openai_service.ts:76-81 | Category and reason are the parsed strings, or else "Uncategorized" and "No reason provided". Tags are the parsed array, or else `["needs-review"]`. `shouldKeep` is false exactly when the parsed `shouldKeep` is the literal `false`. |
| OpenAIService.ContentOf | src/services/openai_service.ts:70-73 | There is content exactly when the call returned a non-empty content string. |
| OpenAIService.Parsed | src/services/openai_service.ts:75 | Without content nothing is parsed. With content the result is `parse` of that content. |
| OpenAIService.Analyze | src/services/openai_service.ts:40-91 | The fixed fallback (keep, "Analysis failed") in four cases: a failed call, no or empty content, text that does not parse, or a parse to `null`. Any other parsed value is normalised. |
| OpenAIService.AnalyzeRepository | src/services/openai_service.ts:40-75 | The request carries the configured model, the name, the description or "", and the README. Deletion is recommended exactly when the reply parses to a value whose `shouldKeep` is `false`. |
| OpenAIService.DeleteOnlyWhenSaid | src/services/openai_service.ts:79 | An analysis says delete exactly when the reply's content parses to a value whose `shouldKeep` is the literal `false`. Every failure keeps the repository. |
| OpenAIService.EnvelopeRoundTrip | src/services/openai_service.ts:76-81 | Normalising the JSON envelope that the prompt asks for returns the analysis it was built from. |
| OpenAIService.NormalizeIdempotent | src/services/openai_service.ts:76-81 | Normalising the envelope of a normalised reply changes nothing. |
| Json.JoinStrings | src/services/git_repo_analysis.ts:43 | When every tag is a JSON string, `join` succeeds and writes the tags' texts joined. |
| Json.ElementText | src/services/git_repo_analysis.ts:38 | The text `join` writes for one element: the string itself, nothing for `null`, `true`/`false`, the integer's numeral, and "[object Object]" for an object without its own `toString` member. |
| Json.Joined | src/services/git_repo_analysis.ts:38 | `join` succeeds exactly when every element can be written, and then gives the elements' texts joined. Otherwise it throws the conversion error. |
| Json.NestedObjectThrows | src/services/git_repo_analysis.ts:38 | An object with its own `toString` member anywhere in the tags, nested in arrays to any depth, makes `join` throw, whatever the other tags are. |
| ReportService.GenerateCsvContent | src/services/report_service.ts:15-26 | No candidates gives exactly the sentinel text. Otherwise the text starts with the header line, line feed included. |
| ReportService.CsvLines | src/services/report_service.ts:20-25 | When no field holds a line feed, the report splits at line feeds into the header followed by one record per candidate, in order. It holds exactly n line feeds for n candidates, so it has n + 1 lines. |
| ReportService.HeaderColumns | src/services/report_service.ts:20 | The header splits at commas into the five column names. |
| ReportService.HeaderHasNoLineFeed | src/services/report_service.ts:20 | The header text contains no line feed. |
| ReportService.Row | src/services/report_service.ts:21-23 | A record is the five texts each between double quotes, fourteen characters longer than they are, starting with the quoted name and a comma. The description is not written. |
| ReportService.TemplateText | src/services/report_service.ts:22 | A timestamp is written as itself, and a missing one as the text "null". |
| ReportService.RecordFields | src/services/report_service.ts:21-23 | When no field holds a double quote, splitting a record at double quotes gives back the name, URL, reason and both timestamps verbatim, separated by commas. |
| ReportService.RecordsAmbiguous | src/services/report_service.ts:22 | Fields are not escaped. The name `x","y` with URL `z` writes the same record as the name `x` with URL `y","z`. |
| ReportService.DescriptionIgnored | src/services/report_service.ts:21-25 | Candidate lists that agree on name, URL, reason and timestamps give the same report, so the description never appears in it. |
| ReportService.FileTimestamp | src/services/report_service.ts:35 | Every `:` and `.` of the timestamp becomes `-`, and every other character is kept. Neither `:` nor `.` remains. |
| ReportService.ReportFileName | src/services/report_service.ts:35-36 | The name is the stem, then `-`, then the rewritten timestamp, then `.csv`. |
| ReportService.GenerateDeletionReport | src/services/report_service.ts:33-38 | The report succeeds exactly when the write of `GenerateCsvContent(candidates)` to the stem-and-clock file name succeeds, and otherwise throws the write's error. The part of the name taken from the clock holds no `:` or `.`. A file is written even with no candidates, and then holds only the sentinel text. |
| ReportService.FileNamesDistinct | src/services/report_service.ts:35-36 | Distinct timestamps of equal length give distinct file names when they agree wherever either of them holds `:` or `.`. The rewrite loses only which of those two characters stood there. |
| GitRepoAnalysis.NewDescription | src/services/git_repo_analysis.ts:43 | The annotated description starts with the old description, or nothing, followed by " \| Category: ", the category, " \| Tags: " and the tags joined with ", ". |
| GitRepoAnalysis.GitRepoAnalyzer.constructor | src/services/git_repo_analysis.ts:14-17 | The analyzer keeps both providers. |
| GitRepoAnalysis.AnalyzeRepo | src/services/git_repo_analysis.ts:34-48 | One iteration makes one to three calls, the README request first. A kept repository has three calls (README, classifier, update), a deleted one two. Neither happens unless the tags can be written. |
| GitRepoAnalysis.GitRepoAnalyzer.HandleRepository | src/services/git_repo_analysis.ts:34-48 | One iteration makes exactly the calls and reaches exactly the verdict of the specification step `AnalyzeRepo`. |
| GitRepoAnalysis.GitRepoAnalyzer.ProcessAll | src/services/git_repo_analysis.ts:30-49 | The loop's candidates, calls and stopping error are those of `Process` over the listing. |
| GitRepoAnalysis.GitRepoAnalyzer.AnalyzeUserRepositories | src/services/git_repo_analysis.ts:23-51 | The result and the full call log are `RunResult` and `RunCalls`. |
| GitRepoAnalysis.FailureSticks | src/services/git_repo_analysis.ts:30-49 | Once a prefix of the listing has thrown, the rest of the listing changes nothing. |
| GitRepoAnalysis.StepCalls | src/services/git_repo_analysis.ts:34-44 | In each iteration the README request comes first and happens once. When it returns, the classifier is asked second, once, with the README or "". The listing is never requested. |
| GitRepoAnalysis.StepVerdict | src/services/git_repo_analysis.ts:34-48 | An iteration stops exactly when one of its calls throws or its tags cannot be joined. Otherwise it updates a kept repository, or records a candidate with the classifier's reason, and does nothing else. |
| GitRepoAnalysis.ProcessMeetsReference | src/services/git_repo_analysis.ts:30-49 | The loop finishes exactly when no call throws and every repository's tags can be joined. Its candidates, updates, README requests and classifier requests are then those of the per-repository reference definitions. It never lists again. |
| GitRepoAnalysis.FilterLaw | src/services/git_repo_analysis.ts:30-50 | The run returns exactly when the listing and every call succeed and every repository's tags can be joined. The result is then the subsequence of the listing classified for deletion, in order, each with its reason. |
| GitRepoAnalysis.CallLaw | src/services/git_repo_analysis.ts:24-44 | On a normal return, the listing was requested once and first. Each README was requested once, in order, at "README.md". The classifier was asked once per repository, in order, with that repository and its README or "". The updates are exactly those of the kept repositories, in order, with the annotated description. |
| GitRepoAnalysis.AskedCount | src/services/git_repo_analysis.ts:34-35 | When every call succeeds, there is one classifier request per repository. |
| GitRepoAnalysis.Partition | src/services/git_repo_analysis.ts:42-48 | When every call succeeds, updates plus candidates number the repositories. |
| GitRepoAnalysis.FailFast | src/services/git_repo_analysis.ts:23-51 | When the run throws, some repository k is the first to throw, and the error is its error. Nothing after k is requested: the state is that of the first k + 1 repositories, with k + 1 README requests. |
| GitRepoAnalysis.EmptyListing | src/services/git_repo_analysis.ts:24-50 | An empty listing returns no candidates, and the only call is the listing. |
| GitRepoAnalysis.MissingReadmeIsEmpty | src/services/git_repo_analysis.ts:34-35 | A `null` README is given to the classifier as "". |
| GitRepoAnalysis.MissingDescription | src/services/git_repo_analysis.ts:43 | Without a description, the annotated description starts with " \| Category: ". |
| Legacy.Startup | src/index.ts:11-19 | Every start-up failure carries the message asking for the GitHub username, the token and the OpenAI key in the `.env` file. |
| Legacy.StartupAgrees | src/index.ts:11-19 | The start-up check accepts exactly the environments the configuration services accept, and reads the same settings from them. |
| Legacy.RepoName | src/index.ts:55 | A non-empty name is kept, and an empty name becomes "unknown", so the result is never empty. |
| Legacy.Readme | src/index.ts:63-81 | The README is the decoded content of a file with non-empty content, and "" for anything else, including every error the request throws. |
| Legacy.ReadmeAgrees | src/index.ts:63-81 | The legacy README equals the provider's `getFileContent` result wherever that returns, `null` giving "". It is "" wherever that throws, so every error is swallowed. |
| Legacy.AnalyzeRepo | src/index.ts:54-142 | The result echoes the fallback name and the description or "". It says delete exactly when the reply parses to a value whose `shouldKeep` is `false`. |
| Legacy.ClassificationAgrees | src/index.ts:113-141 | For a named repository whose README request returns, the legacy analysis equals the classification adapter's, given the same model, backend and README. |
| Legacy.UpdateAgrees | src/index.ts:144-151 | The update goes to the analysed repository's name (applying the `\|\| 'unknown'` fallback a second time changes nothing) and writes the same annotated description as the orchestrator. |
| Legacy.OrUnknown | src/index.ts:225-226 | A present, non-empty timestamp is kept. A missing or empty one becomes "unknown". |
| Legacy.ToDelete | src/index.ts:221-227 | A row keeps the name and reason. Its URL is the repository URL, or `https://github.com/<user>/<name>` when that is empty. Both timestamps go through `OrUnknown`. |
| Legacy.DeletionReport | src/index.ts:164-178 | No rows gives exactly the sentinel text. Otherwise the text starts with the header line and ends with a line feed. |
| Legacy.GenerateDeletionReport | src/index.ts:164-178 | The loop that appends one line per row builds `DeletionReport(repos)`. |
| Legacy.LineIsRow | src/index.ts:174 | A legacy line is the service record for the same five texts, followed by a line feed. |
| Legacy.BodyIsJoin | src/index.ts:170-177 | Header plus lines appended one by one equals the header line, then the records joined by line feeds, then one more line feed. |
| Legacy.ReportExtendsService | src/index.ts:164-178 | With the same five texts per row, the legacy report is the service report with one extra line feed. With no rows, both give the sentinel. |
| Legacy.SaveReport | src/index.ts:180-185 | The report goes to the file named by the stem and the rewritten clock time, and the write's outcome is returned. |
| Legacy.Examine | src/index.ts:201-230 | One iteration makes the README request and the completion request. When the tags cannot be joined it stops with the conversion error. Otherwise it yields the repository's row when deletion is recommended, and the update of a kept repository. |
| Legacy.ProcessAll | src/index.ts:201-230 | The loop's rows, calls and stopping error are those of `Process` over the listing. |
| Legacy.FailureSticks | src/index.ts:201-230 | Once the loop has stopped, the rest of the listing changes nothing. |
| Legacy.FailFast | src/index.ts:201-230 | When the loop stops, some repository k is the first whose tags cannot be joined. Nothing after it is requested: the state is that of the first k + 1 repositories. |
| Legacy.Conclude | src/index.ts:232-246 | The end of `main` equals `Conclusion`. An error in the loop ends the run with no report. Otherwise, no rows means no write, and with rows the report is generated and saved, and a failed write ends the run. |
| Legacy.Run | src/index.ts:187-250 | The outcome and the full call log are `Finish(w)`. |
| Legacy.StepFilters | src/index.ts:205-229 | One iteration makes one README request, the update of a kept repository whose tags can be joined, and no report write. |
| Legacy.ProcessMeetsReference | src/index.ts:201-230 | The loop runs to the end exactly when every repository's tags can be joined, and otherwise stops with the conversion error. When it runs to the end, its rows are those of the repositories recommended for deletion, in order, and its updates those of the kept ones. It asks once for each README. It never writes a report. |
| Legacy.Partition | src/index.ts:211-229 | When every repository's tags can be joined, every repository is either annotated or gets a row, never both. |
| Legacy.RunLaw | src/index.ts:187-250 | A failed listing ends the run at once. Tags that cannot be joined end it with the conversion error and no report. Otherwise the run fails only when rows exist and the write fails. It returns the rows, writes exactly one report (the file name from the clock, the content `DeletionReport(rows)`) exactly when there is a row, annotates exactly the kept repositories, and asks once per README. |
| Legacy.ConclusionCalls | src/index.ts:232-241 | Concluding adds only the report write, and only when the loop ran to the end and there is a row. |

## Left out

- `ReportService.GenerateDeletionReport`: the working-directory prefix that `path.join(process.cwd(), …)` adds is not modelled. The write is a function of the file name and content, and the clock reading is a string parameter.
- Network clients. The GitHub and OpenAI clients, their construction, and base64 decoding are abstract functions: `decode`, the providers' answer functions and `backend`. Only the outcome mapping of `getFileContent` is modelled. The listing and update wrappers in `src/services/github_service.ts` are not part of this model.
- `src/services/openai_llm_provider.ts` is not part of this model. It wraps the network call and does no parsing.
- `JSON.parse` is an abstract function into a small JSON datatype. JSON numbers are integers only, so a fractional tag is not rendered.
- `Json.ElementText`: a number is written as its exact decimal numeral. JavaScript writes the shortest decimal that reads back as the same double. So integers above 2^53 can be written differently, and from 10^21 on JavaScript uses the exponent form (`1e21` is written "1e+21"). Doubles are not modelled.
- The prompt text is not carried. A request records only the model, name, description and README.
- Providers, the clock and the file system are deterministic functions of their arguments within one run.
- The `.env` loader's effect on the process environment is not modelled. The environment map passed to a read is the environment as it stands after loading.
- Logging, apart from the tag join that can throw (modelled), the progress counter `processedCount` (used only in log lines), `process.exit` and the final "Process completed." message carry no behaviour to state.
- `Legacy.Run`: the outcome's value (the rows) stands for what `main` reported. Exiting with status 1 is `Fail`.
- `Legacy.SaveReport`: the working-directory prefix that `path.join(process.cwd(), …)` adds is not modelled. The clock reading is the `now` string.
- `Legacy.Examine`: the update's own result is not modelled, because `updateRepoDescription` swallows every error. The call is recorded in the ghost log.
- `async`/`await` introduces no concurrency here. Every call is a sequential step.
- `src/services/index.ts` holds interfaces only. Its records are the datatypes in `Types`.
- The tests and their mocks are not modelled.
