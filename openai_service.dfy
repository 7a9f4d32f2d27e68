/** The classification adapter: how the language-model reply becomes an `Analysis`.
    The network call is the abstract `backend`, and `JSON.parse` the abstract `parse`. */
module OpenAIService {
  import opened Outcomes
  import opened Types
  import opened Json

  /** What the chat-completion call gave: it threw, or it returned (possibly without content). */
  datatype Completion = CallFailed(message: string) | Completed(content: Option<string>)

  /** What the request carries besides the fixed instructions. */
  datatype Request = Request(model: string, name: string, description: string, readme: string)

  const DefaultCategory := "Uncategorized"
  const DefaultTags := [Str("needs-review")]
  const DefaultReason := "No reason provided"

  /** The fixed result of every failed analysis: it keeps the repository. */
  const Fallback := Analysis(DefaultCategory, DefaultTags, true, "Analysis failed")

  /** The parsed value says, in so many words, `"shouldKeep": false`. */
  predicate SaysDelete(parsed: Value)
  {
    Member(parsed, "shouldKeep") == Some(Bool(false))
  }

  /** `v[key]` is a string. */
  predicate HasString(v: Value, key: string)
  {
    Member(v, key).Some? && Member(v, key).value.Str?
  }

  /** `Array.isArray(v[key])`. */
  predicate HasArray(v: Value, key: string)
  {
    Member(v, key).Some? && Member(v, key).value.Array?
  }

  /** Field-by-field normalisation of a parsed reply that is not `null`. */
  function Normalize(parsed: Value): (a: Analysis)
    requires !parsed.Null?
    ensures HasString(parsed, "category") ==> a.category == Member(parsed, "category").value.s
    ensures !HasString(parsed, "category") ==> a.category == DefaultCategory
    ensures HasArray(parsed, "tags") ==> a.tags == Member(parsed, "tags").value.items
    ensures !HasArray(parsed, "tags") ==> a.tags == DefaultTags
    ensures !a.shouldKeep <==> SaysDelete(parsed)
    ensures HasString(parsed, "reason") ==> a.reason == Member(parsed, "reason").value.s
    ensures !HasString(parsed, "reason") ==> a.reason == DefaultReason
  {
    var category := Member(parsed, "category");
    var tags := Member(parsed, "tags");
    var reason := Member(parsed, "reason");
    Analysis(
      if category.Some? && category.value.Str? then category.value.s else DefaultCategory,
      if tags.Some? && tags.value.Array? then tags.value.items else DefaultTags,
      Member(parsed, "shouldKeep") != Some(Bool(false)),
      if reason.Some? && reason.value.Str? then reason.value.s else DefaultReason)
  }

  /** The text content of a reply, if it has any (an empty string counts as none). */
  function ContentOf(reply: Completion): (r: Option<string>)
    ensures r.Some? <==> reply.Completed? && reply.content.Some? && reply.content.value != ""
    ensures r.Some? ==> r.value == reply.content.value
  {
    if reply.Completed? && reply.content.Some? && reply.content.value != "" then Some(reply.content.value) else None
  }

  /** `JSON.parse` of the reply's content; None when there is no content or it does not parse. */
  function Parsed(reply: Completion, parse: string -> Option<Value>): (r: Option<Value>)
    ensures ContentOf(reply).None? ==> r.None?
    ensures ContentOf(reply).Some? ==> r == parse(ContentOf(reply).value)
  {
    if ContentOf(reply).Some? then parse(ContentOf(reply).value) else None
  }

  /** The reply's content parses to a value that says `"shouldKeep": false`. */
  predicate RepliesDelete(reply: Completion, parse: string -> Option<Value>)
  {
    Parsed(reply, parse).Some? && SaysDelete(Parsed(reply, parse).value)
  }

  /** The analysis of one reply: the fallback on a failed call, on missing or empty content,
      on text that does not parse and on a reply that parses to `null` (reading a field of `null`
      throws); otherwise the normalised fields. It never fails. */
  function Analyze(reply: Completion, parse: string -> Option<Value>): (a: Analysis)
    ensures reply.CallFailed? ==> a == Fallback
    ensures ContentOf(reply).None? ==> a == Fallback
    ensures ContentOf(reply).Some? && Parsed(reply, parse).None? ==> a == Fallback
    ensures Parsed(reply, parse) == Some(Null) ==> a == Fallback
    ensures Parsed(reply, parse).Some? && !Parsed(reply, parse).value.Null? ==> a == Normalize(Parsed(reply, parse).value)
  {
    match ContentOf(reply)
    case None => Fallback
    case Some(text) =>
      match parse(text)
      case None => Fallback
      case Some(parsed) => if parsed.Null? then Fallback else Normalize(parsed)
  }

  /** `OpenAIService.analyze(repo, readme)`: ask the backend, then analyse its reply. */
  function AnalyzeRepository(config: AppConfig, backend: Request -> Completion, parse: string -> Option<Value>,
                             repo: Repo, readme: string): (a: Analysis)
    ensures var reply := backend(Request(config.openaiModel, repo.name, OrEmpty(repo.description), readme));
      !a.shouldKeep <==> RepliesDelete(reply, parse)
  {
    DeleteOnlyWhenSaid(backend(Request(config.openaiModel, repo.name, OrEmpty(repo.description), readme)), parse);
    Analyze(backend(Request(config.openaiModel, repo.name, OrEmpty(repo.description), readme)), parse)
  }

  /** The JSON envelope the request asks the model to answer with. */
  function Envelope(a: Analysis): (v: Value)
  {
    Object(map["category" := Str(a.category), "tags" := Array(a.tags),
               "shouldKeep" := Bool(a.shouldKeep), "reason" := Str(a.reason)])
  }

  /** A repository is recommended for deletion exactly when the backend answered with text that
      parses to a value whose `shouldKeep` is literally `false`: every failure keeps it. */
  lemma DeleteOnlyWhenSaid(reply: Completion, parse: string -> Option<Value>)
    ensures !Analyze(reply, parse).shouldKeep <==> RepliesDelete(reply, parse)
  {
  }

  /** A well-formed envelope comes back unchanged: normalisation is the inverse of `Envelope`. */
  lemma EnvelopeRoundTrip(a: Analysis)
    ensures Normalize(Envelope(a)) == a
  {
  }

  /** Normalising twice changes nothing. */
  lemma NormalizeIdempotent(parsed: Value)
    requires !parsed.Null?
    ensures Normalize(Envelope(Normalize(parsed))) == Normalize(parsed)
  {
    EnvelopeRoundTrip(Normalize(parsed));
  }
}
