/** How the git provider turns the hosting service's reply to a file request into the abstract
    README outcome: a decoded text, `null`, or a thrown error. The HTTP client is not modelled. */
module GitHubService {
  import opened Outcomes

  /** The reply to a get-content request: file data, or an error with an HTTP status. */
  datatype ContentReply = Data(kind: string, content: Option<string>) | HttpError(status: int, message: string)

  const NotFound := 404

  /** The data is a file with non-empty (base64) content. */
  predicate HasFileContent(reply: ContentReply)
  {
    reply.Data? && reply.kind == "file" && reply.content.Some? && reply.content.value != ""
  }

  /** `getFileContent`: the decoded content of a file, `null` for anything that is not a file with
      content and for a 404, and a rethrown error for every other status. */
  function GetFileContent(reply: ContentReply, decode: string -> string): (r: Outcome<Option<string>>)
    ensures r.Fail? <==> reply.HttpError? && reply.status != NotFound
    ensures r.Ok? && r.value.Some? <==> HasFileContent(reply)
    ensures HasFileContent(reply) ==> r == Ok(Some(decode(reply.content.value)))
  {
    match reply
    case HttpError(status, message) => if status == NotFound then Ok(None) else Fail(message)
    case Data(kind, content) =>
      if kind == "file" && content.Some? && content.value != "" then Ok(Some(decode(content.value))) else Ok(None)
  }
}
