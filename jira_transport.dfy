/** What the client sees of HTTP and JSON: a JSON value, the request it
    builds, and the outcomes a request can have. The network, the JSON
    library and the file system are parameters gathered in `World`. */
module Transport {
  import opened Common
  import opened JiraObjects

  /** A parsed JSON value (`JToken`); numbers are kept as integers. */
  datatype Json =
    | JNull
    | JBool(b: bool)
    | JNumber(n: int)
    | JString(s: string)
    | JArray(items: seq<Json>)
    | JObject(members: seq<(string, Json)>)

  /** The parts of an `HttpWebRequest` the client sets that decide what the
      server receives. `body` is None when no request stream is opened. */
  datatype Request = Request(
    verb: string,
    url: string,
    contentType: string,
    authorization: Option<string>,
    body: Option<seq<byte>>)

  /** How the exchange for one request ends. */
  datatype Response =
    | Body(json: Json)               // the server answered; the body parsed as this JSON value
    | WebFailure(message: string)    // a WebException while getting the response
    | StreamFailure(message: string) // a WebException while opening the request stream
    | Crash                          // another exception: a malformed URL, a body that is not JSON

  /** What opening a path for reading ends in: the file's contents, a
      FileNotFoundException with its message, or any other exception (a
      missing directory, no access, an empty or illegal path). */
  datatype FileLookup =
    | Readable(contents: seq<byte>)
    | Missing(message: string)
    | Unopenable

  /** Everything outside the client: the server seen as a function of the
      request, what opening each path gives, the clock reading taken for
      the i-th upload,
      `HttpUtility.HtmlEncode`, `JsonConvert.SerializeObject`, and
      `JsonConvert.PopulateObject` for each record (None where it throws). */
  datatype World = World(
    send: Request -> Response,
    files: string -> FileLookup,
    clock: nat -> nat,
    htmlEncode: string -> string,
    serialize: JiraIssue -> string,
    populateProject: (Json, JiraProject) -> Option<JiraProject>,
    populateIssueCreated: (Json, JiraIssueCreated) -> Option<JiraIssueCreated>,
    populateFileAttached: (Json, JiraFileAttached) -> Option<JiraFileAttached>)
}
