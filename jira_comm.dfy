/** `JiraComm`: builds the REST requests of the plug-in (Basic authentication,
    JSON GET and POST, a multipart file upload) and sequences them into
    "list projects" and "submit a bug with its attachments". */
module JiraClient {
  import opened Common
  import opened TextEncoding
  import Base64
  import opened Base64Strings
  import opened JiraObjects
  import opened Transport

  // ---------------------------------------------------------------------------
  // The Authorization header (section 2 of RFC 7617)

  /** What the header step of a request does: no header, a Basic header with
      this value, or an exception that escapes the call (a null password
      dereferenced, or a stored password that is not base64). */
  datatype Auth = Anonymous | Basic(value: string) | AuthFault
  {
    /** The header as the request carries it. */
    function Header(): Option<string>
      requires !AuthFault?
    {
      if Basic? then Some(value) else None
    }
  }

  /** A Basic header whose credentials decode to `user`, a colon, then `secret`. */
  predicate CarriesCredentials(a: Auth, user: string, secret: seq<byte>)
  {
    a.Basic? && |a.value| >= 6 && a.value[..6] == "Basic "
    && Base64.Decode(a.value[6..]) == Some(GetBytes(user) + [':' as int] + secret)
  }

  /** "Basic " followed by the base64 of `user:` and the secret's bytes carries
      those credentials. */
  lemma BasicCarries(user: string, secret: seq<byte>)
    ensures CarriesCredentials(Basic("Basic " + Base64.Encode(GetBytes(user + ":") + secret)), user, secret)
  {
    var v := "Basic " + Base64.Encode(GetBytes(user + ":") + secret);
    assert v[..6] == "Basic " && v[6..] == Base64.Encode(GetBytes(user + ":") + secret);
    GetBytesAppend(user, ":");
    assert GetBytes(":") == [':' as int];
    Base64.DecodeEncode(GetBytes(user + ":") + secret);
  }

  /** The rule of `GetJson` with an encoded password, and of `AttachFile`:
      a header only for a non-empty user and a password whose encoded length
      is positive; its value is "Basic " and the encoding of `user:` followed
      by the decoded password, formed by `prefix`. */
  function EncodedAuth(user: Option<string>, password: Option<Base64String>): (a: Auth)
    ensures a.Basic? <==>
      NonEmpty(user) && password.Some? && password.value.Length() > 0 && Base64.Decode(password.value.base64value).Some?
    ensures a.AuthFault? <==>
      NonEmpty(user) && (password.None? || (password.value.Length() > 0 && Base64.Decode(password.value.base64value).None?))
    ensures a.Basic? ==> CarriesCredentials(a, user.value, Base64.Decode(password.value.base64value).value)
    ensures a.Basic? ==>
      a.value == "Basic " + Base64.Encode(GetBytes(user.value + ":") + Base64.Decode(password.value.base64value).value)
  {
    if !NonEmpty(user) then Anonymous
    else if password.None? then AuthFault
    else if password.value.Length() == 0 then Anonymous
    else
      match Prefix(password.value, user.value + ":")
      case None => AuthFault
      case Some(info) =>
        var secret := Base64.Decode(password.value.base64value).value;
        Base64.DecodeEncode(GetBytes(user.value + ":") + secret);
        BasicCarries(user.value, secret);
        Basic("Basic " + info.base64value)
  }

  /** The rule of `PostJson`: it tests the password's text (the implicit
      conversion to string) for null or empty, so a null password sends no
      header instead of failing. */
  function PostAuth(user: Option<string>, password: Option<Base64String>): (a: Auth)
    ensures a.AuthFault? <==>
      NonEmpty(user) && password.Some? && password.value.Length() > 0 && Base64.Decode(password.value.base64value).None?
    ensures password.Some? ==> a == EncodedAuth(user, password)
    ensures password.None? ==> a == Anonymous
  {
    if !NonEmpty(user) || !NonEmpty(ToText(password)) then Anonymous
    else EncodedAuth(user, password)
  }

  /** The rule of `GetJson` with a plain password: "Basic " and the
      base64 of the code-page bytes of `user:password`. It never fails. */
  function PlainAuth(user: Option<string>, password: Option<string>): (a: Auth)
    ensures !a.AuthFault?
    ensures a.Basic? <==> NonEmpty(user) && NonEmpty(password)
    ensures a.Basic? ==> CarriesCredentials(a, user.value, GetBytes(password.value))
    ensures a.Basic? ==> a.value == "Basic " + Base64.Encode(GetBytes(user.value + ":" + password.value))
  {
    if NonEmpty(user) && NonEmpty(password) then
      GetBytesAppend(user.value + ":", password.value);
      assert user.value + ":" + password.value == (user.value + ":") + password.value;
      BasicCarries(user.value, GetBytes(password.value));
      Basic("Basic " + Base64.Encode(GetBytes(user.value + ":" + password.value)))
    else Anonymous
  }

  /** Both `GetJson` overloads send the same header for the same plain password:
      the encoded one's `prefix` decodes, prepends and re-encodes the very bytes
      the plain one encodes directly. */
  lemma {:induction false} SamePlaintextSameHeader(user: Option<string>, plain: string)
    ensures PlainAuth(user, Some(plain)) == EncodedAuth(user, Some(FromPlain(plain)))
  {
    if NonEmpty(user) && |plain| > 0 {
      var u := user.value;
      var p := FromPlain(plain);
      var round := GetString(GetBytes(plain));
      assert DecodeFrom64(p.base64value) == Some(round);
      GetBytesOfGetString(GetBytes(plain));
      GetBytesAppend(u + ":", round);
      GetBytesAppend(u + ":", plain);
      assert Prefix(p, u + ":") == Some(EncodeTo64(u + ":" + round));
      assert GetBytes(u + ":" + round) == GetBytes(u + ":" + plain);
    }
  }

  // ---------------------------------------------------------------------------
  // JSON requests

  /** The try/catch around `GetResponse`: a parsed body is the result, a
      WebException's message the error. A WebException while opening the
      request stream is caught only where no stream is opened before the try
      (a GET); any other exception escapes. */
  function Receive(resp: Response, streamOpened: bool): (r: Reply<Json>)
    ensures r.Returned? ==> (r.result.Some? <==> r.error.None?)
    ensures r.Returned? && r.result.Some? <==> resp.Body?
    ensures r.Threw? <==> resp.Crash? || (streamOpened && resp.StreamFailure?)
    ensures resp.Body? ==> r == Returned(Some(resp.json), None)
    ensures resp.WebFailure? || (!streamOpened && resp.StreamFailure?) ==> r == Returned(None, Some(resp.message))
  {
    match resp
    case Body(j) => Returned(Some(j), None)
    case WebFailure(m) => Returned(None, Some(m))
    case StreamFailure(m) => if streamOpened then Threw else Returned(None, Some(m))
    case Crash => Threw
  }

  /** A JSON request to `server + path` (a null server counts as ""). */
  function JsonRequest(verb: string, server: Option<string>, path: string, a: Auth, body: Option<seq<byte>>): Request
    requires !a.AuthFault?
  {
    Request(verb, OrEmpty(server) + path, "application/json", a.Header(), body)
  }

  /** `GetJson` with an encoded password. */
  function GetJson(w: World, server: Option<string>, path: string, user: Option<string>, password: Option<Base64String>)
    : (r: Reply<Json>)
    ensures r.Returned? ==> (r.result.Some? <==> r.error.None?)
    ensures EncodedAuth(user, password).AuthFault? ==> r.Threw?
  {
    var a := EncodedAuth(user, password);
    if a.AuthFault? then Threw
    else Receive(w.send(JsonRequest("GET", server, path, a, None)), false)
  }

  /** `GetJson` with a plain password: its header step cannot fail. */
  function GetJsonPlain(w: World, server: Option<string>, path: string, user: Option<string>, password: Option<string>)
    : (r: Reply<Json>)
    ensures r.Returned? ==> (r.result.Some? <==> r.error.None?)
    ensures r.Threw? <==> w.send(JsonRequest("GET", server, path, PlainAuth(user, password), None)).Crash?
  {
    Receive(w.send(JsonRequest("GET", server, path, PlainAuth(user, password), None)), false)
  }

  /** For the same plain password both `GetJson` overloads send the same
      request and so get the same reply. */
  lemma GetJsonOverloadsAgree(w: World, server: Option<string>, path: string, user: Option<string>, plain: string)
    ensures GetJsonPlain(w, server, path, user, Some(plain)) == GetJson(w, server, path, user, Some(FromPlain(plain)))
  {
    SamePlaintextSameHeader(user, plain);
  }

  /** `PostJson`: writes the JSON text (UTF-8) to the request stream, which is
      opened outside the try, then reads the reply. */
  function PostJson(w: World, server: Option<string>, path: string, user: Option<string>, password: Option<Base64String>,
                    json: string): (r: Reply<Json>)
    ensures r.Returned? ==> (r.result.Some? <==> r.error.None?)
    ensures password.None? ==> !r.Threw? || w.send(JsonRequest("POST", server, path, Anonymous, Some(Utf8(json)))).Crash?
                               || w.send(JsonRequest("POST", server, path, Anonymous, Some(Utf8(json)))).StreamFailure?
  {
    var a := PostAuth(user, password);
    if a.AuthFault? then Threw
    else Receive(w.send(JsonRequest("POST", server, path, a, Some(Utf8(json)))), true)
  }

  // ---------------------------------------------------------------------------
  // The multipart/form-data upload body (section 4.2 of RFC 7578, delimiters
  // as in section 5.1.1 of RFC 2046)

  const CRLF: string := "\r\n"

  /** The size of the copy buffer. */
  const ChunkSize: nat := 65536

  /** The boundary: 25 dashes and the clock's tick count in decimal. */
  function BoundaryMarker(ticks: nat): (m: string)
    ensures |m| > 25 && m[..25] == "-------------------------"
    ensures forall i :: 25 <= i < |m| ==> '0' <= m[i] <= '9'
  {
    "-------------------------" + NatToString(ticks)
  }

  /** The characters `FileInfo.Name` splits a path on. */
  predicate IsSeparator(c: char)
  {
    c == '\\' || c == '/' || c == ':'
  }

  /** `FileInfo.Name`: the text after the last separator. */
  function BaseName(path: string): (r: string)
    ensures |r| <= |path| && r == path[|path| - |r|..]
    ensures forall i :: 0 <= i < |r| ==> !IsSeparator(r[i])
    ensures |r| < |path| ==> IsSeparator(path[|path| - |r| - 1])
  {
    if path == [] || IsSeparator(path[|path| - 1]) then []
    else BaseName(path[..|path| - 1]) + [path[|path| - 1]]
  }

  /** The Content-Disposition line of the one part, without its line break. */
  function DispositionLine(encodedName: string): string
  {
    "Content-Disposition: form-data; name=\"file\"; filename=\"" + encodedName + "\""
  }

  /** Everything written before the file bytes. */
  function ContentHeader(marker: string, encodedName: string): string
  {
    "--" + marker + CRLF
    + DispositionLine(encodedName) + CRLF
    + "Content-Type: application/octet-stream" + CRLF
    + CRLF
  }

  /** Everything written after the file bytes. */
  function ClosingBoundary(marker: string): string
  {
    CRLF + "--" + marker + "--"
  }

  /** The body of an upload request. */
  function MultipartBody(marker: string, encodedName: string, file: seq<byte>): (r: seq<byte>)
    ensures var h := |Utf8(ContentHeader(marker, encodedName))|;
            |r| == h + |file| + |Utf8(ClosingBoundary(marker))|
            && r[..h] == Utf8(ContentHeader(marker, encodedName))
            && r[h..h + |file|] == file
            && r[h + |file|..] == Utf8(ClosingBoundary(marker))
  {
    Utf8(ContentHeader(marker, encodedName)) + file + Utf8(ClosingBoundary(marker))
  }

  /** The body is, in this order: the opening delimiter line, the
      Content-Disposition line, the Content-Type line, an empty line, the file
      bytes unchanged, and the closing delimiter, each line in UTF-8. */
  lemma MultipartLayout(marker: string, encodedName: string, file: seq<byte>)
    ensures MultipartBody(marker, encodedName, file)
         == Utf8("--" + marker + CRLF)
          + Utf8(DispositionLine(encodedName) + CRLF)
          + Utf8("Content-Type: application/octet-stream" + CRLF)
          + Utf8(CRLF)
          + file
          + Utf8(CRLF + "--" + marker + "--")
  {
    var l1, l2, l3 := "--" + marker + CRLF, DispositionLine(encodedName) + CRLF, "Content-Type: application/octet-stream" + CRLF;
    assert ContentHeader(marker, encodedName) == l1 + l2 + l3 + CRLF;
    Utf8Append(l1 + l2 + l3, CRLF);
    Utf8Append(l1 + l2, l3);
    Utf8Append(l1, l2);
  }

  /** The closing delimiter is ASCII, so its bytes are its characters' codes. */
  lemma ClosingBoundaryBytes(ticks: nat)
    ensures var c := ClosingBoundary(BoundaryMarker(ticks));
            |Utf8(c)| == |c| && forall i :: 0 <= i < |c| ==> Utf8(c)[i] == c[i] as int
  {
    var c := ClosingBoundary(BoundaryMarker(ticks));
    assert Ascii(c) by {
      forall i | 0 <= i < |c| ensures (c[i] as int) < 0x80 {
        var m := BoundaryMarker(ticks);
        assert c == "\r\n--" + m + "--";
        if 4 <= i < 4 + |m| { assert c[i] == m[i - 4]; }
      }
    }
    Utf8OfAscii(c);
  }

  /** One `FileStream.Read` into the buffer: the next bytes of the file, as
      many as fit, none at the end of the file. */
  method ReadChunk(file: seq<byte>, pos: nat, buffer: array<byte>) returns (n: nat)
    requires pos <= |file|
    modifies buffer
    ensures n <= buffer.Length && pos + n <= |file|
    ensures n == 0 <==> pos == |file| || buffer.Length == 0
    ensures n == buffer.Length || pos + n == |file|
    ensures buffer[..n] == file[pos..pos + n]
  {
    n := if |file| - pos < buffer.Length then |file| - pos else buffer.Length;
    forall i | 0 <= i < n {
      buffer[i] := file[pos + i];
    }
  }

  /** The body writing of `AttachFile`: the header, then the file copied
      through a 64 KB buffer until a read returns 0, then the closing
      delimiter. The stream receives exactly header, file, closing. */
  method WriteBody(header: seq<byte>, file: seq<byte>, closing: seq<byte>) returns (stream: seq<byte>)
    ensures stream == header + file + closing
  {
    var buffer := new byte[ChunkSize];
    stream := header;
    var pos: nat := 0;
    var bytesRead: nat := ReadChunk(file, pos, buffer);
    while bytesRead != 0
      invariant bytesRead <= buffer.Length
      invariant pos + bytesRead <= |file|
      invariant bytesRead == 0 ==> pos == |file|
      invariant buffer[..bytesRead] == file[pos..pos + bytesRead]
      invariant stream == header + file[..pos]
      decreases |file| - pos
    {
      stream := stream + buffer[..bytesRead];
      assert file[..pos + bytesRead] == file[..pos] + file[pos..pos + bytesRead];
      pos := pos + bytesRead;
      bytesRead := ReadChunk(file, pos, buffer);
    }
    assert file[..pos] == file;
    stream := stream + closing;
  }

  // ---------------------------------------------------------------------------
  // Uploading one file

  /** A file to attach; the plug-in uses only its path. */
  datatype Attachment = Attachment(fileName: string)

  /** The upload request for an issue. */
  function UploadRequest(server: Option<string>, issueKey: Option<string>, marker: string, a: Auth, body: seq<byte>)
    : (req: Request)
    requires !a.AuthFault?
    ensures req.verb == "POST" && req.body == Some(body) && req.authorization == a.Header()
    ensures req.url == OrEmpty(server) + "/rest/api/2/issue/" + OrEmpty(issueKey) + "/attachments"
    ensures req.contentType == "multipart/form-data; boundary=" + marker
  {
    Request("POST", OrEmpty(server) + "/rest/api/2/issue/" + OrEmpty(issueKey) + "/attachments",
            "multipart/form-data; boundary=" + marker, a.Header(), Some(body))
  }

  /** Reading the upload reply: the body must be a JSON array (else the cast
      throws) with an element 0 (else the index throws); only element 0 is
      populated into a new record. */
  function UploadReply(w: World, resp: Response): (r: Reply<JiraFileAttached>)
    ensures r.Returned? ==> (r.result.Some? <==> r.error.None?)
    ensures r.Returned? && r.result.Some? ==>
              resp.Body? && resp.json.JArray? && |resp.json.items| > 0
              && w.populateFileAttached(resp.json.items[0], NewJiraFileAttached()) == r.result
    ensures r.Returned? && r.error.Some? <==> resp.WebFailure?
  {
    match resp
    case Body(j) =>
      if !j.JArray? || |j.items| == 0 then Threw
      else (
        match w.populateFileAttached(j.items[0], NewJiraFileAttached())
        case None => Threw
        case Some(f) => Returned(Some(f), None))
    case WebFailure(m) => Returned(None, Some(m))
    case StreamFailure(_) => Threw
    case Crash => Threw
  }

  /** What `AttachFile` does: the header step, then a file that cannot be
      opened is dealt with before any request body is written: a missing
      file is reported, any other failure to open it escapes. Otherwise the
      multipart body is sent and the reply read. */
  function AttachOutcome(w: World, server: Option<string>, user: Option<string>, password: Option<Base64String>,
                         issueKey: Option<string>, fileName: string, ticks: nat): (r: Reply<JiraFileAttached>)
    ensures r.Returned? ==> (r.result.Some? <==> r.error.None?)
    ensures !EncodedAuth(user, password).AuthFault? && w.files(fileName).Missing? ==>
              r == Returned(None, Some(w.files(fileName).message))
    ensures w.files(fileName).Unopenable? ==> r.Threw?
    ensures r.Returned? && r.result.Some? ==> w.files(fileName).Readable?
  {
    var a := EncodedAuth(user, password);
    if a.AuthFault? then Threw
    else
      match w.files(fileName)
      case Missing(message) => Returned(None, Some(message))
      case Unopenable => Threw
      case Readable(file) =>
        var marker := BoundaryMarker(ticks);
        var body := MultipartBody(marker, w.htmlEncode(BaseName(fileName)), file);
        UploadReply(w, w.send(UploadRequest(server, issueKey, marker, a, body)))
  }

  /** A file that cannot be opened is dealt with without contacting the
      server: the outcome is the same whatever the server would answer. */
  lemma MissingFileSendsNothing(w: World, send: Request -> Response, server: Option<string>, user: Option<string>,
                                password: Option<Base64String>, issueKey: Option<string>, fileName: string, ticks: nat)
    requires !w.files(fileName).Readable?
    ensures AttachOutcome(w.(send := send), server, user, password, issueKey, fileName, ticks)
         == AttachOutcome(w, server, user, password, issueKey, fileName, ticks)
  {
  }

  /** `AttachFile`. */
  method AttachFile(w: World, server: Option<string>, user: Option<string>, password: Option<Base64String>,
                    issueKey: Option<string>, attachment: Attachment, ticks: nat) returns (r: Reply<JiraFileAttached>)
    ensures r == AttachOutcome(w, server, user, password, issueKey, attachment.fileName, ticks)
  {
    var marker := BoundaryMarker(ticks);
    var a := EncodedAuth(user, password);
    if a.AuthFault? {
      return Threw;
    }
    var header := Utf8(ContentHeader(marker, w.htmlEncode(BaseName(attachment.fileName))));
    var lookup := w.files(attachment.fileName);
    if lookup.Missing? {
      return Returned(None, Some(lookup.message));
    } else if lookup.Unopenable? {
      return Threw;
    }
    var body := WriteBody(header, lookup.contents, Utf8(ClosingBoundary(marker)));
    r := UploadReply(w, w.send(UploadRequest(server, issueKey, marker, a, body)));
  }

  // ---------------------------------------------------------------------------
  // Listing projects and submitting a bug

  /** `new JiraIssue()` filled in by `SubmitBug`: issue type "Bug", the
      project key, the title as summary and the description. */
  function BugIssue(projectKey: Option<string>, title: Option<string>, description: Option<string>): (i: JiraIssue)
    ensures i.fields.issuetype.name == Some("Bug")
    ensures i.fields.project.key == projectKey
    ensures i.fields.summary == title && i.fields.description == description
  {
    var blank := NewJiraIssue();
    blank.(fields := blank.fields.(
      issuetype := IssueType(Some("Bug")),
      project := IssueProject(projectKey),
      summary := title,
      description := description))
  }

  /** How far an attachment sequence got: how many uploads were attempted and
      the error of the last one, or an exception escaped. */
  datatype AttachRun = Run(attempted: nat, error: Option<string>) | RunThrew

  /** Whether upload `j`, of outcomes `outs`, returned without error. */
  predicate Succeeded<T>(outs: seq<Reply<T>>, j: nat)
    requires j < |outs|
  {
    outs[j].Returned? && outs[j].error.None?
  }

  /** Running the uploads with outcomes `outs[i..]` in order, stopping right
      after the first one that reports an error or throws. */
  function RunFrom<T>(outs: seq<Reply<T>>, i: nat): (r: AttachRun)
    requires i <= |outs|
    decreases |outs| - i
  {
    if i == |outs| then Run(i, None)
    else
      match outs[i]
      case Threw => RunThrew
      case Returned(_, err) =>
        if err.Some? then Run(i + 1, err) else RunFrom(outs, i + 1)
  }

  /** The uploads run in order: every upload before the last attempted one
      succeeded. */
  lemma {:induction false} RunInOrder<T>(outs: seq<Reply<T>>, i: nat)
    requires i <= |outs|
    ensures var r := RunFrom(outs, i);
            r.Run? ==> i <= r.attempted <= |outs| && forall j :: i <= j < r.attempted - 1 ==> Succeeded(outs, j)
    decreases |outs| - i
  {
    if i < |outs| && Succeeded(outs, i) {
      RunInOrder(outs, i + 1);
    }
  }

  /** A run that ends with an error ends at the upload that reported it, and
      a run without error attempted every upload. */
  lemma {:induction false} RunStopsAtError<T>(outs: seq<Reply<T>>, i: nat)
    requires i <= |outs|
    ensures var r := RunFrom(outs, i);
            r.Run? && r.error.Some? ==>
              i < r.attempted <= |outs| && outs[r.attempted - 1].Returned? && outs[r.attempted - 1].error == r.error
    ensures var r := RunFrom(outs, i);
            r.Run? && r.error.None? ==> r.attempted == |outs|
    decreases |outs| - i
  {
    if i < |outs| && Succeeded(outs, i) {
      RunStopsAtError(outs, i + 1);
    }
  }

  /** The run ends without error exactly when every upload succeeds. */
  lemma {:induction false} RunAllSucceed<T>(outs: seq<Reply<T>>, i: nat)
    requires i <= |outs|
    ensures RunFrom(outs, i) == Run(|outs|, None) <==> forall j :: i <= j < |outs| ==> Succeeded(outs, j)
    decreases |outs| - i
  {
    if i < |outs| {
      RunAllSucceed(outs, i + 1);
      if Succeeded(outs, i) {
        assert RunFrom(outs, i) == RunFrom(outs, i + 1);
      } else {
        assert RunFrom(outs, i) == RunThrew || RunFrom(outs, i).error.Some?;
      }
    }
  }

  /** The run throws exactly when some upload throws and every upload before
      it succeeded. */
  lemma {:induction false} RunThrows<T>(outs: seq<Reply<T>>, i: nat)
    requires i <= |outs|
    ensures RunFrom(outs, i).RunThrew? <==>
            exists k :: i <= k < |outs| && outs[k].Threw? && forall j :: i <= j < k ==> Succeeded(outs, j)
    decreases |outs| - i
  {
    if i < |outs| {
      RunThrows(outs, i + 1);
      if outs[i].Threw? {
        assert RunFrom(outs, i).RunThrew?;
      } else if Succeeded(outs, i) {
        assert RunFrom(outs, i) == RunFrom(outs, i + 1);
        if RunFrom(outs, i).RunThrew? {
          var k :| i + 1 <= k < |outs| && outs[k].Threw? && forall j :: i + 1 <= j < k ==> Succeeded(outs, j);
          assert forall j :: i <= j < k ==> Succeeded(outs, j);
        }
      } else {
        assert RunFrom(outs, i).Run?;
      }
    }
  }

  /** Populating a new project from each element of a JSON array, in order;
      None where one of them throws. */
  function PopulateProjects(w: World, items: seq<Json>): (r: Option<seq<JiraProject>>)
    ensures r.Some? <==> forall i :: 0 <= i < |items| ==> w.populateProject(items[i], NewJiraProject()).Some?
    ensures r.Some? ==> |r.value| == |items|
                        && forall i :: 0 <= i < |items| ==> w.populateProject(items[i], NewJiraProject()) == Some(r.value[i])
    decreases |items|
  {
    if items == [] then Some([])
    else
      var init := items[..|items| - 1];
      assert forall i :: 0 <= i < |init| ==> init[i] == items[i];
      match PopulateProjects(w, init)
      case None => None
      case Some(projects) =>
        match w.populateProject(items[|items| - 1], NewJiraProject())
        case None => None
        case Some(p) => Some(projects + [p])
  }

  /** The connection a `JiraComm` is created with. */
  datatype JiraComm = JiraComm(server: Option<string>, user: Option<string>, password: Option<Base64String>)
  {
    /** The outcome of uploading each attachment of a bug, the i-th stamped
        with the clock's i-th reading. */
    function Outcomes(w: World, key: Option<string>, atts: seq<Attachment>): (outs: seq<Reply<JiraFileAttached>>)
      ensures |outs| == |atts|
      ensures forall i :: 0 <= i < |atts| ==>
                outs[i] == AttachOutcome(w, server, user, password, key, atts[i].fileName, w.clock(i))
    {
      seq(|atts|, i requires 0 <= i < |atts| => AttachOutcome(w, server, user, password, key, atts[i].fileName, w.clock(i)))
    }

    /** What `SubmitBug` does: create the issue; if that returns no result,
        report its error and attempt nothing more; otherwise upload the
        attachments in order and return the created key with the error of the
        last attempted upload. */
    function SubmitOutcome(w: World, projectKey: Option<string>, title: Option<string>, description: Option<string>,
                           atts: seq<Attachment>): (r: Reply<string>)
      ensures var p := PostJson(w, server, "/rest/api/2/issue/", user, password,
                                w.serialize(BugIssue(projectKey, title, description)));
              (p.Threw? ==> r.Threw?)
              && (r.Returned? && r.result.Some? ==> p.Returned? && p.result.Some?)
    {
      match PostJson(w, server, "/rest/api/2/issue/", user, password, w.serialize(BugIssue(projectKey, title, description)))
      case Threw => Threw
      case Returned(created, err) =>
        if created.None? then Returned(None, err)
        else
          match w.populateIssueCreated(created.value, NewJiraIssueCreated())
          case None => Threw
          case Some(issue) =>
            match RunFrom(Outcomes(w, issue.key, atts), 0)
            case RunThrew => Threw
            case Run(_, e) => Returned(issue.key, e)
    }

    /** A failed issue creation is reported as is, and no attachment is
        attempted: the outcome does not depend on the files. */
    lemma CreationFailureStops(w: World, files: string -> FileLookup, projectKey: Option<string>, title: Option<string>,
                               description: Option<string>, atts: seq<Attachment>)
      requires var p := PostJson(w, server, "/rest/api/2/issue/", user, password,
                                 w.serialize(BugIssue(projectKey, title, description)));
               p.Returned? && p.result.None?
      ensures var p := PostJson(w, server, "/rest/api/2/issue/", user, password,
                                w.serialize(BugIssue(projectKey, title, description)));
              SubmitOutcome(w, projectKey, title, description, atts) == Returned(None, p.error)
              && SubmitOutcome(w.(files := files), projectKey, title, description, atts)
                 == SubmitOutcome(w, projectKey, title, description, atts)
    {
    }

    /** Once the issue is created, its key is returned whatever happens to the
        uploads (unless an exception escapes), and the error is null exactly
        when every upload succeeded. */
    lemma SubmitKeepsKey(w: World, projectKey: Option<string>, title: Option<string>,
                                            description: Option<string>, atts: seq<Attachment>, issue: JiraIssueCreated)
      requires var p := PostJson(w, server, "/rest/api/2/issue/", user, password,
                                 w.serialize(BugIssue(projectKey, title, description)));
               p.Returned? && p.result.Some? && w.populateIssueCreated(p.result.value, NewJiraIssueCreated()) == Some(issue)
      ensures var r := SubmitOutcome(w, projectKey, title, description, atts);
              var outs := Outcomes(w, issue.key, atts);
              (r.Threw? <==> RunFrom(outs, 0).RunThrew?)
              && (r.Returned? ==>
                    r.result == issue.key
                    && (r.error.None? <==> forall j :: 0 <= j < |atts| ==> Succeeded(outs, j)))
    {
      var outs := Outcomes(w, issue.key, atts);
      RunStopsAtError(outs, 0);
      RunAllSucceed(outs, 0);
    }

    /** What `GetProjects` gives: the fetch's error on failure; null when the
        reply is not a JSON array; otherwise one project per element, in
        order (an empty array gives an empty list). */
    function ProjectsReply(w: World): (r: Reply<seq<JiraProject>>)
      ensures var f := GetJson(w, server, "/rest/api/2/project", user, password);
              f.Threw? ==> r.Threw?
      ensures var f := GetJson(w, server, "/rest/api/2/project", user, password);
              f.Returned? && (f.result.None? || !f.result.value.JArray?) ==> r == Returned(None, f.error)
      ensures var f := GetJson(w, server, "/rest/api/2/project", user, password);
              f.Returned? && f.result.Some? && f.result.value.JArray? ==>
                (r.Threw? <==> exists i :: 0 <= i < |f.result.value.items|
                                           && w.populateProject(f.result.value.items[i], NewJiraProject()).None?)
                && (r.Returned? ==> r.result.Some?)
      ensures r.Returned? && r.result.Some? ==>
                var f := GetJson(w, server, "/rest/api/2/project", user, password);
                f.Returned? && f.result.Some? && f.result.value.JArray? && r.error.None?
                && |r.result.value| == |f.result.value.items|
                && forall i :: 0 <= i < |r.result.value| ==>
                     w.populateProject(f.result.value.items[i], NewJiraProject()) == Some(r.result.value[i])
    {
      var fetched := GetJson(w, server, "/rest/api/2/project", user, password);
      if fetched.Threw? then Threw
      else if fetched.result.None? || !fetched.result.value.JArray? then Returned(None, fetched.error)
      else
        match PopulateProjects(w, fetched.result.value.items)
        case None => Threw
        case Some(projects) => Returned(Some(projects), fetched.error)
    }

    /** `GetProjects`. */
    method GetProjects(w: World) returns (r: Reply<seq<JiraProject>>)
      ensures r == ProjectsReply(w)
    {
      var fetched := GetJson(w, server, "/rest/api/2/project", user, password);
      if fetched.Threw? {
        return Threw;
      }
      if fetched.result.None? || !fetched.result.value.JArray? {
        return Returned(None, fetched.error);
      }
      var items := fetched.result.value.items;
      var projects: seq<JiraProject> := [];
      var i := 0;
      while i < |items|
        invariant i <= |items| && PopulateProjects(w, items[..i]) == Some(projects)
      {
        var project := w.populateProject(items[i], NewJiraProject());
        assert items[..i + 1][..i] == items[..i];
        if project.None? {
          assert items[..i + 1][i] == items[i];
          return Threw;
        }
        projects := projects + [project.value];
        i := i + 1;
      }
      assert items[..i] == items;
      return Returned(Some(projects), fetched.error);
    }

    /** `SubmitBug`. The priority, creation date, author and assignee are
        accepted but not placed in the request. */
    method SubmitBug(w: World, projectKey: Option<string>, title: Option<string>, description: Option<string>,
                     priority: int, createdDate: int, author: Option<string>, assignedTo: Option<string>,
                     atts: seq<Attachment>) returns (r: Reply<string>)
      ensures r == SubmitOutcome(w, projectKey, title, description, atts)
    {
      var posted := PostJson(w, server, "/rest/api/2/issue/", user, password,
                             w.serialize(BugIssue(projectKey, title, description)));
      if posted.Threw? {
        return Threw;
      }
      if posted.result.None? {
        return Returned(None, posted.error);
      }
      var created := w.populateIssueCreated(posted.result.value, NewJiraIssueCreated());
      if created.None? {
        return Threw;
      }
      var run := AttachAll(w, created.value.key, atts);
      if run.RunThrew? {
        return Threw;
      }
      return Returned(created.value.key, run.error);
    }

    /** The attachment loop of `SubmitBug`: upload in order, stamping the i-th
        with the clock's i-th reading, and stop after the first upload that
        reports an error. */
    method AttachAll(w: World, key: Option<string>, atts: seq<Attachment>) returns (run: AttachRun)
      ensures run == RunFrom(Outcomes(w, key, atts), 0)
    {
      ghost var outs := Outcomes(w, key, atts);
      var i := 0;
      while i < |atts|
        invariant i <= |atts|
        invariant RunFrom(outs, 0) == RunFrom(outs, i)
      {
        var attached := AttachFile(w, server, user, password, key, atts[i], w.clock(i));
        assert attached == outs[i];
        if attached.Threw? {
          return RunThrew;
        }
        if attached.error.Some? {
          return Run(i + 1, attached.error);
        }
        i := i + 1;
      }
      return Run(i, None);
    }
  }
}
