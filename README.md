# JIRA bug-tracker plug-in for Test Studio, modelled in Dafny

The plug-in lets Test Studio file bugs in JIRA. It keeps the user's password only
in base64 form (`Base64String`). It talks to the JIRA REST API (`JiraComm`): it
lists the projects the user can see, creates an issue of type Bug and uploads
the bug's attachments one multipart request at a time. It also holds the
connection settings of a Test Studio project: the dialog's view model with its
most-recently-used server list, the persisted `JiraConnectionModel`, and the
`JiraBugTracker` object the host calls.

The model is split the way the plug-in is:

- `Common` (common.dfy): null references (`Option`), bytes, and `Reply`. A
  `Reply` is either what a call returns through its result and its `out string
  error`, or `Threw` when an exception the source does not catch escapes.
- `TextEncoding` (text_encoding.dfy): `Encoding.Default` (a one-byte code
  page), UTF-8, and the decimal rendering of a number.
- `Base64` (base64_codec.dfy): `Convert.ToBase64String` and
  `Convert.FromBase64String`, as section 4 of RFC 4648 defines them.
- `Base64Strings` (base64_string.dfy): the `Base64String` wrapper and its
  `prefix` operation.
- `JiraObjects` (jira_objects.dfy): the wire records, as datatypes.
- `Transport` (jira_transport.dfy): the outside world as parameters. `World`
  bundles these:
  - the HTTP exchange, as a function from request to response;
  - the file system, as a function from path to what opening it gives: the
    bytes, a FileNotFoundException's message, or an exception that escapes;
  - the clock;
  - `HtmlEncode`;
  - the JSON serializer;
  - the JSON-to-record mappers of `JsonConvert.PopulateObject`.
- `JiraClient` (jira_comm.dfy): the Authorization header (section 2 of
  RFC 7617), the JSON GET and POST, and the multipart/form-data upload
  (section 4.2 of RFC 7578, delimiters as in section 5.1.1 of RFC 2046). The
  64 KB copy loop is an imperative method over an `array`. The file holds
  `GetProjects` and `SubmitBug` as well.
- `ConnValidation` (jira_conn_validation.dfy): the dialog's validation rule and
  value converters.
- `ConnViewModel` (jira_conn_view_model.dfy): the view model as a class with
  change-detecting setters, and the shared MRU list as a class whose
  `AddServer` runs the remove scan and the trim loop and stores the result.
- `ConnectionModel` (jira_connection_model.dfy): the persisted settings, and
  a key-value store for `SaveTo` and `LoadFrom`.
- `BugTracker` (jira_bug_tracker.dfy): the plug-in object and its lifecycle,
  plus the `int.Parse` that turns an issue key into the host's bug number. The
  number is parsed from the key's first '-' on, so "TSCB-14" gives -14.

## Model

| member | source | states |
|---|---|---|
| TextEncoding.GetBytes | Telerik.TestStudio.Jira.BugTracking/Base64String.cs:157 | one code-page byte per character, the character's code when it is below 256 |
| TextEncoding.GetString | Telerik.TestStudio.Jira.BugTracking/Base64String.cs:167 | one character per byte, with the byte's code |
| TextEncoding.GetBytesOfGetString | Telerik.TestStudio.Jira.BugTracking/Base64String.cs:167 | encoding decoded bytes gives the bytes back |
| TextEncoding.GetStringOfGetBytes | Telerik.TestStudio.Jira.BugTracking/Base64String.cs:157 | decoding encoded text gives it back exactly when the code page represents every character |
| TextEncoding.GetBytesAppend | Telerik.TestStudio.Jira.BugTracking/Base64String.cs:143 | the code page encodes a concatenation piece by piece |
| TextEncoding.Utf8Char | Telerik.TestStudio.Jira.BugTracking/JiraComm.cs:296 | a character takes 1 to 4 UTF-8 bytes, and one byte with its own code exactly when it is ASCII |
| TextEncoding.Utf8Append | Telerik.TestStudio.Jira.BugTracking/JiraComm.cs:292-296 | UTF-8 encodes a concatenation piece by piece, so a header built line by line is sent as the lines' bytes in order |
| TextEncoding.Utf8OfAscii | Telerik.TestStudio.Jira.BugTracking/JiraComm.cs:312-313 | ASCII text is one byte per character, the character's code |
| TextEncoding.NatToString | Telerik.TestStudio.Jira.BugTracking/JiraComm.cs:272 | `Ticks.ToString()` is a non-empty run of decimal digits with no leading zero |
| TextEncoding.NatToStringRoundTrip | Telerik.TestStudio.Jira.BugTracking/JiraComm.cs:272 | reading the decimal rendering back gives the number |
| Base64.ValueOf | Telerik.TestStudio.Jira.BugTracking/Base64String.cs:167 | a character has a 6-bit value only if it is in the base64 alphabet, and the alphabet maps that value back to it |
| Base64.Encode | Telerik.TestStudio.Jira.BugTracking/Base64String.cs:157 | the encoding is whole four-character quanta, and it is empty exactly when there are no bytes |
| Base64.DecodeQuantum | Telerik.TestStudio.Jira.BugTracking/Base64String.cs:167 | a four-character quantum decodes to one to three bytes |
| Base64.Decode | Telerik.TestStudio.Jira.BugTracking/Base64String.cs:167 | accepted text is whole quanta; four characters give three bytes, except the last quantum, which gives one to three |
| Base64.DecodeWellFormed | Telerik.TestStudio.Jira.BugTracking/Base64String.cs:167 | decoding succeeds exactly on well-formed text (whole quanta of alphabet characters, the pad only in the last two places, a pad in the next-to-last place followed by another) and throws on everything else |
| Base64.DecodeEncode | Telerik.TestStudio.Jira.BugTracking/Base64String.cs:155-168 | decoding what was encoded gives the original bytes back |
| Base64.EncodedLength | Telerik.TestStudio.Jira.BugTracking/Base64String.cs:157 | n bytes encode to 4 * ceil(n / 3) characters |
| Base64.EncodeAlphabet | Telerik.TestStudio.Jira.BugTracking/Base64String.cs:157 | every encoded character is in the alphabet or is the pad '=' |
| Base64Strings.Base64String.Length | Telerik.TestStudio.Jira.BugTracking/Base64String.cs:29-35 | the length of the encoded text the value converts to, not of the plain text |
| Base64Strings.EncodeTo64 | Telerik.TestStudio.Jira.BugTracking/Base64String.cs:155-158 | the stored text decodes to the plain text's code-page bytes, and its length is 4 * ceil(n / 3) |
| Base64Strings.DecodeFrom64 | Telerik.TestStudio.Jira.BugTracking/Base64String.cs:165-168 | fails exactly when the text is not well-formed base64; otherwise a text the code page represents, whose encoding gives the decoded bytes |
| Base64Strings.DecodeFrom64EncodeTo64 | Telerik.TestStudio.Jira.BugTracking/Base64String.cs:155-168 | encoding then decoding gives the plain text back whenever the code page represents it |
| Base64Strings.Default | Telerik.TestStudio.Jira.BugTracking/Base64String.cs:50-53 | the default value has `Length` 0 |
| Base64Strings.FromPlain | Telerik.TestStudio.Jira.BugTracking/Base64String.cs:59-62 | the one-argument constructor stores the encoding, which decodes to the plain text when the code page represents it (otherwise to the text with '?' for the other characters), and `Length` is 0 exactly when the plain text is empty |
| Base64Strings.FromString | Telerik.TestStudio.Jira.BugTracking/Base64String.cs:70-80 | with `encode` false the text is stored verbatim, with true it is encoded like the one-argument constructor |
| Base64Strings.Copy | Telerik.TestStudio.Jira.BugTracking/Base64String.cs:86-89 | the copy has the same encoded text |
| Base64Strings.ToText | Telerik.TestStudio.Jira.BugTracking/Base64String.cs:111-121 | conversion to string gives the encoded text, and null for null |
| Base64Strings.ToString | Telerik.TestStudio.Jira.BugTracking/Base64String.cs:131-134 | `ToString` is the same encoded text as the conversion |
| Base64Strings.Prefix | Telerik.TestStudio.Jira.BugTracking/Base64String.cs:141-144 | fails exactly when the stored text is not base64; otherwise the new value is the base64 of the prefix's bytes followed by the old value's decoded bytes |
| Base64Strings.PrefixDecodes | Telerik.TestStudio.Jira.BugTracking/Base64String.cs:141-144 | read back as text, the prefixed value is the prefix followed by the old plain text, whenever the prefix is representable |
| JiraObjects.NewJiraIssue | Telerik.TestStudio.Jira.BugTracking/JiraObjects.cs:51-57 | a new issue has its `fields`, `project` and `issuetype` records, with every string null |
| JiraObjects.NewJiraFileAttached | Telerik.TestStudio.Jira.BugTracking/JiraObjects.cs:93 | a new attachment record has an empty `author` record |
| JiraClient.BasicCarries | Telerik.TestStudio.Jira.BugTracking/JiraComm.cs:143-144 | "Basic " plus the base64 of `user:` and a secret carries exactly those credentials |
| JiraClient.EncodedAuth | Telerik.TestStudio.Jira.BugTracking/JiraComm.cs:141-145 | a header exactly when the user is non-empty and the password's encoded length is positive; a null password with a non-empty user throws, and so does an undecodable one; the header is exactly "Basic " and the base64 of `user:` followed by the decoded password |
| JiraClient.PostAuth | Telerik.TestStudio.Jira.BugTracking/JiraComm.cs:230-234 | `PostJson` tests the password's text for null or empty, so a null password sends no header instead of throwing; otherwise the same rule |
| JiraClient.PlainAuth | Telerik.TestStudio.Jira.BugTracking/JiraComm.cs:184-189 | with a plain password the header step never throws; there is a header exactly when both strings are non-empty, and it is exactly "Basic " and the base64 of the code-page bytes of `user:password` |
| JiraClient.SamePlaintextSameHeader | Telerik.TestStudio.Jira.BugTracking/JiraComm.cs:184-189 | the plain and the encoded rule give the same header for the same plain password |
| JiraClient.Receive | Telerik.TestStudio.Jira.BugTracking/JiraComm.cs:146-159 | the parsed body itself is the result and the error is null; a caught WebException gives its message as the error and a null result; other exceptions escape |
| JiraClient.GetJson | Telerik.TestStudio.Jira.BugTracking/JiraComm.cs:127-160 | result and error are never both set, and a failing header step throws |
| JiraClient.GetJsonPlain | Telerik.TestStudio.Jira.BugTracking/JiraComm.cs:170-204 | the plain-password GET throws only when the exchange itself does |
| JiraClient.GetJsonOverloadsAgree | Telerik.TestStudio.Jira.BugTracking/JiraComm.cs:127-204 | both GET overloads get the same reply for the same plain password |
| JiraClient.PostJson | Telerik.TestStudio.Jira.BugTracking/JiraComm.cs:216-259 | result and error are never both set; with a null password the header step cannot be what throws |
| JiraClient.BoundaryMarker | Telerik.TestStudio.Jira.BugTracking/JiraComm.cs:272 | the boundary is 25 dashes followed by decimal digits |
| JiraClient.BaseName | Telerik.TestStudio.Jira.BugTracking/JiraComm.cs:291 | the file name is the longest suffix of the path without a separator |
| JiraClient.MultipartBody | Telerik.TestStudio.Jira.BugTracking/JiraComm.cs:292-314 | the body is the UTF-8 header, then the file bytes unchanged, then the UTF-8 closing delimiter, and nothing else |
| JiraClient.MultipartLayout | Telerik.TestStudio.Jira.BugTracking/JiraComm.cs:292-314 | the body is the delimiter line, the Content-Disposition line, the Content-Type line, an empty line, the file bytes and the closing delimiter, in that order |
| JiraClient.ClosingBoundaryBytes | Telerik.TestStudio.Jira.BugTracking/JiraComm.cs:312-313 | the closing delimiter is sent as its characters' codes |
| JiraClient.ReadChunk | Telerik.TestStudio.Jira.BugTracking/JiraComm.cs:306 | a read fills the buffer with the next bytes of the file, as many as fit, and returns 0 only at the end |
| JiraClient.WriteBody | Telerik.TestStudio.Jira.BugTracking/JiraComm.cs:301-314 | copying through the 64 KB buffer until a read returns 0 writes exactly the header, the whole file in order, then the closing delimiter |
| JiraClient.UploadRequest | Telerik.TestStudio.Jira.BugTracking/JiraComm.cs:274-278 | a POST to `server/rest/api/2/issue/<key>/attachments` with content type multipart/form-data and the boundary |
| JiraClient.UploadReply | Telerik.TestStudio.Jira.BugTracking/JiraComm.cs:323-342 | on success only element 0 of the reply array is mapped; the error is set exactly on a WebException |
| JiraClient.AttachOutcome | Telerik.TestStudio.Jira.BugTracking/JiraComm.cs:268-342 | a missing file gives a null result and the FileNotFoundException's message as error; any other failure to open the file throws; a result comes only from a file that was read |
| JiraClient.MissingFileSendsNothing | Telerik.TestStudio.Jira.BugTracking/JiraComm.cs:300-321 | a file that cannot be opened is dealt with before anything is sent: the outcome does not depend on the server |
| JiraClient.AttachFile | Telerik.TestStudio.Jira.BugTracking/JiraComm.cs:268-343 | the upload method, with its copy loop, has the outcome `AttachOutcome` describes |
| JiraClient.BugIssue | Telerik.TestStudio.Jira.BugTracking/JiraComm.cs:86-91 | the issue has type "Bug", the project key, the title as summary and the description, and nothing else |
| JiraClient.RunInOrder | Telerik.TestStudio.Jira.BugTracking/JiraComm.cs:100-108 | uploads run in list order, and every upload before the last attempted one succeeded |
| JiraClient.RunStopsAtError | Telerik.TestStudio.Jira.BugTracking/JiraComm.cs:100-108 | a run ends right after the first upload that reports an error, with that error; a run without error attempted every upload |
| JiraClient.RunAllSucceed | Telerik.TestStudio.Jira.BugTracking/JiraComm.cs:100-110 | the final error is null exactly when every upload succeeded |
| JiraClient.RunThrows | Telerik.TestStudio.Jira.BugTracking/JiraComm.cs:100-108 | the run throws exactly when some upload throws after all earlier ones succeeded |
| JiraClient.PopulateProjects | Telerik.TestStudio.Jira.BugTracking/JiraComm.cs:58-63 | one project per array element, same count and order, unless some element cannot be populated |
| JiraClient.JiraComm.Outcomes | Telerik.TestStudio.Jira.BugTracking/JiraComm.cs:100-102 | the outcome of each attachment's upload, in list order |
| JiraClient.JiraComm.SubmitOutcome | Telerik.TestStudio.Jira.BugTracking/JiraComm.cs:83-113 | an exception from issue creation escapes, and a key is returned only when the issue was created |
| JiraClient.JiraComm.CreationFailureStops | Telerik.TestStudio.Jira.BugTracking/JiraComm.cs:93-112 | when issue creation returns null, `SubmitBug` returns null with the creation error, whatever the attachments' files |
| JiraClient.JiraComm.SubmitKeepsKey | Telerik.TestStudio.Jira.BugTracking/JiraComm.cs:95-110 | once the issue is created its key is returned, and the error is null exactly when every upload succeeded |
| JiraClient.JiraComm.ProjectsReply | Telerik.TestStudio.Jira.BugTracking/JiraComm.cs:49-68 | null when the reply is null or not an array; otherwise one project per element in order, so an empty array gives an empty list |
| JiraClient.JiraComm.GetProjects | Telerik.TestStudio.Jira.BugTracking/JiraComm.cs:49-68 | the append loop returns what `ProjectsReply` describes |
| JiraClient.JiraComm.AttachAll | Telerik.TestStudio.Jira.BugTracking/JiraComm.cs:98-108 | the attachment loop with `break` ends as `RunFrom` of the uploads' outcomes, which the run lemmas characterise |
| JiraClient.JiraComm.SubmitBug | Telerik.TestStudio.Jira.BugTracking/JiraComm.cs:83-113 | the creation steps and the attachment loop return what `SubmitOutcome` describes |
| ConnValidation.Validate | Telerik.TestStudio.Jira.BugTracking/JiraConnValidation.cs:16-22 | blank input is valid; other input is valid exactly when it is a well-formed absolute URI; a rejection carries "<value> is not a valid URL" |
| ConnValidation.BlankIgnoresUriCheck | Telerik.TestStudio.Jira.BugTracking/JiraConnValidation.cs:18-19 | for blank input the URI check is not consulted |
| ConnValidation.UriStringToBool | Telerik.TestStudio.Jira.BugTracking/JiraConnValidation.cs:32-36 | the converter is the URI check, false for null |
| ConnValidation.ConverterAgreesWithRule | Telerik.TestStudio.Jira.BugTracking/JiraConnValidation.cs:18-35 | input that enables the credentials also passes the validation rule |
| ConnValidation.SelectedProjectToBool | Telerik.TestStudio.Jira.BugTracking/JiraConnValidation.cs:54-65 | with "True" whether nothing is selected, otherwise whether something is |
| ConnValidation.SelectedProjectModesComplement | Telerik.TestStudio.Jira.BugTracking/JiraConnValidation.cs:57-64 | the "True" and "False" modes always disagree |
| ConnValidation.ConvertBack | Telerik.TestStudio.Jira.BugTracking/JiraConnValidation.cs:67-71 | `ConvertBack` always throws |
| ConnViewModel.RemoveFirst | Telerik.TestStudio.Jira.BugTracking/JiraConnViewModel.cs:210-213 | removal shortens the list by one exactly when the server is in it |
| ConnViewModel.RemoveFirstMultiset | Telerik.TestStudio.Jira.BugTracking/JiraConnViewModel.cs:210-213 | removal takes out exactly one copy of the server, if any, and keeps every other entry |
| ConnViewModel.RemoveFirstSplits | Telerik.TestStudio.Jira.BugTracking/JiraConnViewModel.cs:210-213 | removal drops the first occurrence only, and keeps the entries before and after it in order |
| ConnViewModel.Trimmed | Telerik.TestStudio.Jira.BugTracking/JiraConnViewModel.cs:215-218 | the trim loop keeps exactly the first 7 entries of a list of 8 or more, and leaves a shorter list alone |
| ConnViewModel.MoveToFront | Telerik.TestStudio.Jira.BugTracking/JiraConnViewModel.cs:208-219 | the server ends up first, with at most 8 entries; a listed server keeps the length of a list of at most 8, and a new one adds an entry to a list shorter than 8 |
| ConnViewModel.MoveToFrontShape | Telerik.TestStudio.Jira.BugTracking/JiraConnViewModel.cs:208-219 | after adding, the server is at index 0, there are at most 8 entries, and the rest is the old list without it, in order, cut to its first 7 entries when it is longer |
| ConnViewModel.MoveToFrontKeepsEntries | Telerik.TestStudio.Jira.BugTracking/JiraConnViewModel.cs:210-219 | re-adding a listed server to a list of at most 8 only reorders it |
| ConnViewModel.RemoveFirstDistinct | Telerik.TestStudio.Jira.BugTracking/JiraConnViewModel.cs:210-213 | in a list without duplicates, removal takes the server out completely |
| ConnViewModel.MoveToFrontDistinct | Telerik.TestStudio.Jira.BugTracking/JiraConnViewModel.cs:208-219 | a list without duplicates stays without duplicates |
| ConnViewModel.FindFirst | Telerik.TestStudio.Jira.BugTracking/JiraConnViewModel.cs:210-212 | the scan stops at the index of the server's first occurrence |
| ConnViewModel.TrimToFit | Telerik.TestStudio.Jira.BugTracking/JiraConnViewModel.cs:215-218 | repeated `RemoveAt(7)` leaves exactly the `Trimmed` list: its first 7 entries when it held 8 or more, otherwise all of it |
| ConnViewModel.MruServers.AddServer | Telerik.TestStudio.Jira.BugTracking/JiraConnViewModel.cs:208-219 | `Remove`, the `RemoveAt(7)` loop and `Insert(0)` leave the list `MoveToFront` describes |
| ConnViewModel.JiraConnViewModel.constructor | Telerik.TestStudio.Jira.BugTracking/JiraConnViewModel.cs:16-23 | a new view model has every field null or false |
| ConnViewModel.JiraConnViewModel.CanSave | Telerik.TestStudio.Jira.BugTracking/JiraConnViewModel.cs:189-195 | the view model can save exactly when a project is selected |
| ConnViewModel.JiraConnViewModel.SetProjectsList | Telerik.TestStudio.Jira.BugTracking/JiraConnViewModel.cs:117-124 | only the project list changes |
| ConnViewModel.JiraConnViewModel.SetServerName | Telerik.TestStudio.Jira.BugTracking/JiraConnViewModel.cs:38-46 | a different server name is stored and clears the project list; the current one changes nothing |
| ConnViewModel.JiraConnViewModel.SetUser | Telerik.TestStudio.Jira.BugTracking/JiraConnViewModel.cs:77-85 | a different user is stored and clears the project list; the current one changes nothing |
| ConnViewModel.JiraConnViewModel.SetPassword | Telerik.TestStudio.Jira.BugTracking/JiraConnViewModel.cs:97-105 | a different password is stored and clears the project list; the current one changes nothing |
| ConnViewModel.JiraConnViewModel.SetSelectedProject | Telerik.TestStudio.Jira.BugTracking/JiraConnViewModel.cs:136-143 | only the selected project changes |
| ConnViewModel.JiraConnViewModel.SetIsBusy | Telerik.TestStudio.Jira.BugTracking/JiraConnViewModel.cs:156-163 | only the busy flag changes |
| ConnViewModel.JiraConnViewModel.SetErrorMessage | Telerik.TestStudio.Jira.BugTracking/JiraConnViewModel.cs:175-182 | only the error message changes |
| ConnViewModel.JiraConnViewModel.AddServer | Telerik.TestStudio.Jira.BugTracking/JiraConnViewModel.cs:208-222 | the shared MRU list becomes `MoveToFront` of the old one |
| ConnViewModel.CanSaveDrivesDefaultButton | Telerik.TestStudio.Jira.BugTracking/JiraConnValidation.cs:57-64 | the Done button's default state ("False" mode) is `CanSave`, the Get Projects button's ("True" mode) its opposite |
| ConnectionModel.RootName | Telerik.TestStudio.Jira.BugTracking/JiraConnectionModel.cs:52-58 | the store node name is always "JiraConnectionModel" |
| ConnectionModel.TextAt | Telerik.TestStudio.Jira.BugTracking/JiraConnectionModel.cs:128-129 | reading a string key gives the text stored under it |
| ConnectionModel.PasswordAt | Telerik.TestStudio.Jira.BugTracking/JiraConnectionModel.cs:130 | reading the password key gives the password stored under it |
| ConnectionModel.ProjectAt | Telerik.TestStudio.Jira.BugTracking/JiraConnectionModel.cs:131 | reading the project key gives the project stored under it |
| ConnectionModel.LoadSaved | Telerik.TestStudio.Jira.BugTracking/JiraConnectionModel.cs:126-145 | loading what was saved restores all four settings, whatever else the store holds |
| ConnectionModel.SavedKeepsOtherKeys | Telerik.TestStudio.Jira.BugTracking/JiraConnectionModel.cs:139-145 | saving writes the keys ServerName, User, Password and Project and no other |
| ConnectionModel.XmlStore.AddValue | Telerik.TestStudio.Jira.BugTracking/JiraConnectionModel.cs:141-144 | the value is stored under its key |
| ConnectionModel.JiraConnectionModel.constructor | Telerik.TestStudio.Jira.BugTracking/JiraConnectionModel.cs:27-30 | a new model has every setting null |
| ConnectionModel.JiraConnectionModel.Copy | Telerik.TestStudio.Jira.BugTracking/JiraConnectionModel.cs:36-42 | the copy has the same four settings |
| ConnectionModel.JiraConnectionModel.ProjectName | Telerik.TestStudio.Jira.BugTracking/JiraConnectionModel.cs:100-110 | the selected project's name, or the empty string when none is selected |
| ConnectionModel.JiraConnectionModel.SetProjectName | Telerik.TestStudio.Jira.BugTracking/JiraConnectionModel.cs:111-114 | setting `ProjectName` always throws |
| ConnectionModel.JiraConnectionModel.SaveTo | Telerik.TestStudio.Jira.BugTracking/JiraConnectionModel.cs:139-145 | the store gets the four settings under their keys |
| ConnectionModel.JiraConnectionModel.LoadFrom | Telerik.TestStudio.Jira.BugTracking/JiraConnectionModel.cs:126-132 | the four settings are read from the same keys |
| ConnectionModel.SaveThenLoad | Telerik.TestStudio.Jira.BugTracking/JiraConnectionModel.cs:126-145 | `SaveTo` on one model then `LoadFrom` on another copies the settings over |
| BugTracker.TrimStart | Telerik.TestStudio.Jira.BugTracking/Telerik.TestStudio.Jira.BugTracking.cs:227 | the result is a suffix whose dropped part is all white space and which does not start with white space |
| BugTracker.TrimEnd | Telerik.TestStudio.Jira.BugTracking/Telerik.TestStudio.Jira.BugTracking.cs:227 | the result is a prefix whose dropped part is all white space and which does not end with white space |
| BugTracker.ParseInt32 | Telerik.TestStudio.Jira.BugTracking/Telerik.TestStudio.Jira.BugTracking.cs:227 | a parsed number is in the 32-bit range, and parsing succeeds only when the trimmed text is an optional sign followed by at least one digit and nothing else; `ParseInt32Reads` gives the value |
| BugTracker.TrimStartSkips | Telerik.TestStudio.Jira.BugTracking/Telerik.TestStudio.Jira.BugTracking.cs:227 | leading white space is dropped up to the first other character |
| BugTracker.TrimEndSkips | Telerik.TestStudio.Jira.BugTracking/Telerik.TestStudio.Jira.BugTracking.cs:227 | trailing white space is dropped back to the last other character |
| BugTracker.ParseInt32Reads | Telerik.TestStudio.Jira.BugTracking/Telerik.TestStudio.Jira.BugTracking.cs:227 | white space, an optional sign, digits and white space parse to the signed value when it fits in 32 bits, and fail otherwise |
| BugTracker.ParseInt32NeedsDigit | Telerik.TestStudio.Jira.BugTracking/Telerik.TestStudio.Jira.BugTracking.cs:227 | text without a decimal digit never parses |
| BugTracker.ParseKey | Telerik.TestStudio.Jira.BugTracking/Telerik.TestStudio.Jira.BugTracking.cs:227 | a null key or one without '-' throws; a parsed number is never positive, because the '-' is kept |
| BugTracker.KeyFromFirstDash | Telerik.TestStudio.Jira.BugTracking/Telerik.TestStudio.Jira.BugTracking.cs:227 | the key is parsed from its first '-' on, whatever follows |
| BugTracker.ParseNegative | Telerik.TestStudio.Jira.BugTracking/Telerik.TestStudio.Jira.BugTracking.cs:227 | '-' followed by decimal digits parses to their value negated, down to -2^31 |
| BugTracker.DecimalNegative | Telerik.TestStudio.Jira.BugTracking/Telerik.TestStudio.Jira.BugTracking.cs:227 | '-' followed by an issue number written in decimal parses back to that number negated |
| BugTracker.IssueKeyParses | Telerik.TestStudio.Jira.BugTracking/Telerik.TestStudio.Jira.BugTracking.cs:225-227 | a key `<project>-<n>` gives -n |
| BugTracker.ExampleKey | Telerik.TestStudio.Jira.BugTracking/Telerik.TestStudio.Jira.BugTracking.cs:225-227 | "TSCB-14" gives -14 |
| BugTracker.AsProjectsList | Telerik.TestStudio.Jira.BugTracking/Telerik.TestStudio.Jira.BugTracking.cs:373 | the fetched list becomes the view model's list, null for null, element by element |
| BugTracker.JiraBugTracker.constructor | Telerik.TestStudio.Jira.BugTracking/Telerik.TestStudio.Jira.BugTracking.cs:62-64 | a new plug-in has no view model, no active connection and no settings control |
| BugTracker.JiraBugTracker.JiraSettings | Telerik.TestStudio.Jira.BugTracking/Telerik.TestStudio.Jira.BugTracking.cs:73-83 | the view model is created on first use and then kept |
| BugTracker.JiraBugTracker.IsConfigured | Telerik.TestStudio.Jira.BugTracking/Telerik.TestStudio.Jira.BugTracking.cs:124-130 | configured exactly when the view model can save, which a view model not yet created cannot |
| BugTracker.JiraBugTracker.CanSave | Telerik.TestStudio.Jira.BugTracking/Telerik.TestStudio.Jira.BugTracking.cs:250-256 | the same as `IsConfigured` |
| BugTracker.JiraBugTracker.CanClose | Telerik.TestStudio.Jira.BugTracking/Telerik.TestStudio.Jira.BugTracking.cs:238-244 | the dialog can close exactly when the view model is not busy |
| BugTracker.JiraBugTracker.ApplyPersistableSettings | Telerik.TestStudio.Jira.BugTracking/Telerik.TestStudio.Jira.BugTracking.cs:165-182 | false, with only the active connection changed to null, for other settings; otherwise true and the view model holds the settings, an empty error, a one-project list and that project |
| BugTracker.JiraBugTracker.GetPersistableSettings | Telerik.TestStudio.Jira.BugTracking/Telerik.TestStudio.Jira.BugTracking.cs:192-195 | the active connection |
| BugTracker.JiraBugTracker.ResetSettings | Telerik.TestStudio.Jira.BugTracking/Telerik.TestStudio.Jira.BugTracking.cs:203-208 | view model, active connection and control are dropped, so the plug-in is not configured |
| BugTracker.JiraBugTracker.OnSave | Telerik.TestStudio.Jira.BugTracking/Telerik.TestStudio.Jira.BugTracking.cs:272-279 | a new active connection with the view model's four settings; the view model is unchanged |
| BugTracker.JiraBugTracker.SubmitBug | Telerik.TestStudio.Jira.BugTracking/Telerik.TestStudio.Jira.BugTracking.cs:217-228 | submits with the active settings, records the client's error, and returns `ParseKey` of the key; throws without an active connection or project |
| BugTracker.JiraBugTracker.WorkerMethod | Telerik.TestStudio.Jira.BugTracking/Telerik.TestStudio.Jira.BugTracking.cs:365-378 | the view model shows the fetch's error and list, and the server moves to the front of the MRU list only when there is no error |

## Left out

- The HTTP exchange is a parameter, and so are the user agent, the proxy, the protocol version, KeepAlive and the `X-Atlassian-Token` header. A response is one of four outcomes: a parsed JSON body, a WebException from `GetResponse`, a WebException from `GetRequestStream`, or any other exception.
- `WebRequest.Create` on a malformed URL throws before anything else happens. The model assumes the URL is accepted, so for `AttachFile` it still reports a missing file.
- Newtonsoft JSON is not modelled. Parsing is part of the exchange. `PopulateObject` is a mapper that may fail, meaning it throws. `SerializeObject` is an uninterpreted function.
- `DateTime.Now.Ticks` is a clock parameter: attachment i of a bug gets the clock's i-th reading. `HttpUtility.HtmlEncode` is uninterpreted. `FileInfo.Name` is the text after the last '\\', '/' or ':'.
- The file system is a function from path to what opening it gives: the contents, a FileNotFoundException with its message, or any other exception. A missing directory, a denied access and an empty or illegal path all fall in the last case, which escapes `AttachFile`. The exception types are not told apart, and neither is `new FileInfo` throwing before the stream is opened. A read error after opening and the undisposed `FileStream` are not modelled.
- `Encoding.Default` is modelled as Latin-1: characters below 256 map to their code and others to '?'. The machine's real code page is not modelled.
- Base64.Decode: rejects the white space that `Convert.FromBase64String` skips, and accepts non-zero unused bits in the last quantum.
- Base64Strings.FromPlain: takes a non-null string. Encoding null throws in the source, and a `Base64String` holding null text is not modelled.
- ConnViewModel.JiraConnViewModel.SetPassword: compares passwords by value, while the source compares references. An equal but distinct `Base64String` therefore clears the project list in the source and not in the model. `SelectedProject` and `ProjectsList` are compared by reference too, but there this does not change the resulting state.
- `PropertyChanged` notifications, WPF bindings, `SettingsControl`, `SettingsControlLoaded`, the UI event plumbing and the empty `OnClose` are left out.
- `settingsUiControl_OnGetProjects` runs `WorkerMethod` on a `BackgroundWorker` and sets `IsBusy` around it. Only the sequential `WorkerMethod` body is modelled.
- `JiraTrackerSettings.Default.Save()` persistence is left out.
- ConnViewModel.MruServers.AddServer: removes and trims a copy of the list, then stores the result once. The intermediate states of the shared `StringCollection` are not modelled.
- `XmlStoreNode` is not part of this model. The store is a map. A key that is missing, or that holds a value of another kind, is read as null. Adding a key that is already present overwrites it.
- The `JiraSettings` setter is used only to set null, in `ResetSettings`. Its event subscription is not modelled.
- BugTracker.ParseInt32: the current culture's sign and white-space rules are taken as "-", "+", space and '\t' to '\r'.
- BugTracker.JiraBugTracker.IsConfigured, BugTracker.JiraBugTracker.CanSave and BugTracker.JiraBugTracker.CanClose: read the view model without creating it. The source's getters go through `JiraSettings`, which creates and subscribes to the view model on first use. The model answers as that fresh view model would, but does not store it.
- `IBug.Attachments`, an attachment and its `FileName` are never null here. In the source a null list, element or file name throws a NullReferenceException in `SubmitBug` or `AttachFile`, and the model cannot express those inputs.
- BugTracker.JiraBugTracker.SubmitBug: returns None where the source throws, so the host never receives a number in that case.
- The `created` member of an attachment reply is a tick count. No `DateTime` parsing is modelled.
- WpfApplication1/MainWindow.xaml.cs, a manual test window, is not part of this model.
