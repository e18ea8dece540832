# wxapi session model

A Dafny model of the local bookkeeping in the web-WeChat client library
`wxapi`. It has two parts:

- **The text-assignment parser** (`ParseJsResult`, `JsResult.Get`,
  `getDeviceID` in wechat/func.go). A login-server reply such as
  `window.code=200;window.redirect_uri="…";` is split at `;`. Each fragment
  (one `;`-separated piece) is trimmed of line breaks and cut at its first
  `=`. Key and value are then trimmed, and the pairs are stored in a string
  map, with later pairs overwriting earlier ones.
- **The client session** (the `Wechat` object of wechat/wechat.go). It is a
  Dafny class with the fields the session updates:
  - the uuid, the QR code address and the login redirect;
  - the credentials: `BaseRequest`, whose pass ticket is the login gate;
  - the init reply's status block;
  - the sync key string and the chat set;
  - the conversation list, the member index and the three contact buckets.

  Every server reply enters as a decoded value, `Reply<T>`: either the body,
  or the reason the request or its decoding failed. The current time and the
  random numbers are parameters. Each method reproduces the deterministic
  steps of its Go counterpart:
  - the login gate;
  - the code checks;
  - the sync key serialisation;
  - the member classification and index;
  - the chat-set reconciliation;
  - the sync-check pattern;
  - the upload form;
  - the message envelopes.

Modules:

| module | file | contents |
|---|---|---|
| `Wrappers` | wrappers.dfy | `Option`, `Result`, `Outcome` |
| `Text` | text.dfy | Go's `strings.Index`, `strings.Split`, `strings.Join`, `strings.Trim`, `strconv.Itoa` and their inverses |
| `JsResult`, `JsResultExample` | jsresult.dfy | the parser as a fold and as the source's loop; the parser test's reply |
| `Types` | wechattypes.dfy | the records and constants of wechat/var.go, reduced to the fields the logic reads |
| `SyncKey` | synckey.dfy | the `key_val\|key_val…` string |
| `Contacts` | contacts.dfy | classification, the member index, chat-set reconciliation |
| `SyncCheck` | synccheck.dfy | the sync-check reply pattern |
| `Media` | media.dfy | file name, suffix, upload form, client message id |
| `LoginFlow` | login.dfy | the uuid reply, the login poll, the wait, the end of a send |
| `Session` | session.dfy | class `Wechat` |

Six behaviours of the code are easy to miss. The model keeps each of them
as the code has it:

- **The sync check has no login gate.** `SyncCheck` (wechat/wechat.go:574-618)
  never calls `IsLogin`, unlike `GetContactList`, `SendMsg`, `SendMedia` and
  `UploadMedia` (wechat/wechat.go:163, 246, 291, 343), yet it sends the
  credentials.
  Its query sends the sync key string as `deviceid`.
- **A media message has type 1.** `SendMedia` posts an envelope of type 1,
  the text type (wechat/wechat.go:311).
- **The send calls read the init reply's status.** `GetContactList`,
  `SendMsg` and `SendMedia` check the status block of the init reply kept in
  `w.Response` (wechat/wechat.go:192, 282, 333). The reply at hand is never
  checked. The status is held by reference (`*BaseResponse`) and may be nil, so the model requires it to be present
  wherever the code dereferences it.
- **`webwxinit` never reports a bad status.** It returns no error even when
  the init reply's status is non-zero (wechat/wechat.go:155-158).
- **`fetchForLogin` never returns an error.** Its request error is assigned to
  a local variable, not to the named result. A failed poll therefore yields
  an empty redirect and no error (wechat/wechat.go:550-571).
- **The wait is modelled in sequence.** In `waitForLogin` the goroutine that
  polls races with the loop that reads `redirectedURL`. The model completes
  each tick's poll before that tick's check (`LoginFlow.AfterPolls`).

## Model

| member | source | states |
|---|---|---|
| JsResult.Entry | wechat/func.go:34-40 | definition: the pair one `;`-separated fragment contributes, or none when it has no `=`; the fragment is trimmed of line breaks and cut at its first `=`, the key trimmed of spaces, the value of spaces and then of quotes (properties: `EntryShape`, `AssignmentEntry`) |
| JsResult.Fold | wechat/func.go:33-41 | definition: the map built by storing the entries in order, later ones overwriting earlier ones (properties: `FoldKeys`, `FoldLast`, `FoldSize`, `FoldShape`) |
| JsResult.Parsed | wechat/func.go:30-44 | definition: the map `ParseJsResult` returns, the fold of the entries of the reply split at `;` (properties: `ParsedLookup`, `ParsedAbsent`, `ParsedShape`) |
| JsResult.ParseJsResult | wechat/func.go:30-44 | the loop over the `;`-split fragments yields `Parsed(result)`, the map built by inserting each fragment's entry in order |
| JsResult.Get | wechat/func.go:25-27 | the stored value for a present key, `""` for an absent one |
| JsResult.EntryShape | wechat/func.go:34-40 | a fragment contributes a pair iff it contains `=`; the key then has no `=` and no surrounding space, and the value neither starts nor ends with `"` |
| JsResult.FoldShape | wechat/func.go:33-41 | every key of the folded map has no `=` and no surrounding space, and no value starts or ends with `"` |
| JsResult.FoldSize | wechat/func.go:33-41 | the map has at most as many keys as there are fragments |
| JsResult.FoldLast | wechat/func.go:41 | last write wins: a key assigned by fragment `i` and by no later fragment maps to the value of fragment `i` |
| JsResult.FoldKeys | wechat/func.go:33-41 | a key is present iff some fragment assigns it |
| JsResult.ParsedLookup | wechat/func.go:32-42 | in the parsed reply, `Get` of a key gives the value of the last fragment that assigns it |
| JsResult.ParsedAbsent | wechat/func.go:25-38 | a key no fragment assigns is absent, and `Get` gives `""` |
| JsResult.EmptyReply | wechat/func.go:31-33 | the empty reply parses to the empty map |
| JsResult.ParsedShape | wechat/func.go:32-41 | in any parsed reply, every key and value is well formed, and there are at most as many keys as `;`-separated fragments |
| JsResult.EntryIgnoresLineBreaks | wechat/func.go:34 | newlines, tabs and carriage returns around a fragment do not change its entry, so a key on the line after `;` is found |
| JsResult.AssignmentRoundTrip | wechat/func.go:35-41 | `k="v"` with a well-formed key and value parses back to exactly `v` under `k`; `v` may contain `=` |
| JsResult.AssignmentEntry | wechat/func.go:35-40 | the fragment `k="v"` has the entry `(k, v)` |
| JsResult.PlainAssignmentEntry | wechat/func.go:35-40 | an unquoted `k=v`, with no space or quote around `v`, has the entry `(k, v)` |
| JsResult.TwoAssignmentsParse | wechat/func.go:30-44 | a reply `k1=v1;` followed by line breaks and `k2="v2";` maps `k1` to `v1` and `k2` to `v2` |
| JsResult.DeviceId | wechat/func.go:46-50 | the device id is `e` followed by decimal digits |
| JsResult.DeviceIdDecodes | wechat/func.go:48-49 | for a number below 10^15, the id is at most 16 characters long and its digits read back as the number |
| JsResultExample.ExampleParses | wechat/func_test.go:8-16 | the test reply maps `window.code` to `200` and `window.redirect_uri` to the full redirect URL, exactly |
| SyncKey.SyncKeyString | wechat/wechat.go:138-147 | definition: the `key_val` segments of the pairs joined with `\|` (properties: `SyncKeySegments`, `SyncKeyEmpty`, `SyncKeyRoundTrip`) |
| SyncKey.BuildSyncKey | wechat/wechat.go:138-147 | the loop (first pair sets the string, later pairs append `\|key_val`) yields `SyncKeyString(list)`, rebuilt from `""` |
| SyncKey.SyncKeySegments | wechat/wechat.go:138-147 | for a non-empty list, splitting the string at `\|` gives one `key_val` segment per pair, in list order |
| SyncKey.SyncKeyEmpty | wechat/wechat.go:138-147 | the string is empty iff the list is |
| SyncKey.SyncKeyRoundTrip | wechat/wechat.go:138-147 | decoding the string gives back the list of pairs |
| Contacts.KindOf | wechat/wechat.go:199-206 | definition: the bucket the member loop chooses, tested in the source's order: `@@` prefix, then the verify bit, then one `@`, else unlisted; it needs two characters of the name, as `UserName[:2]` does (meaning: `KindMeaning`) |
| Contacts.OfKind | wechat/wechat.go:197-207 | definition: the members of one kind, in list order, i.e. what the loop appends to that bucket (properties: `OfKindExact`, `Partition`) |
| Contacts.Indexed | wechat/wechat.go:197-198 | definition: the member index after storing each member under its name in list order (properties: `IndexedLookup`, `IndexedKeyed`) |
| Contacts.Hydrate | wechat/wechat.go:223-228 | definition: the conversation entry built from a member: name, nick name and signature, other fields zero |
| Contacts.Reconciled | wechat/wechat.go:213-234 | definition: the conversation list after the chat-set loop: each name not yet listed and known to the index is appended, hydrated (properties: `ReconciledPrefix`, `ReconciledCovers`, `ReconciledAppends`) |
| Contacts.VerifyBitIsBit3 | wechat/wechat.go:201 | the flag test `VerifyFlag&8` is bit 3 of the two's-complement value, i.e. `flag mod 16 >= 8`, negative flags included |
| Contacts.KindMeaning | wechat/wechat.go:199-206 | group iff the name starts with `@@`; public iff not a group and bit 3 is set; personal iff one leading `@` and no bit; otherwise unlisted |
| Contacts.OfKindExact | wechat/wechat.go:197-207 | each bucket holds exactly the members of its kind, each as often as in the reply |
| Contacts.Partition | wechat/wechat.go:197-207 | the group, public, personal and unlisted members together are the reply's members as a multiset, so the buckets grow by at most the reply's length |
| Contacts.IndexedLookup | wechat/wechat.go:198 | after indexing, a name is present iff it was before or some member has it; its entry is the last member with that name, or the old entry |
| Contacts.IndexedKeyed | wechat/wechat.go:198 | indexing keeps every entry stored under its own member's name |
| Contacts.ReconciledPrefix | wechat/wechat.go:213-234 | reconciliation only appends, at most one user per chat-set name |
| Contacts.ReconciledCovers | wechat/wechat.go:213-234 | afterwards every chat-set name that the index knows is listed |
| Contacts.ReconciledAppends | wechat/wechat.go:213-234 | each appended user is the index entry of a chat-set name (name, nick name, signature), and no user before it has that name, so nothing is appended twice |
| Session.BucketGrows | wechat/wechat.go:197-207 | after classification every bucket member still has its kind and is in the index |
| Session.BucketsReloaded | wechat/wechat.go:195-211 | loading a member list and then storing the user under its own name keeps the index keyed by name, and every member of each grown bucket has its kind and is in the index |
| SyncCheck.ParseSyncCheck | wechat/wechat.go:605-617 | definition: the leftmost match of the sync-check pattern, its two groups read as decimal numbers; no match is the pattern error (properties: `SyncCheckLeftmost`, `SyncCheckRoundTrip`, `MatchAtExact`) |
| SyncCheck.DigitRun | wechat/wechat.go:606 | the digit run at a position is all digits and maximal |
| SyncCheck.MatchAt | wechat/wechat.go:606-607 | a match at a position has two non-empty digit groups |
| SyncCheck.MatchAtExact | wechat/wechat.go:606-607 | the pattern matches at a position with groups `d1` and `d2` iff both are non-empty digit strings and the text `window`, one character other than a newline, `synccheck={retcode:"`, `d1`, `",selector:"`, `d2`, `"}` starts there; each group is then the whole digit run at its place |
| SyncCheck.MatchWithExact | wechat/wechat.go:606 | for any pattern `h.m(\d+)sep(\d+)t` whose `sep` and `t` do not start with a digit: a match with groups `d1` and `d2` iff these are non-empty digit strings found, with the pieces, in their places |
| SyncCheck.MatchWithFound | wechat/wechat.go:606 | the groups of a match are found in their places, each being the whole digit run there |
| SyncCheck.MatchWithOccurs | wechat/wechat.go:606 | non-empty digit strings found with the pattern's pieces in their places are the groups of a match |
| SyncCheck.OccursText | wechat/wechat.go:606 | finding the pieces one after the other is finding their concatenation, with the wildcard character in its place |
| SyncCheck.FindFrom | wechat/wechat.go:607 | the position found is a match, with no match before it; when none is found, no position matches |
| SyncCheck.SyncCheckLeftmost | wechat/wechat.go:606-616 | the reply parses iff the pattern occurs, and then the two numbers are the decimal values of the leftmost match's groups |
| SyncCheck.SyncCheckRoundTrip | wechat/wechat.go:606-612 | the reply `window.synccheck={retcode:"R",selector:"S"}` parses to return code R and selector S |
| Media.BaseName | wechat/wechat.go:358 | the file name is the longest suffix of the path without `/` |
| Media.BaseNameOfJoin | wechat/wechat.go:358 | `dir/file` gives back `file` |
| Media.AsWrittenExtension | wechat/wechat.go:367-371 | definition: `fInfo[1]` of the name split at dots, as written; defined only when there is a second part, since the index panics otherwise (shown by `PlainNamePanics`) |
| Media.Extension | wechat/wechat.go:367-371 | definition, corrected: the part after the dot when the name splits into exactly two parts, else the no-suffix error (properties: `ExtensionSound`, `ExtensionOf`) |
| Media.UndottedNameReachesIndex | wechat/wechat.go:367-371 | a name without a dot splits into one part, so `fInfo[1]` is out of range |
| Media.PlainNamePanics | wechat/wechat.go:367-371 | the name `photo` fails the as-written extension's precondition |
| Media.ExtensionOf | wechat/wechat.go:367-371 | `stem.ext` with no other dot has the extension `ext` |
| Media.ExtensionSound | wechat/wechat.go:367-396 | an extension is found only after the single dot of the name; a name without a dot gives the no-suffix error |
| Media.MimeType | wechat/wechat.go:377-382 | definition: the `type` field, `image/gif` for the extension `gif` and `image/jpeg` otherwise (property: `GifIsDocument`) |
| Media.MediaType | wechat/wechat.go:388-392 | definition: the `mediatype` field, `doc` for `gif` and `pic` otherwise (property: `GifIsDocument`) |
| Media.UploadForm | wechat/wechat.go:374-392 | the six form fields in the order the code writes them: id, name, type, the fixed date, the decimal size and the media type (property: `UploadFormFields`) |
| Media.GifIsDocument | wechat/wechat.go:377-392 | the type is `image/gif` iff the extension is `gif`, else `image/jpeg`; the media type is `doc` iff `gif`, else `pic` |
| Media.UploadFormFields | wechat/wechat.go:374-386 | the form names the file and carries its size as decimal digits that read back as the size |
| Media.ClientMsgId | wechat/wechat.go:256 | definition: the decimal time, a `0`, and characters 3 to 5 of the random number's decimal form; defined only when that form has at least six characters, since the slice panics otherwise (properties: `ClientMsgIdShape`, `ClientMsgIdDefined`) |
| Media.ClientMsgIdShape | wechat/wechat.go:256 | the client id is the time, a `0` and the fourth to sixth digits of the random number |
| Media.ClientMsgIdDefined | wechat/wechat.go:256 | every random number from 100000 on has the six digits the slice needs |
| LoginFlow.UUIDReply | wechat/wechat.go:447-457 | the uuid reply fails only with the transport error or the not-found error |
| LoginFlow.UUIDFromReply | wechat/wechat.go:452-457 | a reply with code `200` and a quoted uuid yields that uuid |
| LoginFlow.FetchForLogin | wechat/wechat.go:550-571 | definition: the `window.redirect_uri` of a poll reply whose `window.code` is `200`, else `""`; a failed request also gives `""` and no error (properties: `FetchForLoginRedirect`, `FetchForLoginExample`) |
| LoginFlow.FetchForLoginRedirect | wechat/wechat.go:563-568 | a poll reply with code `200` yields its redirect |
| LoginFlow.FetchForLoginExample | wechat/wechat.go:563-568 | the parser test's reply yields the test's redirect |
| LoginFlow.AfterPolls | wechat/wechat.go:529-546 | definition: the redirect and the end of the wait after a sequence of ticker ticks (each storing its poll's redirect and returning on a non-empty one) and context ends (the timeout error) (properties: `AfterPollsOutcome`, `AfterPollsFirstRedirect`) |
| LoginFlow.AfterPollsOutcome | wechat/wechat.go:529-546 | the wait succeeds only with a redirect, fails only by timing out, and is still waiting iff every event was a tick without a redirect |
| LoginFlow.AfterPollsFirstRedirect | wechat/wechat.go:529-546 | the first tick whose poll brings a redirect, with no timeout before it, ends the wait with that redirect |
| LoginFlow.SendOutcome | wechat/wechat.go:282-284 | a send succeeds iff its reply arrived and the kept status is `StatusSuccess` |
| Session.Wechat.IsLogin | wechat/wechat.go:106-111 | definition: the login gate, the session holds a non-empty pass ticket; `GetContactList`, `SendMsg`, `SendMedia` and `UploadMedia` state their not-logged-in outcome by it |
| Session.Wechat.constructor | wechat/wechat.go:27-38 | a new session has a device id `e…` from the random number, empty credentials (so it is not logged in), no status, and empty lists and index |
| Session.Wechat.FetchUUID | wechat/wechat.go:437-460 | the uuid is stored only from a reply with code `200`; otherwise the error is returned and the uuid is unchanged |
| Session.Wechat.FetchQr | wechat/wechat.go:463-467 | it fails iff the uuid is empty; otherwise the QR address is `QrURL` plus the uuid |
| Session.Wechat.GetQr | wechat/wechat.go:46-58 | it succeeds iff the reply yields a non-empty uuid, and then returns `QrURL` plus the uuid; on failure it returns `""` and the error |
| Session.Wechat.WaitForLogin | wechat/wechat.go:514-548 | without a uuid it returns at once with no error; otherwise the redirect and the outcome are those of `AfterPolls` |
| Session.Wechat.Authenticate | wechat/wechat.go:80-103 | after a successful wait with an empty redirect nothing more happens; with a redirect, the credentials become the decoded reply stamped with the session's device id; the session invariant is kept |
| Session.Wechat.WebWxInit | wechat/wechat.go:114-159 | without a pass ticket nothing changes; otherwise the reply's contacts are appended in order, the chat set is the reply's split at `,`, and the user and the sync key string are rebuilt |
| Session.Wechat.Login | wechat/wechat.go:61-77 | the redirect, the credentials and a failed wait or credential fetch are those of `Authenticate`; once that passes: not logged in, init untouched and pass; init reply failed, that error and init untouched; otherwise the init reply's contacts appended, chat set split, user, sync key string and status block stored; the session invariant is kept |
| Session.Wechat.GetContactList | wechat/wechat.go:162-242 | not logged in, transport error or bad status: that error and no change; otherwise buckets appended by kind, index updated (own user last, with name and nick name only), chat set reconciled; the result holds the group and personal buckets |
| Session.Wechat.Refresh | wechat/wechat.go:195-241 | the success path stores the reply's members and count, appends each bucket's members in order, indexes every member and then the session's own user, reconciles the chat set, and keeps the session invariant |
| Session.Wechat.ClassifyMembers | wechat/wechat.go:197-207 | the member loop appends each bucket's members in order and indexes every member |
| Session.Wechat.ClassifyMember | wechat/wechat.go:198-206 | one member is indexed and appended to the bucket of its kind, if any |
| Session.Wechat.ReconcileChatSet | wechat/wechat.go:213-234 | the nested loop yields `Reconciled(old list, chat set, index)` |
| Session.Wechat.FindUser | wechat/wechat.go:215-221 | the search finds a name iff some user of the list has it |
| Session.Wechat.SendMsg | wechat/wechat.go:245-287 | not logged in: that error and nothing sent; otherwise a type-1 envelope from the session's user, with one client id as both ids, and the outcome of the send |
| Session.Wechat.UploadMedia | wechat/wechat.go:341-434 | the gate, the file error, and the no-suffix error each end with no form; the suffix is read with the corrected `Media.Extension`, so a name without a dot gives the no-suffix error where the code as written panics (see Findings); otherwise the form of the file's name, type and size, then the media id from the reply or the transport error |
| Session.Wechat.SendMedia | wechat/wechat.go:290-338 | nothing is sent when the session is not logged in (the login error), the file fails to open (its error), the name has no single suffix (the no-suffix error) or the upload fails (its transport error); otherwise a type-1 envelope with empty content and the uploaded media id, and the outcome of the send |
| Session.Wechat.SyncCheckQuery | wechat/wechat.go:576-583 | definition: the query parameters `r` and `_` (the time), `sid`, `uin` and `sky` (the credentials) and `deviceid` (the sync key string) |
| Session.Wechat.SyncCheck | wechat/wechat.go:574-618 | no login gate; the query carries the time, the credentials and the sync key string; the result is the transport error or the parsed reply |

## Left out

- Network: every HTTP request, the cookie jar, the TLS setup and `getHTTPClient`. The requests go through the session's `Client` field (wechat/wechat.go:89, 120, 175, 269, 320, 445, 552, 591), and the upload through `http.DefaultClient` (wechat/wechat.go:423); the model has no client field. Replies are inputs.
- Bytes and characters: Go's `len`, `strings.Index` and slicing count bytes (`member.UserName[:2]` at wechat/wechat.go:199, `strings.Index` at wechat/func.go:35, `strconv.Itoa(rand.Int())[3:6]` at wechat/wechat.go:256), while the model's strings are sequences of characters. The two agree only on ASCII text, so names and replies are taken to be ASCII.
- Encoding and decoding: JSON, XML and multipart encoding and decoding are not modelled. A decoded reply replaces the stored record. Go's decoders merge into the existing value instead; the model keeps that merge only for the init reply's status block.
- `waitForLogin`'s ticker, goroutine and context are modelled only as a sequence of events (`LoginFlow.Poll`). The data race between the polling goroutine and the loop is not modelled.
- Request URLs and bodies, except the sync-check query: the `pass_ticket`, `skey` and `r` parameters and the JSON of the requests are network plumbing.
- The `uploadmediarequest` and `webwx_data_ticket` form fields and the file content part of the upload. `io.Copy` and `os.Stat` failures are the single file error input.
- Logging, `fmt.Println`, `GetRootPath`, `setBaseURL` (never called), and the unused fields `Users`, `Debug`, `baseURL`, `SpecialUserList` and `GroupList`.
- `GetUUID` is a plain read of the `uuID` field.
- main.go, wechat/log.go and wechat/wechat_test.go are not part of this model: they are request plumbing, file I/O and a network test.
- `Atoi` overflow in the sync check: the digit groups are read as unbounded naturals. Integer widths (`int`, `int64`) are unbounded throughout.
- Record fields that the logic does not read (`Uin`, avatars, remark names and the like).

## Findings

| source | as written | input that shows it | evidently intended | confidence | as-written member | corrected member |
|---|---|---|---|---|---|---|
| wechat/wechat.go:367-371 | `len(fInfo) != 2` only records the no-suffix error, and the code then reads `fInfo[1]`, which panics when the name has no dot | the media path `photo` | return the no-suffix error, as for a name with two or more dots | not executed | Media.PlainNamePanics | Media.ExtensionSound |

`Media.AsWrittenExtension` reads `fInfo[1]` as written, so it requires a
second part. `Media.PlainNamePanics` shows that `photo` does not have one.
The corrected `Media.Extension` refuses every name without exactly one dot
(`Media.ExtensionSound`). `Session.Wechat.UploadMedia` uses the corrected
version.
