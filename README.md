# pytinybeans in Dafny

A model of the core of `pytinybeans`, an asynchronous Python client for the
Tinybeans family-journal web service. The model covers:

- the domain records: users, relationships, children, journals, media blobs
  and journal entries;
- the properties derived from those records:
  - whether a relationship is a parent one;
  - a child's display name;
  - the best media variant of an entry;
  - the normalised attachment type, the entry kind and the media url;
- the link from a journal to its children, with each child pointing back to
  the journal that owns it;
- the API client's session state: the bearer token, `logged_in`, `login`
  and the authorization header that `_api` attaches;
- the list of children built from the followed journals;
- the entry pagination loop of `get_entries` and its `limit_check`.

Layout:

- `wrappers.dfy`: `Option` and `Result`, plus Python truthiness for an
  optional string.
- `domain.dfy` (module `Domain`): the records, and the `Child` and `Journal`
  classes, whose back-reference is set in place.
  - `Best`: a first-match search over the variants `o, o2, t, s, s2, m, l, p`.
  - The attachment-type validator, `is_video`, `is_photo` and `is_text`.
  - `url` dispatch.
- `pagination.dfy` (module `Pagination`): the walk of `get_entries` as a
  specification function.
  - `PageStep` handles one reply.
  - `Run` chains the replies.
  - The lemmas state what the walk yields and which requests it makes.
- `client.dfy` (module `Client`): the client.
  - The session specification `LoginSpec` and the header choice `Headers`.
  - The class `PyTinybeans`, whose fields `accessToken` and `user` are
    updated in place by `Login`.
  - The loops of `children` and `get_entries`: `Children`, `LimitCheck`,
    `ScanPage`, `ProcessPage`, `FetchPages` and `GetEntries`.
  - Each of these methods is proved against its specification function.

The network is replaced by data:

- `Login` is given the reply to its `authenticate` request.
- `Children` is given the followings the server listed.
- `GetEntries` is given the server's replies as a finite script: the n-th
  page request receives the n-th reply.
- A page request made after the script is used up is recorded. The walk then
  ends as `Unanswered`. The library itself would keep requesting for as long
  as the server reports entries remaining, so it has no termination
  guarantee.
- The current time used as the default cursor is a parameter, `now`.
- Each raised exception becomes an `Error` value:
  - `raise_for_status` becomes `HttpError(status)`, for every status from 400
    up;
  - a missing key of a reply becomes `MissingKey`;
  - the failed `assert` in `journal` becomes `JournalNotSet`;
  - the `ValueError`s of `best`, `url`, `photo_url` and `video_url` each have
    their own constructor;
  - the unbound `entry` after an empty first page becomes `EntryUnbound`.

Behaviour of the code as written, kept by the model:

- The `attachment_type` validator keeps `"VIDEO"`. For any other value it
  returns `kwargs.get('type')`. The validator is never passed a `type`
  keyword argument, so that value is `None`. The attachment type of a
  non-video entry is therefore always `None`, even where a fallback to the
  entry's own type might be expected.
- On an empty page:
  - An empty first page reads `entry` before it was ever assigned, and fails.
    This happens even when the server reports no entries remaining, because
    the cursor is updated before the loop condition is tested again.
  - An empty later page reuses the last entry seen, so the cursor stays
    where it was.
- The count limit draws from `count()` on every check. So under `Count(n)`,
  the `k`-th check, counting from 0, stops exactly when `n <= k`.
  A negative or zero `n` yields nothing.
- A count limit is checked before each yield, not after. So when the n-th
  entry is the last one on a page that reports entries remaining, one more
  page is requested, and the walk stops at that page's first entry
  (`CountLimitRequestsOneMorePage`).
- The timestamp limit `Before(t)` stops at the first entry strictly older
  than `t`. An entry stamped exactly `t` is yielded.
- `GetEntries` reads the child's journal once, before the first request. The
  source reads it for every request, which gives the same result because
  nothing in the loop changes it.

## Model

| member | source | states |
|---|---|---|
| Domain.IsParent | pytinybeans/pytinybeans.py:53-55 | a relationship is a parent one exactly when its label spells "father" or "mother", each letter in either case |
| Domain.LowerIsWord | pytinybeans/pytinybeans.py:55 | lower-casing a label gives a lower-case word exactly when the label spells that word letter by letter in either case |
| Domain.Child.Name | pytinybeans/pytinybeans.py:71-73 | the name is the first name, one space, then the last name |
| Domain.Child.GetJournal | pytinybeans/pytinybeans.py:75-78 | reading the journal succeeds exactly when it has been set, and then returns it; otherwise it fails with `JournalNotSet` |
| Domain.Child.constructor | pytinybeans/pytinybeans.py:58-65 | a new child has the given fields and no journal yet |
| Domain.Journal.constructor | pytinybeans/pytinybeans.py:86-89 | after a journal is built, every child in its list points back to that journal, and it modifies no object outside the children |
| Domain.FirstUsable | pytinybeans/pytinybeans.py:117-119 | the index found is that of the first key whose variant is present and non-empty; none is found only when no variant is usable |
| Domain.Best | pytinybeans/pytinybeans.py:115-120 | the best blob is never empty and is the variant of the first usable key in priority order; it fails with `NoBestBlob` exactly when every variant is absent or empty |
| Domain.BestPrefersO | pytinybeans/pytinybeans.py:117-119 | a non-empty `o` is always the best blob |
| Domain.BestFallsBack | pytinybeans/pytinybeans.py:117-119 | when every variant before position i is unusable and the one at i is usable, it is the best blob |
| Domain.NormalizeAttachmentType | pytinybeans/pytinybeans.py:141-148 | the normalised attachment type is "VIDEO" exactly when the input was, and `None` otherwise |
| Domain.Construct | pytinybeans/pytinybeans.py:141-156 | validation changes only the attachment type; the entry is a video exactly when its raw attachment type was "VIDEO", and a photo exactly when its type is PHOTO and it is not such a video |
| Domain.IsPhoto | pytinybeans/pytinybeans.py:150-156 | an entry is a photo exactly when its type is PHOTO and it is not a video, so no entry is both |
| Domain.VideoUrl | pytinybeans/pytinybeans.py:176-180 | the video url exists exactly for a video with a non-empty mp4 url and is that url; otherwise it fails with `NoVideoUrl` |
| Domain.PhotoUrl | pytinybeans/pytinybeans.py:170-174 | a photo's url is its best blob; any other entry fails with `NoPhotoUrl` |
| Domain.Url | pytinybeans/pytinybeans.py:162-168 | a video's url is its non-empty mp4 url or the video error; a photo's url is its best blob; every other entry fails with `NoUrl`; a url is never empty |
| Domain.TextHasNoUrl | pytinybeans/pytinybeans.py:158-168 | a validated text entry (`is_text`) that is not a video has no url |
| Domain.IsVideo | pytinybeans/pytinybeans.py:150-152 | an entry is a video when its attachment type is "VIDEO"; `Construct` and `IsPhoto` state what this gives for a validated entry |
| Domain.IsText | pytinybeans/pytinybeans.py:158-160 | an entry is a text when its type is TEXT; `TextHasNoUrl` states what this gives |
| Domain.Lower | pytinybeans/pytinybeans.py:55 | lower-casing keeps the length and lowers each ASCII capital in place |
| Domain.Variant | pytinybeans/pytinybeans.py:118 | a variant is present exactly when it is `o` or one of the extra keys, and `o` is always present |
| Pagination.Stops | pytinybeans/pytinybeans.py:281-287 | the limit check: a count limit n stops at the k-th check exactly when n <= k, a timestamp limit t stops at an entry strictly older than t, and no limit never stops; `LimitCheck` is proved to compute it |
| Pagination.Remaining | pytinybeans/pytinybeans.py:290 | the entries remaining, a missing key read as 0; `RunExhausted` and `RunRequestsContinue` state how it drives the loop |
| Pagination.NextCursor | pytinybeans/pytinybeans.py:308 | the cursor after a page is the timestamp of its last entry, and an empty page keeps it; `PageStepCases` and `EmptyLaterPageRepeats` state where it is used |
| Pagination.Run | pytinybeans/pytinybeans.py:289-308 | the walk from a given state: one page by `PageStep`, then the rest of the walk while the page continues it; its properties are stated by the `Run` lemmas below |
| Pagination.Walk | pytinybeans/pytinybeans.py:289-308 | the whole walk from the starting cursor, before any entry is seen; `FetchPages` and `GetEntries` are proved to compute it, and the lemmas below state what it yields and requests |
| Pagination.FirstStop | pytinybeans/pytinybeans.py:302-305 | the index is the first entry of a page at which the limit check stops, or the page length when none stops |
| Pagination.PageStep | pytinybeans/pytinybeans.py:299-308 | a page yields a prefix of its entries, none of which fails the limit check; the walk continues only after a successful page that yielded all its entries and reported entries remaining |
| Pagination.PageStepCases | pytinybeans/pytinybeans.py:299-308 | each way a page can go holds exactly under its condition on the reply: an HTTP error exactly when the status fails; a limit stop exactly when the check stops at one of its entries; an unbound entry exactly on an empty first page; exhausted exactly when the page was scanned whole and no entries remain; continuing exactly when the page was scanned whole and entries remain; no other ending is possible; a limit stop is at an entry the check stops at, and a continuing page moves the cursor to its last entry |
| Pagination.EmptyLaterPageRepeats | pytinybeans/pytinybeans.py:302-308 | an empty page after the first, reporting entries remaining, yields nothing and continues with the same cursor, so the next request repeats it |
| Pagination.RunRaises | pytinybeans/pytinybeans.py:299-308 | a walk fails only with an HTTP error or on the unbound entry of an empty first page |
| Pagination.RunBounds | pytinybeans/pytinybeans.py:289-298 | a walk makes at least one request, the first from the starting cursor, and at most one more than there are replies; it ends unanswered exactly when it used them all |
| Pagination.RunTurn | pytinybeans/pytinybeans.py:290-308 | one pass of the loop either ends the walk with the page's entries and its request, or continues the walk from the next reply with the new cursor and count |
| Pagination.RunRequestsJournal | pytinybeans/pytinybeans.py:291-297 | every request is for the child's journal, with the fixed client id and the page size 200 |
| Pagination.RunRequestsContinue | pytinybeans/pytinybeans.py:290-308 | each request but the last follows a successful reply reporting entries remaining, with the cursor moved to the last entry of that reply |
| Pagination.RunExhausted | pytinybeans/pytinybeans.py:290 | a walk ends exhausted only when its last reply reported no entries remaining |
| Pagination.RunPrefix | pytinybeans/pytinybeans.py:302-306 | the entries yielded are a prefix of the processed pages' entries in server order, and are all of them unless the limit stopped the walk |
| Pagination.RunPassesChecks | pytinybeans/pytinybeans.py:281-306 | no yielded entry is one the limit check stops at |
| Pagination.RunStopsInLastPage | pytinybeans/pytinybeans.py:302-305 | when the limit stops the walk, the stopping entry is the next one fetched, and it lies in the last page requested |
| Pagination.CountLimitYieldsMin | pytinybeans/pytinybeans.py:279-306 | with a count limit n, exactly min(max(n, 0), entries processed) entries are yielded, and exactly max(n, 0) when the limit stopped the walk (so a limit of 3 on a long enough feed yields 3, as the package's test expects) |
| Pagination.BeforeLimitStopsAtFirstOlder | pytinybeans/pytinybeans.py:285-306 | with a timestamp limit t, every yielded entry is at or after t, the walk stops at the first fetched entry older than t, and otherwise yields everything processed |
| Pagination.NoLimitYieldsAll | pytinybeans/pytinybeans.py:287-306 | without a limit the walk never stops for the limit and yields every entry of every processed page |
| Pagination.WalkRequests | pytinybeans/pytinybeans.py:289-308 | the first request is made from the starting cursor; every request is for the journal; a further request follows only a successful page reporting entries remaining, from that page's last entry; a walk ends unanswered exactly when it used every reply, ends exhausted only when its last reply reported no entries remaining, and fails only with an HTTP error or on an empty first page |
| Pagination.CountLimitRequestsOneMorePage | pytinybeans/pytinybeans.py:279-308 | with a count limit of 1, a first page of one entry that reports entries remaining is followed by a second request from that entry's timestamp, and the walk stops at the second page's first entry without yielding it |
| Pagination.EmptyFirstPageRaises | pytinybeans/pytinybeans.py:302-308 | an empty successful first page fails on the unbound entry after one request, whatever the server reports remaining |
| Client.Headers | pytinybeans/pytinybeans.py:200-214 | the authorization header is attached exactly when a non-empty token is held, carries that token, and is the only header |
| Client.LoggedIn | pytinybeans/pytinybeans.py:219-224 | logged in exactly when a non-empty token is held; `Headers` and `LoginSpec` state its uses |
| Client.Api | pytinybeans/pytinybeans.py:191-217 | a request goes to the base url joined with its path, with the given method, query and body, and carries the authorization header exactly when logged in |
| Client.LoginSpec | pytinybeans/pytinybeans.py:226-247 | a held token makes login a no-op returning true and sending nothing; otherwise the credentials are posted without authorization; a failed status leaves the session unchanged and fails with `HttpError`; a successful reply carrying a token and a user stores both and returns true exactly when the token is non-empty; a reply without a token fails with the session unchanged; a reply with a token but no user stores the token and then fails; the token changes only through a successful reply |
| Client.LoginIdempotent | pytinybeans/pytinybeans.py:227-229 | after a login that returned true, any later login is a no-op that sends nothing |
| Client.LoginAuthorizes | pytinybeans/pytinybeans.py:200-247 | after a successful login, requests carry the token received |
| Client.PyTinybeans.constructor | pytinybeans/pytinybeans.py:187-189 | a new client holds no token |
| Client.PyTinybeans.Login | pytinybeans/pytinybeans.py:226-247 | the fields after the call, the result and the request sent are those `LoginSpec` gives for the fields before it |
| Client.Flatten | pytinybeans/pytinybeans.py:262-268 | the children of each following's journal, journal after journal; `FlattenContains` states its membership and `Children` is proved to compute it |
| Client.FlattenContains | pytinybeans/pytinybeans.py:262-268 | a child is in the list exactly when it is a child of one of the followed journals |
| Client.ChildrenHaveJournals | pytinybeans/pytinybeans.py:262-268 | when every journal is linked (as its constructor leaves it), reading the journal of any listed child succeeds |
| Client.PyTinybeans.Children | pytinybeans/pytinybeans.py:262-268 | the list is the children of each following's journal, journal after journal |
| Client.PyTinybeans.LimitCheck | pytinybeans/pytinybeans.py:281-287 | the check stops exactly when the limit says so at the current count, and a count limit advances the counter by one |
| Client.PyTinybeans.ScanPage | pytinybeans/pytinybeans.py:302-306 | a page yields its entries up to the first one the check stops at, reports whether it stopped, and otherwise leaves the last entry of the page as the current entry |
| Client.PyTinybeans.ProcessPage | pytinybeans/pytinybeans.py:299-308 | one pass of the loop body computes what `PageStep` specifies, with the new cursor, the remaining count and the counter |
| Client.PyTinybeans.FetchPages | pytinybeans/pytinybeans.py:289-308 | the request loop yields the entries, makes the requests and ends as the walk from the starting cursor specifies |
| Client.PyTinybeans.GetEntries | pytinybeans/pytinybeans.py:270-308 | without a journal it fails before any request; otherwise it is the walk of the journal from the cursor `last`, or from the current time when `last` is absent |

## Left out

- Network I/O: the aiohttp session, sending requests, and JSON decoding. Replies are parameters.
- `get_followings`: a single I/O round trip. `Children` is given the followings it would list.
- `request_export`: a single I/O round trip with no logic beyond comparing the reply's status with "ok".
- async/await and async generators. `get_entries` returns the whole sequence it would yield. Entries yielded before a failure are kept in the outcome, as a consumer would already have received them.
- Timestamps: entries carry epoch milliseconds. The float conversion to a local `datetime` is not modelled, and neither is `utcnow()`: the default cursor is the parameter `now`.
- GetEntries: the cursor for the next page is the last entry's timestamp in epoch milliseconds. The source assigns the entry's `datetime` to `last` instead and passes that as the query parameter; the model does not capture what the transport makes of a `datetime` parameter.
- pydantic and inflection: camelCase aliasing, extra keys, required-field validation, `__repr_args__` and `__str__` are library internals. Records are taken as already validated, with the extra blob variants as a map of strings.
- A reply without an `entries` key fails in the source; every modelled reply carries its entries.
- A `numEntriesRemaining` that is JSON `null` or not a number makes the loop condition raise a `TypeError` in the source; `Response` holds it as an optional integer, so that case is not represented.
- LoginSpec: a token key that is present but JSON `null` is not distinguished from a missing key. A user record that fails validation is not modelled: the reply's user is given already built.
- `strptime` parsing of the date of birth: `dob` is given as a date.
- The `print` in `TinybeanJournal.__post_init__`: console output.
- Domain.Lower: `str.lower` is modelled for ASCII letters only.
- `raise_for_status` is taken to raise for every status from 400 up, as aiohttp does. The transport itself is not part of this model.
- `urljoin` of the base url with a relative path is modelled as concatenation, which is what it gives for the relative paths used here.
- Page requests carry the session's headers like every `_api` call. `PageRequest` records only their query and journal, and `Headers` states the header choice once.
