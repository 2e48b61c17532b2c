# A verified model of the Lakekeeper clients

A Dafny 4.11 model of the parts of the Python client (`pylakekeeper`) and of the Java client that
carry state or formats, with proofs of what they promise. `dafny verify dfyconfig.toml` checks it.

What is modelled, by file:

- **TokenProtocol, TokenInvariants, TokenTheorems, TokenTiming, TokenUse, TokenBudget** — the OAuth2
  token cache as a transition system. Any number of threads call `auth_header` and `invalidate`; a
  step is one read or write of `_token`, `_expires_at` or `_refresh_token`, one clock read, one lock operation, or
  the start or end of one request to the identity provider, whose answers are arbitrary. The
  `Client` flavour selects `ClientCredentials`, the Python base class of the interactive flows, or
  the Java one. They differ where the code differs: an empty refresh token is ignored by Python and
  stored by Java, a garbled answer is an AuthException in Java and an uncaught exception in Python
  (so only Java falls back to a login), an empty access token is refused by Python only, and only
  Python asserts the token before it formats it. `TokenProtocol.Run` and `TokenProtocol.Settle`
  are the program; `log`, `written` and `floors` are history variables no step branches on.
- **AuthCache** — the same cache as a class with the source's fields and methods, one caller at a
  time, and the transport's 401 retry. Its history obeys the same rules as the protocol's.
- **DeviceFlow** — the device-code polling loop of both clients.
- **Vended, Spacing** — expiry of vended credentials and the table object that reloads them.
- **Frontmatter, FrontmatterProofs, FrontmatterText** — the hand-written parser and printer of skill documents,
  with Python's own line boundaries and whitespace.
- **Skills, SkillProtocol, SkillTheorems, SkillLoading** — the skill store as classes over the three
  tables, and the same operations as interleaved steps in which an approval is a read and two writes.
- **Memory, MemoryProofs, Recall, MemoryRecall** — entries with their recall rows, the SQL literal of
  a delete, and the fan-out search against one search over the union of all readable rows. The ghost
  field `history` of a store is the list of its calls.
- **LangGraph, LangGraphProofs, LangGraphRecall, Paths** — the tuple-keyed store over slash-joined
  paths, and over a memory whose recall table takes every call.
- **Objects** — the prefix-relative object store over a shared bucket.
- **Percent, Namespaces, Forms, UrlExamples, Dicts** — percent-encoding in Python's and Java's dialects,
  namespaces and table paths, form bodies and query strings.
- **Basics, Text, Ordering** — options, splitting and joining, sorting and lexicographic order.

Code that changes fields or runs a loop is a class or a method, proved against a function or a
predicate; lemmas then prove what the source promises about that function. Pure code is functions.
Clocks are integers. A text is a sequence of characters, or of UTF-8 bytes where it is
percent-encoded. The identity provider, the catalog, storage and the vector index are parameters
or maps.

## Where the code does less than it says

- `auth_header` is said to return a token. It does not when another thread invalidates after the
  check: `TokenTheorems.NoTokenIffInvalidated` is the exact condition and
  `TokenTiming.LateInvalidateFailsCaller` a run that ends in the failing assertion.
  `TokenTiming.QuietRunsServe` proves the promise for runs without `invalidate`.
- A token returned is granted during the call, or found good for more than the margin in it
  (`TokenUse.ReturnedIsFresh`), if the clock does not start at least the margin below zero. With such a
  clock, which Java allows, a token whose expiry is still to be stored passes for a good one
  (`TokenUse.NegativeClockServesLapsed`).
- Searching a LangGraph namespace without a query also lists namespaces whose last compared segment
  merely starts the same (`LangGraphProofs.ListedExactly`, `LangGraphProofs.ListingIsLoose`). The
  ranked search is exact.
- A re-put with `index=False` leaves the old row (`MemoryProofs.UnindexedPut`,
  `MemoryProofs.StaleRow`); a path with a leading slash is stored without it but indexed with it
  (`MemoryProofs.IndexedPut`, `MemoryProofs.OrphanRow`).
- `load_all` lists first and loads name by name afterwards. It fails when a listed name is revoked in
  between and not approved again (`SkillLoading.LoadMissesIff`, `SkillLoading.LoadAllFailsIff`;
  `SkillLoading.RevokedWhileLoading` and `SkillLoading.LoadingCanBeTooLate` are runs). It also fails,
  with nothing in between, when a live pointer lies under a name with a slash and nothing is live
  under its first segment (`SkillLoading.LoadAllExact`); proposing and approving one skill under such
  a name is enough (`SkillLoading.SlashedNameFailsLoadAll`, `SkillLoading.LoadAllCanFail`).
- A proposal is attributed to its own header, not to its queue: a body that opens with a header is
  filed as it is and read back as proposed by whomever it names (`SkillTheorems.AttributionIff`,
  `SkillTheorems.BorrowedAttribution`), although a caller is not meant to choose the name.
- `approve` with a version that contains a slash can make a skill live without a record of its
  version (`SkillTheorems.ApprovalBacksPointer`, `SkillTheorems.SlashedApproval`); the queue listing
  never yields such a version. `SkillProtocol.ProposalVersion` shows it is the only way.
- A cached response whose expiry is a number outside the representable dates makes every access
  raise until `invalidate` (`Vended.RaisesIffUnreadable`, `Vended.UnreadableStays`); one load is
  enough to get there (`Vended.UnreadableHappens`).

## Model

| member | source | states |
|---|---|---|
| TokenInvariants.StepLocked | python/src/pylakekeeper/auth.py:200-214 | a thread is in its critical section exactly while it holds the lock; every step of every thread keeps this |
| TokenInvariants.StepInFlight | python/src/pylakekeeper/auth.py:216-255 | every step keeps the request history in agreement with what each thread is doing, an open request being the lock holder's |
| TokenInvariants.StepProvenance | python/src/pylakekeeper/auth.py:227-229 | every value ever cached is the access token of the successful request it is tagged with |
| TokenInvariants.StepSighted | python/src/pylakekeeper/auth.py:195-207 | a thread past its check did see, or write, a token at the write it remembers |
| TokenInvariants.StepFresh | python/src/pylakekeeper/auth.py:209-214 | nothing older than a thread's last `invalidate` is cached or handed to it, kept by every step |
| TokenInvariants.StepRotates | python/src/pylakekeeper/auth.py:216-232 | the stored refresh token is the newest usable one of the history, apart from an answer still being applied |
| TokenInvariants.StepInv | python/src/pylakekeeper/auth.py:195-255 | all invariants together are inductive for the three clients |
| TokenInvariants.RunInv | python/src/pylakekeeper/auth.py:95-139 | they hold in every reachable state of any number of threads |
| TokenTheorems.SingleWriter | java/core/src/main/java/io/lakekeeper/client/auth/RefreshableAuth.java:61-116 | a step that changes a token field is a step of the lock holder |
| TokenTheorems.SingleFlight | python/src/pylakekeeper/auth.py:99-116 | at most one token request is open at any moment of any run, and its caller holds the lock |
| TokenTheorems.Progress | python/src/pylakekeeper/auth.py:200-214 | a thread inside a call can always step, unless it waits for an answer or for a lock another thread holds |
| TokenTheorems.FreshAfterInvalidate | python/src/pylakekeeper/transport.py:43-46 | after a thread's invalidation every token cached, and every token it is given, comes from a request begun later |
| TokenTheorems.RetryNeverRepresents | python/src/pylakekeeper/transport.py:43-46 | in every interleaving, with a provider that never reissues a token, the retry does not send the rejected one |
| TokenTheorems.NoTokenIffInvalidated | python/src/pylakekeeper/auth.py:200-207 | a thread past its check finds no token if and only if the last write since it saw one was an `invalidate` |
| TokenTheorems.RefusedRefreshNeverFails | python/src/pylakekeeper/auth.py:216-225 | what fails a call is a refused login or an exception nobody catches, never a refused refresh |
| TokenTheorems.JavaNeverAsserts | java/core/src/main/java/io/lakekeeper/client/auth/RefreshableAuth.java:61-75 | no Java caller ever fails an assertion |
| TokenTheorems.PayloadIs | python/src/pylakekeeper/auth.py:151-161 | a payload is granted exactly with an access token (non-empty in Python), with its refresh token and 300 seconds by default |
| TokenTheorems.GrantedByAnswer | python/src/pylakekeeper/auth.py:247-255 | in every run every token granted is one that an answer to that request's caller carried |
| TokenTheorems.BringsIs | python/src/pylakekeeper/auth.py:230-232 | a new refresh token is any one granted; Python ignores an empty one |
| TokenTheorems.RefreshWasIssued | python/src/pylakekeeper/auth.py:234-245 | every refresh sends a refresh token that an earlier answer carried |
| TokenTheorems.NewestIs | python/src/pylakekeeper/auth.py:227-232 | the newest refresh token is exactly one that some request brought and no later request rotated away or had refused |
| TokenTheorems.RefreshDiscipline | python/src/pylakekeeper/auth.py:216-245 | request i is a refresh with token x if and only if x was issued before i and not superseded since (section 6 of RFC 6749) |
| TokenTheorems.LoginAccounting | python/src/pylakekeeper/auth.py:216-225 | in a disciplined history, logins that brought a refresh token = refused refreshes + 1 if one is held |
| TokenTheorems.LoginBudget | python/src/pylakekeeper/auth.py:216-225 | over any run logins are at most 1 + refused refreshes if every login brings a refresh token, however often threads invalidate |
| TokenTiming.RequestBudget | python/src/pylakekeeper/auth.py:99-109 | without invalidation, (successful requests - 1) x (lifetime - margin) is at most the time that passed |
| TokenBudget.RenewalBudget | python/src/pylakekeeper/auth.py:195-232 | over every run, (successful requests - 1 - invalidations) x (lifetime - margin) is at most the time that passed |
| TokenBudget.StepSolvent | python/src/pylakekeeper/auth.py:195-232 | every step keeps the books: a cached token is good until a gap after its grant, an empty cache has spent no more than the time passed |
| TokenTiming.AtMostOneGrant | python/src/pylakekeeper/auth.py:104-116 | within one usable lifetime at most one request succeeds |
| TokenTiming.OneTokenForAll | python/src/pylakekeeper/auth.py:104-116 | and every finished caller got that request's token or the failure of a request of its own |
| TokenTiming.QuietRunsServe | python/src/pylakekeeper/auth.py:200-207 | without invalidation the assertion never fails |
| TokenTiming.LateInvalidateFailsCaller | python/src/pylakekeeper/auth.py:200-214 | a concrete reachable state in which a caller whose own request succeeded fails its assertion |
| TokenUse.ReturnedIsUsable | python/src/pylakekeeper/auth.py:195-207 | a call that returns a token without a request of its own saw, at moments of the call, the clock plus the margin before the expiry stored |
| TokenUse.ReturnedIsFresh | python/src/pylakekeeper/auth.py:195-232 | in every run the token returned was granted during the call, or had more than the margin of its own lifetime left at some moment of it |
| TokenUse.LateCallRenews | python/src/pylakekeeper/auth.py:200-207 | a call begun with no more than the margin left returns a token only after a request, its own or another thread's, is granted |
| TokenUse.StepOverdue | python/src/pylakekeeper/auth.py:195-205 | every step keeps: whoever fetches a token, or is storing one, found none good for more than the margin |
| TokenUse.OwnedNow | python/src/pylakekeeper/auth.py:227-229 | the expiry stored is overdue, or the newest granted token's lifetime counted from a moment after its grant |
| TokenUse.NegativeClockServesLapsed | java/core/src/main/java/io/lakekeeper/client/auth/RefreshableAuth.java:90-93 | a run with a clock below zero that returns a token lapsed before the call |
| Spacing.SpacedSpan | python/src/pylakekeeper/auth.py:99-102 | n times that keep a distance span at least n - 1 distances |
| AuthCache.TokenCache.constructor | python/src/pylakekeeper/auth.py:173-193 | a new cache holds nothing and is valid |
| AuthCache.TokenCache.ApplyBundle | python/src/pylakekeeper/auth.py:227-232 | token and expiry are replaced, the refresh token only by a new one |
| AuthCache.TokenCache.EnsureToken | java/core/src/main/java/io/lakekeeper/client/auth/RefreshableAuth.java:96-116 | a refresh with the held token comes first, a login follows exactly its refusal; the token fields change exactly when the last request succeeded, and the cache stays disciplined |
| AuthCache.TokenCache.AuthHeader | python/src/pylakekeeper/auth.py:200-207 | a usable token is returned without a request; otherwise the answer is that of the last request made |
| AuthCache.TokenCache.Invalidate | python/src/pylakekeeper/auth.py:209-214 | the token is dropped, the refresh token and history are not |
| AuthCache.RequestWithRetry | python/src/pylakekeeper/transport.py:33-51 | at most one retry, exactly after a 401; what is sent are tokens granted, the last being the one cached, and the retry never repeats the first if the provider does not reissue |
| AuthCache.RecordRequest | python/src/pylakekeeper/auth.py:216-232 | a request made with the newest refresh token keeps the history disciplined and moves the newest token as it answers |
| DeviceFlow.PollOnce | python/src/pylakekeeper/auth.py:383-408 | exactly a pending authorization and `slow_down` keep the loop going, the latter adding five seconds; a token decides for it, anything else against |
| DeviceFlow.Acquire | java/core/src/main/java/io/lakekeeper/client/auth/DeviceCodeFlow.java:68-107 | in either client each poll asks for the granted interval plus five seconds per earlier slow-down and starts before both the expiry and the poll timeout; the outcome is that of the last poll, or one of the two passed; a negative interval raises in Python only; it terminates |
| DeviceFlow.IntervalIs | python/src/pylakekeeper/auth.py:403-407 | interval = granted interval + 5 s x number of slow-downs so far (section 3.5 of RFC 8628) |
| DeviceFlow.ClockNext | java/core/src/main/java/io/lakekeeper/client/auth/DeviceCodeFlow.java:134-137 | a round lasts the sleep asked for, none for a negative one, and what the poll takes |
| DeviceFlow.ClockBound | python/src/pylakekeeper/auth.py:353-356 | after n rounds with s slow-downs at least n intervals and s(s-1)/2 x 5 s have passed |
| DeviceFlow.PollBound | python/src/pylakekeeper/auth.py:353-360 | n polls with s slow-downs among the first n - 1 satisfy (n-1)i + 5s(s-1)/2 < min(expires_in, poll_timeout) |
| DeviceFlow.PollCount | python/src/pylakekeeper/auth.py:353-360 | so a positive interval bounds the number of polls, whatever the answers |
| Vended.MergedValue | python/src/pylakekeeper/lance.py:42-46 | of several credentials the last one that has a key decides it |
| Vended.CredentialValue | python/src/pylakekeeper/lance.py:37-48 | the catalog's configuration wins over every credential |
| Vended.FromKeysIs | python/src/pylakekeeper/models.py:99-103 | the first of the three keys with a non-empty value is taken, none if there is none |
| Vended.FromAccountsIs | python/src/pylakekeeper/models.py:104-107 | else the first account key with a non-empty value |
| Vended.ExpiryIs | python/src/pylakekeeper/models.py:97-107 | the text found is exactly the one at the first key that states one, or with none of them in the first account entry that does |
| Vended.FindExpiry | python/src/pylakekeeper/models.py:97-107 | the for-else search computes that value |
| Vended.DeadlineIs | python/src/pylakekeeper/models.py:108-114 | the credentials lapse at the moment that the first stated text reads as, between the years 1 and 9999 |
| Vended.LapseExamples | python/src/pylakekeeper/models.py:97-128 | one example for each storage: credentials due within a minute are reloaded, those due later are not |
| Vended.VendedTable.Resp | python/src/pylakekeeper/agents/_common.py:72-78 | a load happens if and only if the cache is empty or its stated expiry reads as a date at most 120 s ahead; what is served without one has any such date more than 120 s ahead |
| Vended.VendedTable.Invalidate | python/src/pylakekeeper/agents/_common.py:80-82 | the next access loads |
| Vended.VendedTable.Ensure | python/src/pylakekeeper/agents/_common.py:95-119 | a conflict counts as created, any other failure changes nothing, and the result was loaded by this call |
| Vended.ReloadBound | python/src/pylakekeeper/agents/_common.py:72-82 | over any run with d invalidations, (loads - 1 - d)(L - 120 s) is at most the time that passed, if every load is good for L of at least 120 s |
| Vended.NextCounts | python/src/pylakekeeper/agents/_common.py:72-82 | a load is counted exactly when it was needed and succeeded, an invalidation always |
| Vended.RaisesIffUnreadable | python/src/pylakekeeper/agents/_common.py:72-78 | an access raises for the cached date if and only if the first place that states an expiry reads as a number before the year 1 or after 9999 |
| Vended.UnreadableStays | python/src/pylakekeeper/models.py:111-114 | once such a response is cached, every access raises and nothing is loaded, until an invalidation |
| Vended.UnreadableHappens | python/src/pylakekeeper/models.py:99-114 | a response that states the year 10000 is served once and then blocks the table |
| Frontmatter.ParseFrontmatter | python/src/pylakekeeper/agents/skills.py:103-127 | the loops compute the fields before the closing fence and the body after it |
| Frontmatter.ReadEntries | python/src/pylakekeeper/agents/skills.py:120-126 | blank lines, comments and lines without a colon are skipped, later keys win |
| Frontmatter.FindFence | python/src/pylakekeeper/agents/skills.py:115-118 | the first closing fence after the opening line, or none |
| FrontmatterProofs.BodySurvives | python/src/pylakekeeper/agents/skills.py:114-127 | splitting a body into lines and joining it loses at most one final line feed if and only if line feeds are its only boundaries |
| FrontmatterProofs.DocumentRoundTrip | python/src/pylakekeeper/agents/skills.py:103-146 | a fenced document with any plain keys reads back as its fields and body if and only if every value and the body are plain |
| FrontmatterProofs.FormatRoundTrip | python/src/pylakekeeper/agents/skills.py:130-146 | parse(format(...)) gives the fields and the body back if and only if fields are single-line, trimmed and quote-free at the ends, and the body has only line feeds |
| FrontmatterProofs.FormatFields | python/src/pylakekeeper/agents/skills.py:130-146 | the fields survive whatever the body contains |
| FrontmatterProofs.FormatReadBack | python/src/pylakekeeper/agents/skills.py:120-146 | fields that fit on a line come back trimmed and unquoted, whatever the body contains |
| FrontmatterProofs.EntriesAre | python/src/pylakekeeper/agents/skills.py:120-126 | a field is exactly what the last header line with its key says |
| FrontmatterText.BreaksAre | python/src/pylakekeeper/agents/skills.py:114 | the ten line boundaries |
| FrontmatterText.SpacesAre | python/src/pylakekeeper/agents/skills.py:116 | the white space that is trimmed |
| FrontmatterText.QuotesAre | python/src/pylakekeeper/agents/skills.py:126 | the two quotes that are stripped |
| FrontmatterText.LineEnds | python/src/pylakekeeper/agents/skills.py:114 | each boundary ends a line, a return and a line feed together one |
| FrontmatterText.LastLine | python/src/pylakekeeper/agents/skills.py:114 | a last line without a boundary is a line, an empty text has none |
| FrontmatterText.SaysSomething | python/src/pylakekeeper/agents/skills.py:121-126 | a header line states a field if and only if it has a colon and does not begin, after spaces, with `#` |
| FrontmatterText.SaysWhat | python/src/pylakekeeper/agents/skills.py:124-126 | the key before the first colon, trimmed, and the value after it, trimmed and unquoted |
| FrontmatterProofs.StripSlice | python/src/pylakekeeper/agents/skills.py:126 | trimming drops exactly the droppable characters at both ends |
| FrontmatterText.FormatText | python/src/pylakekeeper/agents/skills.py:130-146 | the text of a formatted document, for every combination of fields |
| FrontmatterText.BodyStart | python/src/pylakekeeper/agents/skills.py:112-127 | a body read never starts with a line feed; a document without the opening fence is all body |
| FrontmatterProofs.ParsedOneLine | python/src/pylakekeeper/agents/skills.py:121-126 | no parsed value ever spans lines |
| FrontmatterProofs.RejectionRoundTrip | python/src/pylakekeeper/agents/skills.py:349-355 | a rejection note parses to the skill's fields and to a body that says who refused, then why, then the refused document |
| FrontmatterProofs.RejectionLines | python/src/pylakekeeper/agents/skills.py:353 | the first and third line of such a body determine a one-line reviewer and reason |
| SkillTheorems.RejectedReads | python/src/pylakekeeper/agents/skills.py:349-361 | what a rejection of a plain proposal files reads back as the proposal's name, description and proposer, and as reviewer, reason and the proposal |
| Skills.PathSafe | python/src/pylakekeeper/agents/skills.py:59-61 | a queue's table name has only safe characters, keeps each safe one in its place, and equals the principal if and only if it is such a name |
| Skills.SafeChars | python/src/pylakekeeper/agents/skills.py:56 | which characters are safe |
| Skills.ProposalOrder | python/src/pylakekeeper/agents/skills.py:305 | a queue is listed by name, then by version |
| Skills.ReadHeaderless | python/src/pylakekeeper/agents/skills.py:260-268 | a document without a header takes the name asked for and the queue's owner |
| Skills.ListKeys | python/src/pylakekeeper/objects.py:106-114 | exactly the keys under the prefix, each once |
| Skills.QueueEntryIs | python/src/pylakekeeper/agents/skills.py:297-304 | a queue key is an entry if and only if it is name/version.md with slash-free name and version |
| Skills.SkillStore.Propose | python/src/pylakekeeper/agents/skills.py:231-252 | the document is filed in the proposer's own queue under its own version; nothing else changes |
| Skills.SkillStore.ListProposed | python/src/pylakekeeper/agents/skills.py:285-305 | exactly the pending versions of the queue (of one name, if given), sorted, each once |
| Skills.SkillStore.ReadProposed | python/src/pylakekeeper/agents/skills.py:307-319 | the skill under the queue key, named and attributed by its own document first |
| Skills.SkillStore.Approve | python/src/pylakekeeper/agents/skills.py:321-336 | record and pointer of the name in the document hold the document; nothing else changes, nothing at all if the proposal is missing |
| Skills.SkillStore.Reject | python/src/pylakekeeper/agents/skills.py:338-361 | if and only if the proposal is there, a note on the skill read from it is filed among the rejections; queues and approvals stay |
| Skills.SkillStore.Revoke | python/src/pylakekeeper/agents/skills.py:372-378 | only the pointer goes |
| Skills.SkillStore.List | python/src/pylakekeeper/agents/skills.py:270-277 | the sorted duplicate-free first segments of the live pointers |
| Skills.SkillStore.LoadAll | python/src/pylakekeeper/agents/skills.py:279-281 | one loaded skill per listed name, in order; it fails if and only if one of them cannot be loaded |
| SkillProtocol.KeyUnique | python/src/pylakekeeper/agents/skills.py:241-245 | a key determines its file and the normalised name before it, slashes in names included |
| SkillProtocol.ProposalVersion | python/src/pylakekeeper/agents/skills.py:307-319 | a proposal found under (name, version) holds a document of that version if and only if the version has no slash |
| SkillProtocol.StepKeepsRecords | python/src/pylakekeeper/agents/skills.py:321-378 | no step of anyone alters or removes a version record |
| SkillProtocol.StepInv | python/src/pylakekeeper/agents/skills.py:231-378 | every step keeps the library, the queues and every half-done approval sound |
| SkillProtocol.ApprovalAlone | python/src/pylakekeeper/agents/skills.py:331-336 | the protocol's three steps without interleaving do what the store's `approve` does |
| SkillProtocol.RejectionAlone | python/src/pylakekeeper/agents/skills.py:349-361 | and the two steps of a rejection do what its `reject` does |
| SkillProtocol.AnyoneCanStart | python/src/pylakekeeper/agents/skills.py:321-378 | any proposal there is can be taken up by anyone who is free, and any name revoked at any time |
| SkillTheorems.KeysAre | python/src/pylakekeeper/agents/skills.py:334-335 | the keys of a version record and of the live pointer |
| SkillTheorems.LibrarySound | python/src/pylakekeeper/agents/skills.py:321-336 | in every reachable state, also between the two writes of an approval, documents are filed under their own version and a live pointer equals a version record of its name |
| SkillTheorems.RecordsForever | python/src/pylakekeeper/agents/skills.py:328-334 | a version record stays, unchanged, in every later state |
| SkillTheorems.PointerStays | python/src/pylakekeeper/agents/skills.py:335-378 | what was made live stays live until an approval or revocation of that name |
| SkillTheorems.ProposalStays | python/src/pylakekeeper/agents/skills.py:231-245 | a filed proposal is never replaced by another document |
| SkillTheorems.ApprovalCarries | python/src/pylakekeeper/agents/skills.py:331-336 | what an approval writes is what it read at its start, whatever others do in between |
| SkillTheorems.ApprovedIsLoaded | python/src/pylakekeeper/agents/skills.py:231-268 | propose, approve, load: `load` returns the reviewed document with the proposer's name, description, proposer and version until the name is moved |
| SkillTheorems.ProposedIsListed | python/src/pylakekeeper/agents/skills.py:285-305 | a proposal under a slash-free name is pending in its queue from then on, and in the listing of one name if and only if it is its own |
| SkillTheorems.AttributionIff | python/src/pylakekeeper/agents/skills.py:307-319 | a document in the queue of p is shown as filed by p if and only if the last header line that states a proposer, if any, states p |
| SkillTheorems.FiledAttribution | python/src/pylakekeeper/agents/skills.py:231-252 | with a header written by `propose` on one-line fields, if and only if p is empty or trimmed and quote-free at the ends |
| SkillTheorems.BorrowedAttribution | python/src/pylakekeeper/agents/skills.py:138-139 | a body with a header of its own is shown as filed by whomever it names |
| SkillLoading.LoadAllExact | python/src/pylakekeeper/agents/skills.py:270-281 | every listed name loads if and only if every live pointer has one at the top level of its first segment |
| SkillLoading.LoadAllPlain | python/src/pylakekeeper/agents/skills.py:270-281 | a library whose live keys are n/SKILL.md with slash-free n loads whole, each name from its own pointer |
| SkillLoading.LoadMissesIff | python/src/pylakekeeper/agents/skills.py:254-268 | in every run, a name live at one moment fails to load at a later one if and only if it was revoked in between and not approved again |
| SkillLoading.LoadAllFailsIff | python/src/pylakekeeper/agents/skills.py:279-281 | with the listing at one moment and each load at its own later one, `load_all` fails if and only if that happens to a listed name, provided the skills approved before have slash-free names |
| SkillLoading.LoadAllIff | python/src/pylakekeeper/agents/skills.py:279-281 | for any names at all: `load_all` succeeds if and only if each listed name was last moved by an approval before its load |
| SkillLoading.RevokedWhileLoading | python/src/pylakekeeper/agents/skills.py:279-281 | for any slash-free name a run in which it is listed, revoked and then not loaded |
| SkillLoading.LoadingCanBeTooLate | python/src/pylakekeeper/agents/skills.py:279-281 | one such run |
| SkillLoading.LoadAllNeverFails | python/src/pylakekeeper/agents/skills.py:270-281 | the quiet case: with nothing between listing and loads, every listed name loads, at every moment of such a run |
| SkillLoading.PlainProposalsLoad | python/src/pylakekeeper/agents/skills.py:231-281 | `load_all` fails under the same condition in any run whose proposals before the listing are plain and have slash-free names |
| SkillLoading.ProposeAndApprove | python/src/pylakekeeper/agents/skills.py:231-336 | the library that filing and approving one proposal leaves is reachable, and is its record and its pointer |
| SkillLoading.SlashedNameFailsLoadAll | python/src/pylakekeeper/agents/skills.py:270-281 | for any a and b a run that files and approves a/b ends with a listed, which does not load |
| SkillLoading.LoadAllCanFail | python/src/pylakekeeper/agents/skills.py:270-281 | one such run |
| SkillTheorems.KeysNormal | python/src/pylakekeeper/agents/skills.py:334-335 | no key of the library starts with a slash, in any reachable state |
| SkillTheorems.ApprovalBacksPointer | python/src/pylakekeeper/agents/skills.py:331-336 | an approval leaves its pointer with a record of the same version if and only if it files the record there or one stood there |
| SkillTheorems.SlashedApproval | python/src/pylakekeeper/agents/skills.py:331-336 | the family of approvals that do not: a/b read as version b/v of a |
| SkillTheorems.SlashedApprovalHappens | python/src/pylakekeeper/agents/skills.py:331-336 | one member of that family |
| Memory.LiteralReads | python/src/pylakekeeper/agents/memory.py:55-56 | a quoted path read back as a literal is the path, with nothing after it (section 5.3 of SQL-92) |
| Memory.PredicateSelects | python/src/pylakekeeper/agents/memory.py:298-305 | the delete predicate selects exactly its path, whatever quotes it contains |
| Memory.PredicateExample | python/src/pylakekeeper/agents/memory.py:305 | the predicate for a path with a quote |
| Memory.MemoryStore.Put | python/src/pylakekeeper/agents/memory.py:118-140 | the entry is written even if indexing fails; indexing raises exactly for an absent table or for a pin that names another model, and else the row holds the embedding of the index text or the body |
| Memory.MemoryStore.Index | python/src/pylakekeeper/agents/memory.py:258-296 | an absent table and a pin of another model are refused, exactly; else one row per path, with the embedding of the index text or the body |
| Memory.MemoryStore.ForgetVector | python/src/pylakekeeper/agents/memory.py:298-305 | rows of exactly that path go; an absent table is no error, a pin of another model is |
| Memory.MemoryStore.Delete | python/src/pylakekeeper/agents/memory.py:150-154 | entry and rows of the path go together, the rows not exactly when the table is absent or pinned to another model |
| Memory.EntryIs | python/src/pylakekeeper/agents/memory.py:138-152 | after any calls an entry is there if and only if some put of its name was not followed by a delete or another put, and it holds that put's text |
| Memory.MemoryStore.Get | python/src/pylakekeeper/agents/memory.py:142-144 | the text of the last put under the path, and a miss exactly if there was none or it was deleted since |
| MemoryProofs.IndexedPut | python/src/pylakekeeper/agents/memory.py:118-140 | an indexed put keeps entries and rows equal if and only if its path has no leading slash |
| MemoryProofs.UnindexedPut | python/src/pylakekeeper/agents/memory.py:138-140 | an unindexed put keeps them equal if and only if it changes nothing |
| MemoryProofs.DeleteAgrees | python/src/pylakekeeper/agents/memory.py:150-154 | a delete keeps them equal if and only if its path is normalised or names no entry |
| MemoryProofs.RowsBacked | python/src/pylakekeeper/agents/memory.py:138-154 | any run leaves at most one row per path, and with plain paths and deletes that reach the table rows only for existing entries |
| MemoryProofs.IndexAgrees | python/src/pylakekeeper/agents/memory.py:138-154 | when every put is indexed and every delete reaches the table, rows and entries have equal paths and texts after any run |
| MemoryProofs.StaleRow | python/src/pylakekeeper/agents/memory.py:139-140 | put, then put without indexing: the row keeps the old text |
| MemoryProofs.OrphanRow | python/src/pylakekeeper/agents/memory.py:298-305 | put "/a", delete "a": the row outlives the entry |
| MemoryProofs.PinnedRows | python/src/pylakekeeper/agents/memory.py:221-231 | whatever stores with whatever embedders do to a pinned table, it keeps its pin, and every row they add is what the pinned model made of its text |
| Recall.SearchMany | python/src/pylakekeeper/agents/memory.py:190-212 | denied scopes drop out, any other failure surfaces, and the result is the k nearest rows of the union of all readable scopes, sorted |
| Recall.MergedNearest | python/src/pylakekeeper/agents/memory.py:211-212 | the first k of the merged per-scope hits are k nearest rows of the union |
| Recall.NearestDistances | python/src/pylakekeeper/agents/memory.py:203-212 | any such result has exactly the k smallest distances a single central search would give |
| Recall.HitsFromTheirScope | python/src/pylakekeeper/agents/memory.py:178-187 | every hit is a row of the readable scope it names |
| MemoryRecall.HitsAreCurrent | python/src/pylakekeeper/agents/memory.py:190-212 | over scopes filled by their own calls, all indexed, every hit of the fan-out is an existing entry of the readable scope it names, with its current text |
| LangGraph.LakekeeperStore.GetOne | python/src/pylakekeeper/agents/langgraph.py:132-145 | the item at the address, a miss, or the error of an invalid address or foreign text |
| LangGraphProofs.GetItemIs | python/src/pylakekeeper/agents/langgraph.py:132-145 | a get fails exactly for a bad address or a foreign text, and misses exactly when nothing is stored |
| LangGraph.LakekeeperStore.PutOne | python/src/pylakekeeper/agents/langgraph.py:147-165 | the first write dates the entry, later writes keep that date; errors change nothing |
| LangGraph.LakekeeperStore.DeleteOne | python/src/pylakekeeper/agents/langgraph.py:147-151 | exactly that entry goes |
| LangGraph.LakekeeperStore.Batch | python/src/pylakekeeper/agents/langgraph.py:243-257 | operations run in order and stop at the first that raises, with the effects so far |
| LangGraph.LakekeeperStore.Collect | python/src/pylakekeeper/agents/langgraph.py:183-207 | the page is one window of what decodes and fits the filter, in order |
| LangGraph.LakekeeperStore.Search | python/src/pylakekeeper/agents/langgraph.py:167-207 | ranked hits under the prefix in their order, or every listed path exactly once, as one window |
| LangGraph.LakekeeperStore.ListNamespaces | python/src/pylakekeeper/agents/langgraph.py:209-222 | one window of the sorted duplicate-free set of cut namespaces in use that meet every condition |
| LangGraph.MatchesOne | python/src/pylakekeeper/agents/langgraph.py:226-238 | a condition holds if and only if each pattern is `*` or the segment aligned with it, from the front or the back |
| LangGraph.Matches | python/src/pylakekeeper/agents/langgraph.py:225-239 | all conditions hold |
| LangGraphProofs.PrefixHolds | python/src/pylakekeeper/agents/langgraph.py:228-238 | a prefix condition holds if and only if its patterns match some beginning of the namespace, `*` any segment |
| LangGraphProofs.SuffixHolds | python/src/pylakekeeper/agents/langgraph.py:230-238 | a suffix condition, some end of it |
| LangGraphProofs.CutIs | python/src/pylakekeeper/agents/langgraph.py:216-217 | a depth keeps that many segments from the front, a negative one drops them at the end |
| Ordering.StringLeIs | python/src/pylakekeeper/agents/langgraph.py:221 | texts are ordered by the first character in which they differ, the smaller first |
| Ordering.TupleLeIs | python/src/pylakekeeper/agents/langgraph.py:221 | tuples by their first components, then by the rest |
| LangGraph.StoppedBatch | python/src/pylakekeeper/agents/langgraph.py:243-257 | nothing after a raising operation has an effect |
| LangGraphProofs.PathInjective | python/src/pylakekeeper/agents/langgraph.py:68-82 | different valid addresses have different paths |
| LangGraphProofs.SplitPathInverse | python/src/pylakekeeper/agents/langgraph.py:77-92 | splitting a path gives its address back if and only if the namespace is not empty |
| LangGraphProofs.AddressIs | python/src/pylakekeeper/agents/langgraph.py:68-82 | an address is refused exactly for an empty segment or key or one with a slash |
| LangGraphProofs.PathIs | python/src/pylakekeeper/agents/langgraph.py:82 | segments and key below each other, with the suffix |
| LangGraph.Unwrap | python/src/pylakekeeper/agents/langgraph.py:107-119 | missing dates read as now, others as they are |
| LangGraphProofs.PathOfSplit | python/src/pylakekeeper/agents/langgraph.py:84-92 | any path that splits, whoever wrote it, is the path of slash-free parts, which are what it splits into |
| LangGraphProofs.MapItemIs | python/src/pylakekeeper/agents/langgraph.py:153-165 | the value is that of the last put, `created_at` of the first put since the last delete, `updated_at` of the last put |
| LangGraphProofs.StepRefines | python/src/pylakekeeper/agents/langgraph.py:132-165 | each operation answers like a map keyed by (namespace, key) and keeps the objects equal to it |
| LangGraphProofs.BatchIsMap | python/src/pylakekeeper/agents/langgraph.py:243-257 | on a store with any history a batch answers as the map of that history would up to its first invalid address, leaves that map's entries, and raises exactly if there is one |
| LangGraphProofs.BatchesAreMap | python/src/pylakekeeper/agents/langgraph.py:243-257 | any batches, failed ones included, leave the map of all that got done |
| Paths.JoinedPrefix | python/src/pylakekeeper/agents/langgraph.py:181 | one joined path is a string prefix of another if and only if segments match, the last only as a prefix |
| Paths.JoinedPrefixSlash | python/src/pylakekeeper/agents/langgraph.py:175-179 | with a slash after it, if and only if the tuple is a proper prefix |
| LangGraphProofs.UnderPrefix | python/src/pylakekeeper/agents/langgraph.py:175-179 | a path of slash-free parts starts with the joined prefix and a slash if and only if the prefix is a tuple prefix of its namespace |
| LangGraphProofs.RankedSearch | python/src/pylakekeeper/agents/langgraph.py:171-207 | whatever rows the index holds, and for any prefix, ranked results all lie under its segments, have each field the filter asks for (or lack one asked to be null), and scores never rise |
| LangGraphProofs.FitsIs | python/src/pylakekeeper/agents/langgraph.py:194 | a missing field reads as null, any other must be equal |
| LangGraphProofs.ListedFits | python/src/pylakekeeper/agents/langgraph.py:181-207 | items of a search without a query fit the filter likewise and have no score |
| LangGraphProofs.SegmentsAre | python/src/pylakekeeper/agents/langgraph.py:168 | for non-empty slash-free segments these are the prefix itself |
| LangGraphProofs.RankedMissesNothing | python/src/pylakekeeper/agents/langgraph.py:171-207 | a hit under the prefix is shown before the window, with score 1/(1+distance), if and only if it has each field the filter asks for |
| LangGraphRecall.CallsHoldMap | python/src/pylakekeeper/agents/langgraph.py:132-165 | the memory calls behind the operations leave the entries that print the map of their history |
| LangGraphRecall.RowsWritten | python/src/pylakekeeper/agents/langgraph.py:160-165 | every row of the index is one that a put wrote: the printed item under its path, its value embedded |
| LangGraphRecall.RankedItemsAreCurrent | python/src/pylakekeeper/agents/langgraph.py:171-207 | when every put is indexed, each item of a ranked search is exactly the map's item under its address, with its dates |
| LangGraphProofs.ListedExactly | python/src/pylakekeeper/agents/langgraph.py:181 | the listing branch finds exactly the paths that match loosely, so at least all under the prefix |
| LangGraphProofs.ListingMissesNothing | python/src/pylakekeeper/agents/langgraph.py:181-207 | a stored entry under the prefix is shown before the window if and only if it has each field the filter asks for |
| LangGraphProofs.ListingIsLoose | python/src/pylakekeeper/agents/langgraph.py:181 | a search of `memories` lists an entry of `memories2` |
| LangGraphProofs.InUseIs | python/src/pylakekeeper/agents/langgraph.py:211-218 | the namespaces in use are exactly those, cut to the depth, under which some entry lies, whoever wrote it |
| LangGraphProofs.ListingUnique | python/src/pylakekeeper/agents/langgraph.py:220-221 | two listings of the same entries under the same conditions are the same list |
| LangGraphProofs.PagesTile | python/src/pylakekeeper/agents/langgraph.py:222 | n consecutive pages, each as its own call answers it, are the listing's first n x size namespaces |
| LangGraphProofs.AllPages | python/src/pylakekeeper/agents/langgraph.py:222 | enough pages of any positive size concatenate to the whole listing |
| LangGraphProofs.EmptyPageEnds | python/src/pylakekeeper/agents/langgraph.py:222 | so do all pages up to the first empty one |
| Objects.ObjectStore.Put | python/src/pylakekeeper/objects.py:93-99 | through the prefix the store is a map with that key, modulo leading slashes, updated |
| Objects.ObjectStore.Get | python/src/pylakekeeper/objects.py:101-104 | that map's value, or a miss |
| Objects.ObjectStore.Delete | python/src/pylakekeeper/objects.py:116-117 | that map without the key |
| Objects.ObjectStore.List | python/src/pylakekeeper/objects.py:106-114 | exactly the map's keys under the prefix, each once, across pages |
| Objects.StoreIsMap | python/src/pylakekeeper/objects.py:90-117 | any run of writes and deletes refines a map |
| Objects.SharedMeansNested | python/src/pylakekeeper/objects.py:90-91 | two stores reach a common object only if their prefixes are nested |
| Objects.NestedIs | python/src/pylakekeeper/objects.py:90-91 | prefixes are nested only up to a slash: a and ab are not |
| Objects.NonInterference | python/src/pylakekeeper/objects.py:90-117 | with prefixes that are not nested, no run on one store changes what the other reads or lists |
| Percent.SafeBytes | python/src/pylakekeeper/url.py:68 | which bytes Python and Java leave alone (section 2.3 of RFC 3986) |
| Percent.DecodeEncode | python/src/pylakekeeper/url.py:68 | percent-decoding undoes encoding with any table that escapes `%`, on every byte sequence (section 2.1 of RFC 3986) |
| Percent.DecodeForm | java/core/src/main/java/io/lakekeeper/client/auth/RefreshableAuth.java:178-180 | form decoding undoes form encoding on every byte sequence |
| Percent.HexValueIs | java/core/src/main/java/io/lakekeeper/client/auth/AuthorizationCodeFlow.java:250-252 | hexadecimal digits of either case, and nothing else |
| Percent.EscapedIs | java/core/src/main/java/io/lakekeeper/client/auth/AuthorizationCodeFlow.java:250-252 | an escape is two such digits; in forms also a plus and a digit, or minus zero |
| Percent.JavaPathEncoding | java/core/src/main/java/io/lakekeeper/client/NamespaceEncoder.java:56-62 | form encoding with `+` replaced is plain percent-encoding with another table |
| Percent.SameEncoding | java/core/src/main/java/io/lakekeeper/client/NamespaceEncoder.java:56-62 | two tables encode a text alike if and only if they agree on each of its bytes |
| Namespaces.NamespaceRoundTrip | python/src/pylakekeeper/url.py:56-68 | decoding an encoded namespace gives its levels if and only if none is empty or holds U+001F |
| Namespaces.ParseJoined | python/src/pylakekeeper/url.py:39-53 | parsing a joined namespace gives its levels if and only if it is not one level with a dot |
| UrlExamples.ParseDotted | python/src/pylakekeeper/url.py:39-44 | both clients read a dotted text as the levels between its dots |
| UrlExamples.ParseSeparated | python/src/pylakekeeper/url.py:40-44 | a text with U+001F is split there, dots and all |
| UrlExamples.EncodeExample | python/src/pylakekeeper/url.py:63-64 | the documented example ai%1Ftest |
| UrlExamples.JavaEncodeExample | java/core/src/main/java/io/lakekeeper/client/NamespaceEncoder.java:54-58 | the same in Java |
| UrlExamples.ParseExample | python/src/pylakekeeper/url.py:32-33 | the documented example ai.test |
| Namespaces.SameParse | java/core/src/main/java/io/lakekeeper/client/NamespaceEncoder.java:30-36 | both clients parse every textual namespace alike, although Java drops trailing empties first |
| Namespaces.SameDecoding | java/core/src/main/java/io/lakekeeper/client/NamespaceEncoder.java:47-62 | both clients' encodings decode to the same levels |
| Namespaces.SameEncodingIff | java/core/src/main/java/io/lakekeeper/client/NamespaceEncoder.java:60-62 | they are the same text if and only if no level holds `~` or `*` |
| Namespaces.TablePathInjective | python/src/pylakekeeper/generic_tables.py:45-52 | different (warehouse, levels, name) never share a table path |
| UrlExamples.TablePathParts | python/src/pylakekeeper/generic_tables.py:45-52 | the eight parts of a table path between its slashes |
| UrlExamples.TablePathReads | python/src/pylakekeeper/generic_tables.py:45-52 | warehouse, levels and name are read back from the fourth, sixth and eighth |
| Forms.PrintForm | java/core/src/main/java/io/lakekeeper/client/auth/RefreshableAuth.java:172-176 | the joiner's loop prints the encoded pairs joined by `&` |
| Forms.ParseQuery | java/core/src/main/java/io/lakekeeper/client/auth/AuthorizationCodeFlow.java:243-255 | the loop computes the ordered map of the decoded and mended pairs, or fails where the decoder does |
| UrlExamples.ParseParts | java/core/src/main/java/io/lakekeeper/client/auth/AuthorizationCodeFlow.java:247-252 | a pair is cut at its first equals sign; without one the value is empty |
| Text.DropTrailingIs | java/core/src/main/java/io/lakekeeper/client/auth/AuthorizationCodeFlow.java:246 | splitting drops exactly the empty parts at the end |
| UrlExamples.FormExample | java/core/src/main/java/io/lakekeeper/client/auth/RefreshableAuth.java:178-180 | a space is a plus, an ampersand is escaped |
| UrlExamples.PairsExample | java/core/src/main/java/io/lakekeeper/client/auth/RefreshableAuth.java:172-176 | a form of two pairs |
| Forms.FormRoundTrip | java/core/src/main/java/io/lakekeeper/client/auth/AuthorizationCodeFlow.java:243-255 | parsing a printed map of well-formed texts gives the map back in its order, whatever its keys and values hold, empty ones included |
| Forms.ReparseSame | java/core/src/main/java/io/lakekeeper/client/auth/AuthorizationCodeFlow.java:243-255 | printing and parsing what was parsed from any text changes nothing |

## Left out

- TokenUse.ReturnedIsFresh: the clock starts less than the margin below zero; Python's monotonic clock does, Java's need not.
- TokenTiming.LateInvalidateFailsCaller: shown for `ClientCredentials`; the other flavours take the same steps after their login, and Java then formats null instead of asserting.
- DeviceFlow.Acquire: the answer of a poll is one value, so a 200 whose body has no token counts as any other failed authorization.
- AuthCache.TokenCache.EnsureToken: one caller at a time; concurrency is the subject of the Token modules.
- SkillTheorems.LibrarySound: versions tell apart the documents ever proposed (a finite set); twelve hexadecimal digits cannot tell apart all texts.
- SkillLoading.LoadAllIff: a listing of the approved table is one step, and so is each load.
- Memory.MemoryStore.Put: the entry and its row are written one call at a time; calls of other clients between the two writes, and inside a LangGraph put or search, are not modelled.
- SkillProtocol.StepInv: reviewers pass versions without a slash, which is what the queue listing yields; what happens otherwise is SkillTheorems.SlashedApproval.
- Objects.ObjectStore.Delete: deleting an absent object is silent, as on S3; Azure and GCS raise.
- Memory.MemoryStore.Index: an embedder that fails and vectors of the wrong length are not modelled; rows of the index are a list, not a Lance dataset.
- LangGraph.LakekeeperStore.GetOne: JSON and timestamp text are an envelope value, so a text that is JSON but no object counts as undecodable; values are compared as JSON texts.
- LangGraph.LakekeeperStore.Batch: gets, puts and deletes of a store without embedder; searches and listings are separate methods. With an embedder that takes every call, LangGraphRecall says what the memory holds.
- LangGraphRecall.CallsHoldMap: which fields of a value are embedded is part of the embedding, one for all puts.
- LangGraph.LakekeeperStore.Search: how many hits the recall table is asked for, and their order, are the caller's input.
- Forms.ParseQuery: characters outside ASCII are their UTF-8 bytes, and what reading ill-formed bytes makes of them is a parameter; URLDecoder also reads digits of other scripts in an escape, which the model rejects.
- Interactive logins (browser, loopback server, prompts, PKCE hashing and random state) are one request with an arbitrary answer.
- The static token, project header and mapping of status codes of 400 and above to exceptions: one branch each.
- Queue-table override, `whoami`, `ensure_tables` and `list_rejected` of the skill store: wrappers or repetitions.
- Which principal may call what: grants are enforced by the catalog and the storage, not by this code.
- Storage and table SDKs, file systems, Lance options and Spark configuration: lookups or library calls.
- List pagination of tables and warehouses: a loop over opaque page tokens.
