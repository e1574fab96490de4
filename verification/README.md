# A verified model of the chassis

The repository is a multi-tenant web application: a chassis (accounts, organisations, keys, rate
limits, administration) and slots built on it. This project models the parts of it that hold state
machines, loops and arithmetic, and proves what they are for. Code that updates things step by step is
modelled by classes and methods, proved against specification functions; runs, interleavings and
histories are sequences of events over those functions, and the main theorems speak about all of them.

| file | what it models |
|---|---|
| `Options.dfy`, `Text.dfy`, `Utf8.dfy` | missing values; trimming, splitting, joining, decimals; UTF-8 (section 4 of RFC 3629) |
| `TextLaws.dfy`, `LineLaws.dfy` | what the string operations and the line readers mean: the only results that fit their patterns |
| `Lockout.dfy` | the account lockout clock machine (NIST SP 800-53 control AC-7) |
| `RateLimit.dfy` | both fixed-window limiters over one expiring Redis counter; 429 is section 4 of RFC 6585, Retry-After section 10.2.3 of RFC 9110 |
| `Inline.dfy`, `Blocks.dfy`, `Printing.dfy`, `Renderer.dfy` | the documentation renderer: escaping and inline rewrites, block grammar, printing, and the one-pass scanner |
| `Tenancy.dfy` | tenant-scoped tables, the select filter, the insert stamp and the one way around them |
| `Requests.dfy`, `Sharing.dfy`, `Isolation.dfy`, `Answers.dfy` | requests as processes with their own context variable that interleave at every await; invariants and histories; noninterference; what each request answers |
| `KeyStore.dfy` | LLM provider keys and the two resolvers |
| `Retry.dfy` | the three retry loops and their alerts |
| `ToolLoop.dfy` | the bounded tool-calling loop and its transcript |
| `BackupCodes.dfy` | multi-factor enrolment and backup-code batches |
| `Memberships.dfy` | the default organisation of a user |
| `Overlaps.dfy` | what overlapping calls do to the one default membership and the one active key |
| `OverlappingLogins.dfy` | what overlapping logins do to the guessing bound and to single-use backup codes |
| `FaqMatch.dfy` | tiered FAQ matching and the match within a category |
| `ApprovalGate.dfy` | staging and confirming generated FAQs |
| `FolderText.dfy` | bounded reading of a connected folder |

`dafny verify dfyconfig.toml` checks everything.

## Where the code and its documentation disagree

The model follows the code.

- `app/slots/greeting/providers/rate_limit.py:2` promises 1,000 requests per rolling 60 minutes. The
  window is aligned: from every instant that is no bucket boundary twice the limit can pass within one
  window length (`RateLimit.TwiceTheLimitIsReached`), and never more (`RateLimit.AtMostTwiceTheLimit`).
  The promise is kept exactly from the bucket boundaries, or when the limit lets nothing through
  (`RateLimit.RollingWindowHoldsExactly`).
- Both limiters announce the store's reply as Retry-After, and the store rounds to the nearest second.
  The announcement falls short exactly when it is rounded down by more than the first request came after
  the start of the bucket (`RateLimit.RetryAfterExact`), as in `RateLimit.NearestSecondFallsShort`.
- `app/auth/mfa.py:113-115` says that confirming twice is refused as not started. It never is: an enrolled
  user who confirms again is refused exactly for a code that is not live, and otherwise gets a new batch
  (`BackupCodes.ConfirmingAgainReplacesBatch`).
- `app/slots/accessibility_assistant/service.py:2670` calls its limit `max_bytes`; it counts characters.
  `FolderText.LimitCountsCharacters` is a file that exceeds it in bytes, `FolderText.LimitInBytesExactly`
  says when the limit holds in bytes.
- `app/slots/accessibility_assistant/service.py:2674` says that files which do not decode are skipped. Only
  what does not decode is dropped: `FolderText.UndecodableFileIsRead` is such a file, and a file is skipped
  exactly if no well-formed character starts anywhere in it (`FolderText.SkippedExactly`).
- `app/llm/service.py:106-107` promises at most one active key per scope and provider. Calls one after
  another keep it; overlapping ones can break it, and then an older key comes back
  (`Overlaps.OlderKeyComesBack`). The calls alone decide: it is kept exactly if whenever a call stores its
  key, the key stored in the slot before has been retired (`Overlaps.OneActiveExactly`). Likewise for the
  one default membership (`Overlaps.TwoDefaults`, `Overlaps.OneDefaultExactly`).
- `app/auth/models.py:92-93` says that a used backup code never verifies again. Of logins one after another
  that is so (`BackupCodes.AcceptedAsOftenAsIssued`); two overlapping ones can both be accepted on one row
  (`OverlappingLogins.AcceptedTwice`). Each accepted code has a row of its own exactly if no login spends a
  row that another has spent since the login found it (`OverlappingLogins.OneRowPerAcceptedExactly`).
- `app/auth/service.py:58-63` allows three attempts in 15 minutes. Any number of logins that load the row
  together have their password compared (`OverlappingLogins.GuessesAtOnce`); the guessing bound survives
  overlaps in which each login finds the row as it loaded it (`OverlappingLogins.GuessingBoundIfAsLoaded`).

## Model

| member | source | states |
|---|---|---|
| Lockout.User.constructor | app/auth/service.py:147-156 | a new account starts with no failures and no lock |
| Lockout.Authenticate | app/auth/service.py:159-221 | for an unknown, inactive or locked account nothing is compared and nothing changes; otherwise the three columns and the outcome are those of the policy, the seconds reported being the rest of the lock or 30 minutes |
| Lockout.ReachableInvariant | app/auth/service.py:182-220 | over every run with a clock that never goes back: at most 3 failures are counted, 3 means locked until the last failure plus 30 minutes, and a lock left over from an earlier chain has expired |
| Lockout.LockWindow | app/auth/service.py:182-220 | the account is locked exactly in the half hour after the third failure; an attempt then neither compares nor changes anything; the first failure afterwards counts as one again |
| Lockout.CounterIsStreak | app/auth/service.py:182-221 | over every run, read off the attempts alone: the counter is the length of the last streak of compared failures, the last failure is its end, and the account is locked exactly within 30 minutes of a third |
| Lockout.StreakIsLongest | app/auth/service.py:193-202 | the streak is the longest run of failures at the end without a success or a gap over 15 minutes |
| Lockout.SuccessClears | app/auth/service.py:215-220 | a right password that is compared leaves no failure, no time of one and no lock, whatever came before |
| Lockout.GuessingBound | app/auth/service.py:61-63 | from any reachable row, N failed comparisons in L microseconds without a success satisfy 15 minutes times (N - 3) <= 2 L |
| Lockout.ThreePerWindow | app/auth/service.py:58-63 | within 15 minutes at most 3 comparisons can fail, and after the third the account is locked |
| Lockout.GuessingBoundIsTight | app/auth/service.py:61-63 | for every number of rounds there is a run that meets the guessing bound up to two microseconds a round, so no better rate holds |
| OverlappingLogins.GuessingBoundIfAsLoaded | app/auth/service.py:171-213 | the guessing bound holds however logins overlap, as long as each finds the row as it loaded it |
| OverlappingLogins.GuessesAtOnce | app/auth/service.py:171-213 | otherwise there is no bound: any number of logins that load a fresh row together are all compared, and the row counts one failure and is not locked |
| RateLimit.Redis.Incr | app/ratelimit/middleware.py:73 | the counter a client reads is one more than the live count; a dead or missing entry starts again at one, without expiry |
| RateLimit.Redis.Expire | app/ratelimit/middleware.py:74-75 | sets the expiry of a live entry and leaves all others alone |
| RateLimit.Dispatch | app/ratelimit/middleware.py:41-91 | exempt paths touch no counter; any other request is counted once under its own key and passes exactly if the live count before it was below the limit |
| RateLimit.ClientExact | app/ratelimit/middleware.py:41-49 | who is counted: the text of the header before its first comma without the white space around it, whatever the peer; without a header the peer; without both a constant |
| RateLimit.SharedCounter | app/ratelimit/middleware.py:64-67 | within a bucket two forwarded requests share a counter if and only if their first addresses agree |
| RateLimit.ExemptExact | app/ratelimit/middleware.py:38 | a path is exempt if and only if it begins with one of the five prefixes |
| RateLimit.LimitsInForce | app/ratelimit/middleware.py:64-65 | callers are held to the configured limit, the window being at least a second, an organisation's greetings to 1000 an hour |
| RateLimit.Check | app/slots/greeting/providers/rate_limit.py:40-64 | the same for the per-organisation ceiling of 1000 in 3600 seconds |
| RateLimit.KeyInjective | app/ratelimit/middleware.py:64-67 | no two (client, bucket) pairs share a key, whatever the client calls itself, and the two limiters share none |
| TextLaws.DecimalExact | app/ratelimit/middleware.py:67 | the bucket in a key is its decimal numeral, of the right value and without a leading zero |
| RateLimit.StoreRefinesHistory | app/ratelimit/middleware.py:69-75 | after any run of all clients the store holds, for every bucket that still matters, the full count of its requests with an expiry of one window after the first |
| RateLimit.LastCounter | app/ratelimit/middleware.py:79-82 | after any request its counter is in the store and lives for one window from the first hit of its bucket, so the reply to the TTL query is its remaining life, rounded |
| RateLimit.AdmissionIsHistorical | app/ratelimit/middleware.py:64-78 | a request passes if and only if fewer than the limit of earlier requests of the same client fall into its aligned bucket: expiry never loses a count that matters |
| RateLimit.ScopesDoNotInterfere | app/slots/greeting/providers/rate_limit.py:14-16 | deleting every other client's requests from the run changes no decision |
| RateLimit.AdmittedPerBucket | app/ratelimit/middleware.py:64-78 | each bucket lets through all its requests up to the limit and not one more |
| RateLimit.AtMostTwiceTheLimit | app/slots/greeting/providers/rate_limit.py:8-13 | in any interval of one window length a client gets at most twice its limit through |
| RateLimit.TwiceTheLimitIsReached | app/slots/greeting/providers/rate_limit.py:1-3 | the rolling-window promise fails: from every instant that is no bucket boundary, whatever the limit, a run gets twice that many requests through within one window length |
| RateLimit.RollingWindowHoldsExactly | app/slots/greeting/providers/rate_limit.py:1-3 | every run keeps to the limit for one window length from an instant if and only if the instant is a bucket boundary or the limit is not positive |
| RateLimit.RetryAfterExact | app/ratelimit/middleware.py:79-89 | with the store's own reply, the remaining life to the nearest second, waiting as announced reaches a later bucket for the last request of any run, except exactly when the reply is rounded down and the bucket was first hit closer to its start than what the rounding drops |
| RateLimit.RetryAfterSufficient | app/slots/greeting/providers/rate_limit.py:59-64 | the announcement lies between 1 and the window; it suffices when the query fails, and so would any reply that does not under-report the remaining life |
| RateLimit.NearestSecondFallsShort | app/ratelimit/middleware.py:79-89 | a run in which 59.4 seconds remain, the store announces 59, and the client comes back in the same bucket |
| Inline.EscapeRoundTrip | app/admin/docs_service.py:173 | escaping loses nothing: the source text can be read back |
| Inline.EscapeClean | app/admin/docs_service.py:173 | escaped text consists of plain characters and the five entities |
| Inline.MatchExact | app/admin/docs_service.py:94-97 | the scan finds a match exactly where the pattern of the rewrite fits, and no pattern fits in two ways at one place |
| Inline.PiecesLossless | app/admin/docs_service.py:105-119 | a rewrite takes the text apart without losing, reordering or inventing a character |
| Inline.RewriteClean | app/admin/docs_service.py:105-119 | a rewrite never splits a tag or an entity that an earlier one, or escaping, has written |
| Inline.InlineClean | app/admin/docs_service.py:105-119 | whatever the escaped text, after all four rewrites every angle bracket, quote and ampersand belongs to an entity, a format tag or a whole link: an allowed target without quotes in its own attribute, caption, end tag |
| Inline.LinkTargetsSafe | app/admin/docs_service.py:111-118 | whatever text is escaped and formatted, no link the link pass finds has a target with a double quote; it is written as a link exactly if the target has an allowed scheme, else as its bare caption |
| Inline.SafeTargetExact | app/admin/docs_service.py:114 | a target is allowed if and only if it begins with one of the five prefixes |
| Inline.FormattingLeavesAlone | app/admin/docs_service.py:105-111 | the link pass receives the escaped text itself, targets included, if and only if no code, bold or italic match lies in it |
| Blocks.FirstTakesLines | app/admin/docs_service.py:148-244 | every step of the block grammar consumes at least one line, from the front, so the scan ends |
| Blocks.ParseLossless | app/admin/docs_service.py:148-244 | every line is consumed exactly once, in order; each block has the kind its first line decides and is as long as it can be |
| Blocks.ParseUnique | app/admin/docs_service.py:148-244 | no other grouping of the lines meets these conditions |
| LineLaws.KindExact | app/admin/docs_service.py:148-244 | no line fits the patterns of two kinds, so the order of the tests does not matter: a line starts the one kind it fits, and text if it fits none |
| LineLaws.TestsExact | app/admin/docs_service.py:148-177 | a fence begins with three backticks behind white space, a quotation with `>`, a row with a bar; a blank line is white space; a rule is three or more dashes or asterisks |
| LineLaws.HeadingExact | app/admin/docs_service.py:98 | a heading is read with a level and a title if and only if the trimmed line is that many hashes, one to six, white space, and the title |
| LineLaws.BulletExact | app/admin/docs_service.py:99 | a bullet is read with a text if and only if the trimmed line is a dash or an asterisk, white space, and that text |
| LineLaws.NumberedExact | app/admin/docs_service.py:100 | a numbered item is read with a text if and only if the trimmed line is digits, a dot, white space, and that text |
| LineLaws.ItemExact | app/admin/docs_service.py:225-239 | what is printed for a list line is the text its pattern reads |
| LineLaws.SeparatorExact | app/admin/docs_service.py:102 | a line separates a table's header if and only if it is two or more cells of dashes, colons allowed at their ends, with bars between and perhaps around them |
| LineLaws.CellsExact | app/admin/docs_service.py:122-124 | the cells of a row are those that, padded and joined with bars, give back the row up to its outer bars, and no others |
| LineLaws.QuoteExact | app/admin/docs_service.py:214 | the text of a quoted line is what follows its marks, trimmed, and nothing else |
| TextLaws.UnixNewlinesExact | app/admin/docs_service.py:134 | only pairs of carriage return and new line are replaced, each by one new line |
| TextLaws.SpaceExact | app/admin/docs_service.py:150 | the white space that is trimmed is Python's, character by character |
| TextLaws.StripExact | app/admin/docs_service.py:150 | trimming cuts off white space at both ends and nothing else, and leaves none there |
| Printing.DocumentWellNested | app/admin/docs_service.py:127-247 | whatever the source, the output is the text of events in which every block tag is closed again in order, each element stands only where its parent allows it, and no block opens inside text |
| Printing.NestingRefuses | app/admin/docs_service.py:127-247 | what those nesting rules refuse: text outside an inline-bearing element, an end tag that is not the innermost, a rule inside an element |
| Printing.TagsExact | app/admin/docs_service.py:155-243 | the start and end tag of every element, letter by letter |
| Printing.DocumentClean | app/admin/docs_service.py:127-247 | whatever the source, the whole output is made of the renderer's own tags, whole links, the five entities and harmless characters |
| Printing.SourceConsumedOnce | app/admin/docs_service.py:134-244 | for any source, the lines of the blocks joined again are the source with unix line ends, so no character is dropped, repeated or moved |
| Printing.DocumentTags | app/admin/docs_service.py:127-247 | every `<` in the output for any source starts one of the renderer's fixed tags, or an anchor with an allowed target without a quote that is closed right behind it |
| Printing.DocumentAnchors | app/admin/docs_service.py:111-118 | wherever an anchor starts in the output for any source, its target is an allowed one without a quote, and the attribute and the tag end right behind it |
| Renderer.RenderMarkdown | app/admin/docs_service.py:127-247 | the one-pass scanner with its paragraph buffer computes the two-phase specification, parse into blocks and then print, on every source text |
| Renderer.FlushPara | app/admin/docs_service.py:142-146 | an empty buffer prints nothing, a full one a single paragraph, and it is empty afterwards |
| Renderer.FencedBlock | app/admin/docs_service.py:152-162 | an opened fence prints everything up to the closing fence, or to the end, as one code block and continues behind it |
| Renderer.TableBlock | app/admin/docs_service.py:186-207 | header, separator and all consecutive rows that start with a bar print as one table |
| Renderer.Cells | app/admin/docs_service.py:191-204 | one cell per stripped column, formatted and tagged |
| Renderer.QuoteBlock | app/admin/docs_service.py:209-217 | all consecutive quoted lines print as one quotation |
| Renderer.ListBlock | app/admin/docs_service.py:219-239 | all consecutive lines with a bullet, or with a number, print as one list |
| Renderer.Flushed | app/admin/docs_service.py:142-146 | at a line that is not paragraph text, flushing prints exactly the paragraph block of the buffered lines |
| Tenancy.Session.InjectOrgOnInsert | app/db.py:265-286 | every new instance without an organisation gets the bound one; an explicit one is never overwritten; with none bound nothing changes |
| Tenancy.Session.Execute | app/db.py:240-262 | with an organisation bound a select is narrowed to its rows, with none bound it is not filtered |
| Tenancy.Session.SelectOwnOrgOrShared | app/slots/accessibility_assistant/service.py:405-420 | finds exactly the organisation's own and the shared rows, whatever is bound, and the binding is back afterwards even if the query fails |
| Tenancy.Session.GetOwnOrgOrSharedOne | app/slots/accessibility_assistant/service.py:423-428 | the row with that key if it is own or shared, otherwise none |
| Answers.BeginExact | app/db.py:240-262 | a served request begins with the loaded role and its own organisation bound; which requests are served for which tables |
| Answers.EventExact | app/db.py:240-262 | a promotion or demotion touches one user's role; an advance touches the process it names, by one step of it, and the database |
| Answers.ListOwnAnswer | app/slots/accessibility_assistant/service.py:455-463 | a list of own rows answers exactly the rows of that table and organisation that meet the condition, each as stored, and changes nothing |
| Answers.FailureAnswer | app/slots/accessibility_assistant/service.py:405-420 | a query or write that fails ends the request as failed, with its own organisation bound again and the database as it was |
| Answers.ListSharedAnswer | app/slots/accessibility_assistant/service.py:1005-1012 | a list request answers exactly the own and shared rows of its table |
| Answers.GetFaqAnswer | app/slots/accessibility_assistant/service.py:505-514 | an own or shared FAQ is answered with its row and exactly its junction rows, any other is not found |
| Answers.CreateCategoryAnswer | app/slots/accessibility_assistant/service.py:979-1002 | a category is created, in the bound organisation and with the creator's snapshot, exactly if the organisation has none of that name; one is a duplicate, two of that name make the request fail |
| Answers.CreateSourceAnswer | app/slots/accessibility_assistant/service.py:1381-1436 | a source is created exactly if its category is the organisation's own and the access test succeeded |
| Answers.CreateFaqsAnswer | app/slots/accessibility_assistant/service.py:1514-1574 | FAQs, one by hand or any number on approval, are created all or none: exactly if every list is non-empty, all ids are the organisation's own, none is repeated and the keys are fresh; then with exactly the junction rows asked for |
| Answers.ShareAnswer | app/slots/accessibility_assistant/service.py:2508-2548 | a row of any organisation is shared exactly by a platform administrator and exactly if one created it; unsharing needs the former only; nothing but the flag changes |
| Sharing.InvStep | app/slots/accessibility_assistant/service.py:405-420 | every step of every interleaving keeps the invariant of bindings, validated ids, junction rows and flags, and changes no existing row except its flag |
| Sharing.BindingsRestored | app/slots/accessibility_assistant/service.py:411-420 | in every reachable state of every interleaving a request has its own organisation bound, except inside an unbound query; every unbinding is undone, also after an exception |
| Sharing.LinksStayInOneOrg | app/slots/accessibility_assistant/models.py:441-483 | in every reachable state every junction row, written by hand or on approval, and every source with its category, lies within one organisation |
| Sharing.SnapshotIsCreatorsRole | app/slots/accessibility_assistant/service.py:136-141 | the snapshot of a row is the role its creator had when the creating request was loaded, through every later promotion, demotion and request |
| Sharing.SharedRowsComeFromAdmins | app/slots/accessibility_assistant/service.py:2508-2548 | in every reachable state a shared row was created by a request that began for a user who was a platform administrator at that moment |
| Sharing.FlagChangesByAdminsOnly | app/slots/accessibility_assistant/service.py:2529-2548 | only a platform administrator's sharing request for that row changes its flag, and switches it on only where the snapshot allows it |
| Isolation.AnswersDependOnTheView | app/db.py:240-262 | two databases that agree on an organisation's own rows, the shared rows and the junction rows of the FAQs among them, and of an FAQ just being read, take its requests through the same steps to the same answers |
| Isolation.VisibleAnswersDependOnTheView | app/db.py:240-262 | while the FAQ being read is visible to the organisation, agreeing on what it can see is all that is needed for the same steps and answers |
| Isolation.OthersLeaveTheViewAlone | app/db.py:265-286 | a step of an ordinary user under another organisation changes nothing the organisation can see |
| Isolation.PurgeRun | app/db.py:240-286 | removing all events of hidden organisations, in which no administrator works, from any interleaving leaves every other request and the remaining database as they were |
| Isolation.HiddenOrganisationsCannotBeNoticed | app/db.py:222-262 | hence every request of the others gets the same answer with and without them, except an administrator's attempt to flag a hidden row, which finds none |
| KeyStore.NormalizeTwice | app/llm/service.py:141 | normalising a provider name twice is normalising it once, so a stored name reaches its key again |
| KeyStore.NormalizeExact | app/llm/service.py:141 | the stored name is the given one without the white space around it, small letters for capital ones, and nothing else changed |
| KeyStore.LLMService.DeactivateExisting | app/llm/service.py:103-118 | exactly the active keys of that scope and provider become inactive |
| KeyStore.LLMService.SetKey | app/llm/service.py:129-155 | blank names and keys are refused without effect; otherwise the earlier keys of the slot are retired and one new active key is stored, normalised and stripped |
| KeyStore.LLMService.DeactivateKey | app/llm/service.py:163-167 | exactly that key becomes inactive |
| KeyStore.LLMService.SetOrgSharedAccess | app/llm/service.py:222-234 | the policy of that organisation is set, created if missing, and no other changes |
| KeyStore.NewestExact | app/llm/service.py:51-67 | the lookup returns the active row with the highest key, and none exactly if there is none |
| KeyStore.ConfiguredProviderResolves | app/slots/accessibility_assistant/service.py:1903-1948 | the provider the assistant chooses resolves to the newest own key, else the newest shared key the policy allows, whatever their providers |
| KeyStore.DefaultProvider | app/slots/accessibility_assistant/service.py:1903-1948 | without any usable key the assistant asks for the default provider and gets no key |
| KeyStore.ResolutionSoundAndComplete | app/slots/accessibility_assistant/service.py:1903-1948 | in every reachable state that call succeeds if and only if the organisation has any usable active key: its own, or a shared one with the policy granted |
| KeyStore.InvStep | app/llm/service.py:103-155 | every operation keeps at most one active key per scope and provider, and normalised non-empty names |
| KeyStore.ResolvesLastKeySet | app/llm/service.py:79-100 | after any run resolving is one lookup in a map of the last keys set and not retired: retiring leaves none, no older key comes back, and no slot affects another |
| KeyStore.ResolvesByHistory | app/llm/service.py:70-100 | read off the operations alone: an organisation gets the key that stands for its own scope, else the standing shared one, if and only if the last decision about exactly this organisation exists and allowed it |
| KeyStore.SharedResolvesByHistory | app/llm/service.py:89-92 | without an organisation the standing shared key resolves, whatever was decided about any |
| Overlaps.OneActiveExactly | app/llm/service.py:103-155 | however calls overlap between retiring and storing, a slot has at most one active key all along if and only if, read off the calls alone, whenever a call stores its key in the slot the key stored there before has been retired by some call |
| Overlaps.OlderKeyComesBack | app/llm/service.py:103-167 | two calls for one slot at the same time leave two active keys; the newer is used, and retiring it brings the older back |
| Retry.VerifyGithubAccessWithRetry | app/slots/accessibility_assistant/service.py:1192-1232 | meets the common retry contract; 401 and 403 stop at once as authentication failures, an unusable address at once as a timeout |
| Retry.VerifyMcpConnectivityWithRetry | app/slots/accessibility_assistant/service.py:1294-1343 | meets the same contract; error texts with an authentication marker stop at once |
| Retry.CallLlmApiWithRetry | app/slots/accessibility_assistant/service.py:2062-2132 | meets the same contract, returns the completion of the successful attempt, and neither retries nor alerts without a key |
| Retry.GithubStops | app/slots/accessibility_assistant/service.py:1187-1221 | what stops the loop, and as what: an unusable address as a timeout, 401 and 403 as authentication failures, 200 to 299 as success; all else is tried again |
| Retry.McpStops | app/slots/accessibility_assistant/service.py:1284-1331 | an error stops the loop if and only if its text holds one of the five markers, without regard to case |
| Retry.LlmStops | app/slots/accessibility_assistant/service.py:1974-1994 | 401 and 403 stop the loop, 429 is tried again as a rate limit, all else as a timeout; a missing key is passed on |
| Retry.AttemptsExact | app/slots/accessibility_assistant/service.py:1204-1224 | the attempts end with the first decisive one, and there are at most as many as allowed |
| Retry.FirstDecisiveAttempt | app/slots/accessibility_assistant/service.py:1207-1221 | the first attempt that does not merely fail is the last one made and decides the outcome |
| Retry.ExhaustedReportsTheLast | app/slots/accessibility_assistant/service.py:1203-1232 | if all merely fail, three are made and the type of the last is reported |
| Retry.OneAlertPerFailure | app/slots/accessibility_assistant/service.py:2115-2132 | exactly one alert if every attempt made failed, none if one succeeded or an unhandled exception passed through, and it names the reported type |
| Retry.TimeBudget | app/slots/accessibility_assistant/service.py:1162-1164 | the sleeps are a prefix of 1, 3; a call takes at most 64 seconds, alert aside, and that long exactly if three attempts last to their end |
| Retry.TimeBudgetIsReached | app/slots/accessibility_assistant/service.py:1162-1164 | three timeouts in a row take that long |
| Retry.World.ResolveOrgAndPlatformAdmins | app/slots/accessibility_assistant/service.py:1997-2020 | collects the recipients of both queries once each |
| Retry.World.DispatchAdminAlert | app/slots/accessibility_assistant/service.py:2023-2059 | every recipient that can be reached is notified once; one failed notification blocks no other |
| Retry.RecipientsExact | app/slots/accessibility_assistant/service.py:1997-2020 | the recipients are the organisation's and the platform's administrators, nobody else, and nobody twice |
| Retry.DeliveredExact | app/slots/accessibility_assistant/service.py:2046-2058 | exactly the reachable recipients are notified, each once |
| ToolLoop.Conversation.AnswerCalls | app/slots/greeting/providers/translation.py:117-136 | the reply and one result per call, in order and with matching ids, are appended, and the names recorded |
| ToolLoop.Conversation.RunToolCallingLoop | app/slots/greeting/providers/translation.py:93-155 | the messages appended are exactly the replies that called tools with their results; at most three further completions are made, fewer only if a reply calls no tool or a completion raises; tools_used and the text are those of that exchange |
| ToolLoop.ExchangeFacts | app/slots/greeting/providers/translation.py:117-136 | such an exchange is well formed, and its tool names are those of all calls in order |
| ToolLoop.ResultsExact | app/slots/greeting/providers/translation.py:117-136 | each call is invoked in order under its own name with its own parsed arguments, an empty object if they are missing or do not parse, and its result carries its id |
| ToolLoop.TextExact | app/slots/greeting/providers/translation.py:112-115 | the text is the content of the last reply, trimmed; none if it is missing or empty |
| ToolLoop.SentWellFormed | app/slots/greeting/providers/translation.py:138-147 | every transcript handed to the model has each assistant call followed by exactly its results |
| BackupCodes.MfaService.StartEnrollment | app/auth/mfa.py:81-103 | refused when enabled, otherwise the pending secret is replaced and nothing is enabled |
| BackupCodes.MfaService.ConfirmEnrollment | app/auth/mfa.py:106-130 | refused without a pending secret or without a live code, with no effect; otherwise enabled with a fresh batch replacing all of the user's rows |
| BackupCodes.MfaService.DisableMfa | app/auth/mfa.py:133-146 | flag, secret and all rows of the user go, rows of others stay |
| BackupCodes.MfaService.RegenerateBackupCodes | app/auth/mfa.py:149-157 | only when enabled, a fresh batch of the configured size replaces the user's rows |
| BackupCodes.MfaService.DeleteCodes | app/auth/mfa.py:162-164 | exactly the user's rows go |
| BackupCodes.MfaService.Regenerate | app/auth/mfa.py:160-178 | the rows are the new batch, unused, and the plaintexts returned are its codes |
| BackupCodes.MfaService.VerifyLoginCode | app/auth/mfa.py:235-264 | a live TOTP value passes without touching a row; otherwise the code passes exactly if an unused row of the user holds it, and one such row is used up |
| BackupCodes.BatchIsConserved | app/auth/mfa.py:160-178 | over all runs of all users: a user's rows are the last batch, as many as the configured size while enabled and none while not; the used ones are exactly the backup codes accepted since; enabled implies a secret |
| BackupCodes.EnabledExactly | app/auth/mfa.py:81-146 | read off the requests alone: a user has a secret if and only if an enrolment was started and MFA not disabled since, and MFA is on if and only if a live code has confirmed it since |
| BackupCodes.AcceptedAsOftenAsIssued | app/auth/mfa.py:235-264 | a code is accepted exactly as long as it has been accepted less often than the last batch contains it |
| OverlappingLogins.OneRowPerAcceptedExactly | app/auth/mfa.py:251-263 | however logins overlap between finding a row and marking it, the used rows hold exactly the codes accepted all along if and only if no login spends a row that another has spent since the login found it |
| OverlappingLogins.AcceptedWithinIssuedExactly | app/auth/mfa.py:251-263 | where the codes of a batch differ, under the same condition and no other no code is ever accepted more often than it was issued |
| OverlappingLogins.AcceptedTwice | app/auth/mfa.py:251-263 | two logins that find one row before either marks it are both accepted on a code issued once |
| BackupCodes.ConfirmingAgainReplacesBatch | app/auth/mfa.py:119-130 | an enrolled user who confirms again is refused exactly for a code that is not live, with no effect, and otherwise gets a new batch, contrary to the documentation |
| Memberships.OrgService.CreateOrg | app/orgs/service.py:36-73 | a taken slug is refused; otherwise the creator becomes a member, by default exactly if it is the first membership |
| Memberships.OrgService.CreateUser | app/admin/service.py:76-126 | a taken address or unknown role is refused, with an organisation or without; a new user in an organisation gets it as default |
| Memberships.OrgService.SwitchDefaultOrg | app/orgs/service.py:116-151 | non-members are refused; otherwise the target becomes the user's only default and no other user's row changes |
| Memberships.OrgService.GetDefaultOrgForUser | app/orgs/service.py:90-108 | a flagged membership wins, else the oldest, else none |
| Memberships.DefaultOrgExact | app/orgs/service.py:90-108 | the lookup is the user's first flagged membership, else the first at all, and nothing if and only if there is none |
| Memberships.RefusedExactly | app/orgs/service.py:36-151 | a call is refused exactly for a taken slug or address, an unknown role, a missing organisation or user, or a target the user is no member of, and then changes nothing |
| Memberships.ExactlyOneDefault | app/orgs/service.py:36-151 | after any calls every user with a membership has exactly one default, the lookup returns it, and it is the organisation last switched to, else the first joined |
| Overlaps.OneDefaultExactly | app/orgs/service.py:54-71 | however calls overlap between a look at the memberships and the insert, a user has exactly one default all along if and only if at every insert for the user what was seen is still true |
| Overlaps.TwoDefaults | app/orgs/service.py:54-71 | two first organisations created at the same time leave two defaults |
| FaqMatch.FaqMatchTiered | app/slots/accessibility_assistant/service.py:1626-1666 | the earliest FAQ with an equal slug if there is one, else the earliest with the largest positive word overlap, else the earliest whose valid pattern hits, and none if and only if all three are missing |
| FaqMatch.MatchInCategory | app/slots/accessibility_assistant/service.py:577-608 | the earliest FAQ with the largest positive overlap, none exactly if no word is shared |
| FaqMatch.RightAnswersAreUnique | app/slots/accessibility_assistant/service.py:1648-1658 | each tier has at most one right answer, so the two matchers agree |
| FaqMatch.SlugTwice | app/slots/accessibility_assistant/service.py:1620-1623 | a slug is its own slug |
| FaqMatch.SlugIgnores | app/slots/accessibility_assistant/service.py:1620-1623 | a character that slugs drop can be inserted anywhere without changing the slug |
| FaqMatch.SlugExact | app/slots/accessibility_assistant/service.py:1620-1623 | the slug is the text's letters and digits in order, the letters small, and nothing else |
| FaqMatch.SharedSlug | app/slots/accessibility_assistant/service.py:1639-1642 | two questions share a slug if and only if their letters and digits agree in order, without regard to case |
| FaqMatch.OverlapExact | app/slots/accessibility_assistant/service.py:1648-1653 | the overlap is the number of words that stand in both questions, without regard to case |
| FaqMatch.PatternHitsExact | app/slots/accessibility_assistant/service.py:1656-1665 | a pattern hits if and only if there is one, it is not empty, and the search for it in the question finds something; one that does not compile never hits |
| FaqMatch.WordsExact | app/slots/accessibility_assistant/service.py:1648 | splitting finds exactly the maximal runs without white space |
| ApprovalGate.FaqService.CreateSession | app/slots/accessibility_assistant/service.py:2948-2983 | staging adds a session with pending candidates and not one FAQ |
| ApprovalGate.FaqService.Confirm | app/slots/accessibility_assistant/service.py:3036-3102 | an unknown session, an unresolvable id or an unstorable junction row changes nothing at all; otherwise one FAQ per approved item is added in order, with fresh keys, and the session is confirmed |
| ApprovalGate.FaqService.Validate | app/slots/accessibility_assistant/service.py:3055-3064 | all items are checked before anything is written |
| ApprovalGate.FaqService.ReviewCandidates | app/slots/accessibility_assistant/service.py:3085-3097 | each candidate of the session becomes approved or rejected, others are untouched |
| ApprovalGate.DiscardedExact | app/slots/accessibility_assistant/service.py:3085-3097 | the discarded ids are exactly the session's candidates nobody approved, each once |
| ApprovalGate.OnlyApprovedBecomeFaqs | app/slots/accessibility_assistant/service.py:3043-3052 | after any run the FAQs are exactly the approved items of the confirmations that went through |
| FolderText.ReadFolderTextReadonly | app/slots/accessibility_assistant/service.py:2670-2699 | the text is the headed snippets of the first twenty readable non-empty files as far as the limit goes; a path that is no folder gives nothing |
| FolderText.SnippetsAreThePrefix | app/slots/accessibility_assistant/service.py:2682-2698 | the snippets together are exactly the beginning of the files' texts up to the limit; only the last can be cut, none is empty |
| FolderText.FolderReadIsBounded | app/slots/accessibility_assistant/service.py:2682-2699 | at most twenty files and at most the limit are read, without a gap |
| FolderText.SkippedExactly | app/slots/accessibility_assistant/service.py:2686-2693 | a file is skipped exactly if no well-formed character starts anywhere in it |
| FolderText.UndecodableFileIsRead | app/slots/accessibility_assistant/service.py:2674-2675 | a file that does not decode and is read all the same |
| FolderText.DecodableReadInFull | app/slots/accessibility_assistant/service.py:2686-2693 | a file that decodes strictly is read in full, up to its new lines |
| TextLaws.UniversalNewlinesExact | app/slots/accessibility_assistant/service.py:2689 | a file's new lines: each carriage return, together with a new line right behind it, becomes one new line, and nothing else changes |
| TextLaws.NoReturnLeft | app/slots/accessibility_assistant/service.py:2689 | no carriage return is left in what is read |
| FolderText.LimitInBytesExactly | app/slots/accessibility_assistant/service.py:2694-2698 | what is taken stays within the limit in bytes if and only if, where the limit cuts, all of it is ASCII, and where it does not, the whole text is small enough |
| FolderText.LimitCountsCharacters | app/slots/accessibility_assistant/service.py:2671 | one accented letter exceeds a limit of one byte |
| Utf8.RoundTrip | app/slots/accessibility_assistant/service.py:2689 | decoding undoes encoding, for every text |

## Left out

- Routes, templates, cookies, schemas, migrations, logging, mail, background jobs and health probes.
- Request-level commit and rollback (`app/db.py:200-207`): what a service call writes is kept. Modelled with it are only the inserts of FAQs, which roll back as a whole on a conflict, and the user row that `create_user` drops for an unknown role (`Memberships.CreateUser`).
- Cryptography, password hashing, TOTP and tokens: ideal functions or inputs; a stored secret decrypts to what was stored.
- The network: every reply of the LLM, GitHub, an MCP server and the store's TTL query is an input. The limiters are modelled while Redis answers; requests let through because it does not are not counted.
- Clocks: a request's clock reading and its increment are one step, and the clock does not run backwards between requests.
- `\d` and lower-casing beyond the letters and digits of ASCII; white space is that of Python.
- Nesting of inline Markdown tags, which can cross; block tags are balanced.
- The personal-data and source-code patterns and the sanitizer built on them.
- Timestamps other than the lockout's (enrolment, use of a code, creation and update times).
- The order of listed rows with equal sort keys: answers of list requests are sets of rows by primary key.
- Deleting organisations, users, categories or FAQs, and editing rows other than the sharing flag.
- Isolation.HiddenOrganisationsCannotBeNoticed: organisations in which an administrator works are not hidden, because what an administrator creates may depend on that organisation's rows and may be shared; primary keys are taken as given by the sequences.
- Isolation.AnswersDependOnTheView: does not cover platform administrators' sharing, which addresses rows of any organisation.
- Lockout.GuessingBound: logins run one after another; `OverlappingLogins.GuessingBoundIfAsLoaded` says when overlapping ones keep it, for wrong passwords only, and not how far they can exceed it otherwise.
- BackupCodes.AcceptedAsOftenAsIssued: requests run one after another; `OverlappingLogins.OneRowPerAcceptedExactly` says what overlapping logins of one user keep.
- Inline.LinkTargetsSafe: a written target can hold format tags, as in `[x](/a*b*)`, because the link pass comes last; `Inline.FormattingLeavesAlone` says when no text, target or not, is touched before it.
- Memberships.ExactlyOneDefault: calls run one after another; `Overlaps.OneDefaultExactly` says what overlapping ones keep.
- KeyStore.InvStep: calls run one after another; `Overlaps.OneActiveExactly` says what overlapping ones keep.
- Encodings of connected files other than UTF-8.
- ApprovalGate.FaqService.Confirm: does not ask for the session's status or for candidates to belong to the session, because the code does not.
- FaqMatch.FaqMatchTiered: the regular-expression search is an input, and the FAQs come in the order the database returns them.
- The associations read for a whole category of FAQs (`list_faqs_by_category`): the same reads as for one FAQ, repeated.
- The interaction-log view of administrators, the tenant switch of the admin routes, role grants.
- The compliance check registry, platform-health counts, error-message tables and the approval example slot: nothing in them needs a proof.
