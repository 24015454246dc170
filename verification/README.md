# Tesbo in Dafny

A model of the parts of Tesbo whose correctness spans several functions, several attempts or several
runs, with proofs about every input, every run and every interleaving. `dafny verify dfyconfig.toml`
checks all of it.

- **Suite push** (`SpecTitles`, `TitleTags`, `TitleKeys`, `TitleRecognition`, `TitleShapes`, `SuitePush`, `PushRuns`,
  `PushSettles`, `PushSuites`, `PushLimits`): the script that mirrors the Playwright suite into a project.
  How a title is printed and recognised, one run as a class, any sequence of runs as events.
- **CSV** (`Csv`): the fixture writer against the RFC 4180 reader.
- **Comments** (`InlineMarks`, `Escaping`, `MarkdownBlocks`, `LineShapes`, `CommentDoc`, `CommentRoundTrip`,
  `CommentNumbers`, `CommentNormaliser`): the comment serialiser against the hand-rolled Markdown renderer.
- **Import and review** (`ImportSteps`, `ImportRows`, `ReviewSteps`): the step notation, the accounts of an
  import, and the edit diff of the review board.
- **Retries and concurrency** (`BugFiling`, `TicketLinking`, `OAuthFlow`, `OAuthEffects`, `InFlight`): dialogs, the OAuth popup
  and the in-flight map as classes whose methods are tied to a step function, and theorems about all runs.
- **Coverage report** (`Resolver`, `Routes`): the bounded multi-pass resolver and the most-literal matcher.
- **Teardown** (`Teardown`): the drain loop and its arithmetic bound.

`Text` and `Options` hold what these share. Strings are sequences of characters and every regular expression is
an explicit function, with the source's leftmost, lazy or greedy choice. Server calls are inputs: they persist and
succeed or do nothing and fail; in the push a call may also persist and lose its reply. Clocks, the network, the
browser and `JSON.parse` are parameters or events. Where the source changes variables in a loop or fields of an
object, a method does, and its contract ties the new state to a function about which the lemmas speak.

Where the code and its own documentation disagree, the model follows the code:

- `push-to-tesbo.ts`, lines 9 to 17, says that a re-run creates nothing new. A run marks more keys than it
  stores, so two specs of one wording under different describe blocks are created in two different runs
  (`PushLimits.SecondRunCreatesAgain`); a spec whose prose opens a bracket or starts with `verify` or `that` can be
  created by every run (`PushLimits.UnrecognisedIsStoredAgain`), as `verify that x` and `AB-1 a [b` are
  (`PushLimits.DoubledLeadIsNotRecognised`, `PushLimits.OpenBracketIsNotRecognised`). `PushLimits.StoredOnceIff`,
  `PushRuns.SelfRecognisedExactly` and `PushSettles.SettlesIff` give the exact conditions.
- `coverage-report.ts`, lines 289 and 290, calls five passes a fixed point. `Resolver.FivePassesCanStopShort` is six
  wrappers for which they are not, and `Resolver.FixedPointIff` says when they are; as many passes as wrappers always
  are (`Resolver.ManyPassesSuffice`).
- `csv.ts` loses a row without fields and a last row of one empty field; nothing else (`Csv.RoundTrip`).
- The OAuth hook can hang in `waiting` when a probe of an earlier attempt answers while a new attempt still fetches its
  url (`OAuthFlow.StaleProbeHangs`); without that it cannot (`OAuthFlow.CalmRunNeverHangs`).
- An italic run directly before a bold one is read back differently in every document (`InlineMarks.TouchingBreaks`), and nothing
  else goes wrong with clean text (`InlineMarks.MarksSurviveIff`).
- The teardown's 200 turns are enough up to an exact bound (`Teardown.DrainBound`).

## Model

| member | source | states |
|---|---|---|
| TitleTags.TagReadsBackIff | e2e/scripts/push-to-tesbo.ts:349-351 | For a spec with an id, the tag that the index reads out of its printed title is its id, if and only if the prose leaves no `[` open. |
| TitleTags.TagSwallowed | e2e/scripts/push-to-tesbo.ts:222-223 | With a bracket left open, the tag read back starts at that bracket and so is no spec id. |
| TitleRecognition.StripTidy | e2e/scripts/push-to-tesbo.ts:159-161 | Dropping the tag and tidying the white space commute, for every string: printer and reader may do them in either order. |
| TitleRecognition.PrintedWording | e2e/scripts/push-to-tesbo.ts:349-358 | What the reader keeps of the printed title of a spec without an id is the lead-in and the spec's own wording, tidied. |
| TitleRecognition.KeyReadsBackIff | e2e/scripts/push-to-tesbo.ts:159-167 | For a spec without an id, the key of its printed title is the key of its own wording, if and only if that wording is not blank and does not start with the words the reader drops (or both readings drop them). |
| TitleRecognition.PrintedKeyIsCandidate | e2e/scripts/push-to-tesbo.ts:256-262 | Under that condition the printed title's key is one of the spec's candidate keys. |
| TitleKeys.SquashOfTidy | e2e/scripts/push-to-tesbo.ts:164-166 | Collapsing and trimming white space never changes a prose key. |
| TitleKeys.KeyCounts | e2e/scripts/push-to-tesbo.ts:164-166 | A key has as many letters and digits as the text it was made of. |
| TitleShapes.SpecIdIff | e2e/scripts/push-to-tesbo.ts:146 | A spec id, character by character: two to four capitals, perhaps a dash and one more, a dash and a digit, then id characters. |
| TitleShapes.SplitsInto | e2e/scripts/push-to-tesbo.ts:146-151 | A title made of id characters, white space and a body on one line splits into these parts when the first are an id, and is all body otherwise. |
| TitleShapes.SplitHasParts | e2e/scripts/push-to-tesbo.ts:146-151 | Conversely a title that yields an id is made that way. |
| TitleShapes.TagReads | e2e/scripts/push-to-tesbo.ts:222-223 | The tag read is the trimmed text of the last pair of brackets, when only white space follows and nothing in front is left open. |
| TitleShapes.TidyIsWords | e2e/scripts/push-to-tesbo.ts:351-357 | Tidied text is the words of the text with single spaces between them. |
| TitleShapes.KeyIsWords | e2e/scripts/push-to-tesbo.ts:164-166 | A prose key is the stretches of small letters and digits of the lower-cased text with single spaces between them. |
| TitleShapes.LowerIs | e2e/scripts/push-to-tesbo.ts:164 | Lower-casing as far as the keys can tell. |
| TitleShapes.TitleIsWords | e2e/scripts/push-to-tesbo.ts:349-358 | The words of a printed title, with an id and without. |
| SuitePush.StageIndex | e2e/scripts/push-to-tesbo.ts:193-241 | The index throws exactly when a scope is at the page ceiling or the project reports more cases than were seen; otherwise it holds the tags and keys of exactly the cases in listed suites or in none. |
| SuitePush.IndexIsWhole | e2e/scripts/push-to-tesbo.ts:228-238 | With the project's true total, the short-index guard passes exactly when every case was visible. |
| SuitePush.FindCollision | e2e/scripts/push-to-tesbo.ts:392-406 | Finds a repeated pair of file and title exactly when two specs have one. |
| SuitePush.Push.Ensure | e2e/scripts/push-to-tesbo.ts:289-307 | ensureSuite: reuse, invent in a dry run, or create; a failed call ends the run, also when the project did store the suite. |
| SuitePush.Push.FindSuite | e2e/scripts/push-to-tesbo.ts:439-443 | The root suite is found or made once per run, then the suite of the file under it. |
| SuitePush.Push.MarkTaken | e2e/scripts/push-to-tesbo.ts:445-448 | The marks a run sets: every candidate key, and the id. |
| SuitePush.Push.PushSpec | e2e/scripts/push-to-tesbo.ts:432-463 | One turn of the loop changes the project and the script's variables as the step function says. |
| SuitePush.Push.Run | e2e/scripts/push-to-tesbo.ts:387-463 | main refuses to start exactly on a collision, a full page or fewer cases seen than the header reports; with the true total, a run that starts has seen every case. It then ends in the state after all the specs. |
| PushRuns.RunIsAccountedFor | e2e/scripts/push-to-tesbo.ts:424-463 | created + skipped + failed is the number of specs when a run completes, and fewer when it throws; a dry run never throws, fails nothing and leaves the project as it was. |
| PushRuns.PlanIsDue | e2e/scripts/push-to-tesbo.ts:427-463 | A run that is not cut short works through the specs that are due, a list fixed by the index alone: what a dry run shows is what a real run does, whatever the project answers. |
| PushRuns.IndexRecognises | e2e/scripts/push-to-tesbo.ts:265-269 | alreadyOnStage over the index says that some single stored title recognises the spec. |
| PushRuns.SelfRecognisedWhen | e2e/scripts/push-to-tesbo.ts:346-348 | The checkable conditions under which a printed title recognises its own spec. |
| TitleRecognition.PrintedKey | e2e/scripts/push-to-tesbo.ts:349-358 | The key of every printed title whose tag does not read back, told from the spec alone: its wording up to an unclosed bracket, without the words the reader drops. |
| PushRuns.SelfRecognisedExactly | e2e/scripts/push-to-tesbo.ts:256-269 | Exact for every spec: its printed title recognises it if and only if it has an id and leaves no bracket open, or what the reader keeps of the title has a candidate key. |
| PushRuns.SelfRecognisedIff | e2e/scripts/push-to-tesbo.ts:256-269 | For a spec without id and describe path the condition is exact: its printed title recognises it if and only if its wording does not start with the dropped words. |
| PushRuns.FiledAreStored | e2e/scripts/push-to-tesbo.ts:457-462 | A run only appends cases, one for each spec it stores, in order, each under its printed title. |
| PushRuns.StoredAtMostOnce | e2e/scripts/push-to-tesbo.ts:9-13 | Over any sequence of runs, dry runs and other people's changes that keep recognised specs recognised, a spec that recognises its own printed title gets at most one case, even when replies are lost and runs break off. |
| PushLimits.StoredOnceIff | e2e/scripts/push-to-tesbo.ts:9-17 | A spec is stored at most once over all such sequences, if and only if it recognises its own printed title. |
| PushLimits.UnrecognisedIsStoredAgain | e2e/scripts/push-to-tesbo.ts:15-17 | Otherwise two clean runs on an empty project store it twice. |
| PushLimits.DoubledLeadIsNotRecognised | e2e/scripts/push-to-tesbo.ts:161-163 | A spec the script does not recognise by its own title: prose that starts with the dropped words. |
| PushLimits.OpenBracketIsNotRecognised | e2e/scripts/push-to-tesbo.ts:222-223 | Another: a spec with an id whose prose leaves a bracket open. |
| PushSettles.CleanAndIdleIsQuiet | e2e/scripts/push-to-tesbo.ts:432-462 | A clean run that stores nothing had nothing to propose. |
| PushSettles.CleanRunsFallQuiet | e2e/scripts/push-to-tesbo.ts:9-17 | Over any sequence of runs and considerate changes, all but as many clean runs as there are specs propose nothing. |
| PushSettles.CreatingRunsAreFew | e2e/scripts/push-to-tesbo.ts:15-17 | Over any such sequence, no more runs create something than there are specs. |
| PushSettles.QuietIff | e2e/scripts/push-to-tesbo.ts:432-437 | A run proposes nothing exactly when every spec is recognised by a title the project holds; it then makes no suite either. |
| PushSettles.NextRunStarts | e2e/scripts/push-to-tesbo.ts:207-218 | A run stores no case where the next index would miss it: the next run can be refused only for a suite that has reached the page ceiling. |
| PushSettles.SettlesIff | e2e/scripts/push-to-tesbo.ts:15-17 | The run after a clean one proposes nothing, if and only if every spec is recognised by a title that was there before or by a printed title of a spec that was due. |
| PushSettles.ClashIff | e2e/scripts/push-to-tesbo.ts:445-448 | A spec counts as taken after another exactly when both carry one id or share a candidate key. |
| PushSettles.DistinctSpecsSettle | e2e/scripts/push-to-tesbo.ts:9-17 | With no two specs sharing an id or a candidate key, and each recognising its own title, the run after a clean one proposes nothing. |
| PushSettles.WhySkipped | e2e/scripts/push-to-tesbo.ts:445-448 | A spec is skipped because the project held it or because an earlier spec's marks cover it. |
| PushLimits.SecondRunCreatesAgain | e2e/scripts/push-to-tesbo.ts:15-17 | A counterexample to the header: two specs without ids, one wording, two describe blocks. The first clean run creates one, the second creates the other. |
| PushSuites.KeyIsExact | e2e/scripts/push-to-tesbo.ts:294 | Two suite keys are equal exactly when parent and folded name are. |
| PushSuites.ProjectIff | e2e/scripts/push-to-tesbo.ts:318-321 | A spec belongs to the UI root exactly when some folder of its path is called ui, the first one or any other, and to the API root otherwise. |
| PushSuites.SuiteForPlaces | e2e/scripts/push-to-tesbo.ts:289-307 | The suite found or made for a spec is named after its file, under the root UI when some folder of its path is called ui and API otherwise. |
| PushSuites.RunPlaces | e2e/scripts/push-to-tesbo.ts:271-307 | A run never makes a suite beside one whose name folds to the same under the same parent, and files every case in the suite of its file under the UI or the API root. |
| Csv.ParseCsv | e2e/utils/csv.ts:14-71 | The loop computes the reader's state machine. |
| Csv.AnyLineEndReads | e2e/utils/csv.ts:47-52 | LF, CR LF or a lone CR between the rows reads the same. |
| Csv.LastLineEndReads | e2e/utils/csv.ts:56-60 | A line end after the last row adds no row. |
| Csv.QuotesInside | e2e/utils/csv.ts:30-50 | Quotes may open and close in the middle of a field. |
| Csv.PlainFieldsStayBare | e2e/utils/csv.ts:93-98 | Only a field with a quote, a comma or a line break is written in quotes. |
| Csv.ReadOfPrinted | e2e/utils/csv.ts:14-99 | What the reader makes of any printed table: every row as written, but a row without fields comes back as one empty field and a blank last line disappears. |
| Csv.RoundTrip | e2e/utils/csv.ts:14-99 | Reading a printed table gives the table back, if and only if no row is without fields and the last row is not one empty field (section 2 of RFC 4180). |
| Csv.ParseCsvRecords | e2e/utils/csv.ts:74-85 | Headers and one record for each further row. |
| Csv.RecordCell | e2e/utils/csv.ts:79-83 | A record holds each cell under the last column of its header name, and an unreached column as the empty string. |
| Csv.RecordsRoundTrip | e2e/utils/csv.ts:74-99 | Writing a table and reading it as records gives every cell back under its header. |
| Resolver.ResolveWrappers | e2e/scripts/coverage-report.ts:323-330 | The pass loop computes the builders after five passes, and `appendable` gains exactly the same entries. |
| Resolver.StripsOnlyTheParam | e2e/scripts/coverage-report.ts:461-468 | A template loses exactly its own parameter's interpolation at its end. |
| Resolver.ResolvedIffReached | e2e/scripts/coverage-report.ts:323-330 | The passes resolve exactly the names whose chain gets to a builder with fewer forward references than passes. |
| Resolver.PassesCoverDepth | e2e/scripts/coverage-report.ts:289-330 | k passes resolve every chain of at most k wrappers, in any order. |
| Resolver.CyclesStayUnresolved | e2e/scripts/coverage-report.ts:323-330 | Names that only lead to each other are never resolved. |
| Resolver.ResolvedMeansItsChain | e2e/scripts/coverage-report.ts:326-328 | Every resolved value is its target's meaning followed by its own argument, down to a base builder. |
| Resolver.FixedPointIff | e2e/scripts/coverage-report.ts:289-290 | k passes are a fixed point exactly when every wrapper that is reached within as many passes as there are wrappers is reached within k: a test on the list. |
| Resolver.ManyPassesSuffice | e2e/scripts/coverage-report.ts:289-330 | As many passes as there are wrappers always reach a fixed point. |
| Resolver.FivePassesCanStopShort | e2e/scripts/coverage-report.ts:289-290 | A counterexample to the comment: six wrappers, each declared above the one it calls, for which a sixth pass would still resolve a name. |
| Routes.MatchSegments | e2e/scripts/coverage-report.ts:603-617 | The segment loop finds whether a route fits and with how many wildcards. |
| Routes.BuildBuckets | e2e/scripts/coverage-report.ts:590-595 | Each bucket holds the declared routes of its length, in order. |
| Routes.SegmentsAre | e2e/scripts/coverage-report.ts:591-598 | The segments are the path cut at its slashes. |
| Routes.FitIff | e2e/scripts/coverage-report.ts:603-617 | A route fits when the segments agree wherever neither side has the wildcard, and its wildcards are the places that differ. |
| Routes.BestFor | e2e/scripts/coverage-report.ts:599-621 | The best candidate of one reference. |
| Routes.CoveredRoutePatterns | e2e/scripts/coverage-report.ts:589-625 | The covered routes are, for each reference, the first declared route with the fewest wildcards that fits, or none. |
| Routes.BucketSuffices | e2e/scripts/coverage-report.ts:599-602 | Looking only in the bucket of the right length finds what a scan over all declared routes finds. |
| Routes.ScanFindsMostLiteral | e2e/scripts/coverage-report.ts:586-620 | The scan finds the first most literal fit, and nothing exactly when nothing fits. |
| Routes.CoveredUnion | e2e/scripts/coverage-report.ts:597-624 | Covering a union of references is the union of what each covers. |
| Routes.DeclaredCoversItself | e2e/scripts/coverage-report.ts:582-588 | A reference that is itself declared covers that route and never a wildcard sibling. |
| Routes.DanglingIff | e2e/scripts/coverage-report.ts:762-766 | A reference is reported as dangling exactly when no declared route fits it. |
| Teardown.TaggedIff | load/teardown.js:62-63 | What is deleted is a row whose non-empty title carries the tag at some position, wherever else the search found it. |
| Teardown.FoundIff | load/teardown.js:56-63 | The rows the search finds, split by their titles. |
| Teardown.Project.Turn | load/teardown.js:53-74 | One turn deletes exactly the rows of some page one whose titles carry the tag, or nothing. |
| Teardown.Project.Drain | load/teardown.js:52-75 | In every run no untagged row goes, `removed` counts the deletions, a dry run deletes nothing, and with all requests succeeding the pages read form a run of the loop. |
| Teardown.SteadyShare | load/teardown.js:53-74 | Each page read with u strays and page size P removes at least P - u tagged rows, or all of them. |
| Teardown.DrainsWithinBound | load/teardown.js:46-53 | All tagged rows go within the guard when there are at most turns * (P - u) of them, in every server order. |
| Teardown.StrandsPastBound | load/teardown.js:53-61 | Past the bound some server order leaves tagged rows behind. |
| Teardown.DrainBound | load/teardown.js:52-75 | The drain is complete in every server order, if and only if there are no tagged rows, or u is less than P and there are at most 200 * (P - u). |
| InFlight.RequestPool.DedupeInFlight | Tesbo-Frontend/lib/api.ts:99-107 | A call joins the run its key has in the map, or starts one and enters it. |
| InFlight.RequestPool.Api | Tesbo-Frontend/lib/api.ts:109-123 | Only a GET without a signal goes through the map. |
| InFlight.RequestPool.OnFinally | Tesbo-Frontend/lib/api.ts:102-104 | The release deletes the map entry of the run's key. |
| InFlight.TraceIsSound | Tesbo-Frontend/lib/api.ts:97-123 | Every interleaving of calls, answers, releases and settlements keeps the map exact and the callers current. |
| InFlight.OneRunPerKey | Tesbo-Frontend/lib/api.ts:97-107 | At most one run per key is unreleased, and the map holds a key exactly for such a run. |
| InFlight.NeverStale | Tesbo-Frontend/lib/api.ts:97-107 | No caller gets the outcome of a run that was already released when it called. |
| InFlight.OnlyPlainGetsShare | Tesbo-Frontend/lib/api.ts:114-123 | Two calls share a run only if both have the verb GET, no signal, and one path. |
| InFlight.OthersRunAlone | Tesbo-Frontend/lib/api.ts:121 | A call with another verb or with a signal always has a run of its own and leaves the map alone. |
| InFlight.OverlapIsCollapsed | Tesbo-Frontend/lib/api.ts:99-107 | A plain GET starts a run exactly when its key has none in flight. |
| BugFiling.Dialog.constructor | Tesbo-Frontend/components/LogBugDialog.tsx:232-256 | prepareBugDialog starts a session without a bug, a file or an error. |
| BugFiling.Dialog.ResetBugDialog | Tesbo-Frontend/components/LogBugDialog.tsx:261-284 | Closing forgets the bug and the staged files. |
| BugFiling.Dialog.BugToAttachTo | Tesbo-Frontend/components/LogBugDialog.tsx:312-330 | A bug is created only when the session has none yet. |
| BugFiling.Dialog.UploadBugAttachments | Tesbo-Frontend/lib/api.ts:3104-3129 | Batches land in order up to the first failure, and each landed batch leaves the staged list at once. |
| BugFiling.Dialog.HandleBugSubmit | Tesbo-Frontend/components/LogBugDialog.tsx:303-349 | One press, with its early returns, its retry of the upload only, and its success. |
| BugFiling.RefusedPress | Tesbo-Frontend/components/LogBugDialog.tsx:304 | A press with a blank title, with its ticket missing or without an execution does nothing. |
| BugFiling.PressDoes | Tesbo-Frontend/components/LogBugDialog.tsx:311-348 | Everything any other press does: the bug, the files, the error or the close, and onLogged. |
| BugFiling.BatchesOfTen | Tesbo-Frontend/lib/api.ts:3111-3128 | Files go in batches of ten, in order, up to the first batch that fails. |
| BugFiling.AtMostOneBug | Tesbo-Frontend/components/LogBugDialog.tsx:303-349 | At most one bug is created in a session, whatever fails and whatever is edited between presses. |
| BugFiling.FilingIsExactlyOnce | Tesbo-Frontend/components/LogBugDialog.tsx:303-349 | Over any series of presses, the files attached followed by the files still staged are the original list; success means one bug, every file once, and one onLogged. |
| BugFiling.GoodPressFinishes | Tesbo-Frontend/components/LogBugDialog.tsx:303-349 | A press to which the server answers everything finishes the session. |
| TicketLinking.Dialog.LinkBugs | Tesbo-Frontend/components/LogBugDialog.tsx:372-378 | Every selected bug is sent, and one failure fails the step. |
| TicketLinking.Dialog.FileTickets | Tesbo-Frontend/components/LogBugDialog.tsx:380-398 | The loop files the tickets whose creation succeeds and keeps the others, in order. |
| TicketLinking.Dialog.HandleLinkExisting | Tesbo-Frontend/components/LogBugDialog.tsx:362-407 | One press of Link Bug. |
| TicketLinking.PressDoes | Tesbo-Frontend/components/LogBugDialog.tsx:362-407 | Exactly which tickets are filed and which bugs linked; the dialog closes and logs when all of them are, and otherwise keeps the failed tickets and every bug. |
| TicketLinking.LinkConservesTickets | Tesbo-Frontend/components/LogBugDialog.tsx:362-407 | Tickets filed and tickets still selected are together a permutation of what they were. |
| TicketLinking.LinkingFilesEachTicketOnce | Tesbo-Frontend/components/LogBugDialog.tsx:362-407 | However often linking is retried, a closed dialog has filed exactly one bug per ticket, also when the existing-bug links kept failing. |
| OAuthFlow.Hook.StopWatching | Tesbo-Frontend/lib/useIntegrationOAuthConnect.ts:92-106 | Every timer and the channel of the refs is released. |
| OAuthFlow.Hook.SettleAs | Tesbo-Frontend/lib/useIntegrationOAuthConnect.ts:108-132 | The three settlements behind the settle-once guard. |
| OAuthFlow.Hook.Connect | Tesbo-Frontend/lib/useIntegrationOAuthConnect.ts:136-168 | Reuse of an open popup, a blocked popup, or a new attempt. |
| OAuthFlow.Hook.ConnectContinues | Tesbo-Frontend/lib/useIntegrationOAuthConnect.ts:170-240 | After the auth url: the popup is navigated and every watcher armed, or the attempt fails. |
| OAuthFlow.Hook.OnProbe | Tesbo-Frontend/lib/useIntegrationOAuthConnect.ts:199-230 | A probe's answer settles, retries once after a closed popup, or does nothing. |
| OAuthFlow.Hook.OnMessage | Tesbo-Frontend/lib/useIntegrationOAuthConnect.ts:194-204 | A broadcast of success asks the backend, unless the attempt is settled. |
| OAuthFlow.Hook.OnTimer | Tesbo-Frontend/lib/useIntegrationOAuthConnect.ts:206-240 | The backstop asks; the close watcher stops itself and asks when the popup is gone; the timeout settles and closes the popup. |
| OAuthEffects.ConnectDoes | Tesbo-Frontend/lib/useIntegrationOAuthConnect.ts:136-168 | Which connects start an attempt, for which window, and which are blocked or reuse the popup. |
| OAuthEffects.UrlDoes | Tesbo-Frontend/lib/useIntegrationOAuthConnect.ts:170-240 | What is armed, and for which popup, once the url is there; what happens when it is not. |
| OAuthEffects.WatchersAsk | Tesbo-Frontend/lib/useIntegrationOAuthConnect.ts:194-231 | When the backstop, the close watcher and a broadcast ask the backend. |
| OAuthEffects.AnswerDoes | Tesbo-Frontend/lib/useIntegrationOAuthConnect.ts:199-230 | What every answer does: a connected one succeeds, a last one after a closed popup cancels, a first unknown one asks again, any other does nothing. |
| OAuthEffects.TimeoutDoes | Tesbo-Frontend/lib/useIntegrationOAuthConnect.ts:233-240 | The timeout gives up on an unsettled attempt and closes its popup. |
| OAuthEffects.EffectsAreBrought | Tesbo-Frontend/lib/useIntegrationOAuthConnect.ts:108-132 | In every run each effect takes place exactly as often as an event brings it about: onConnected once for each connected answer that finds the attempt unsettled. |
| OAuthFlow.SettlesOnce | Tesbo-Frontend/lib/useIntegrationOAuthConnect.ts:108-132 | In every run, stale probes included, at most one of success, cancel and timeout takes effect between two resets. |
| OAuthFlow.SuccessNeedsConnected | Tesbo-Frontend/lib/useIntegrationOAuthConnect.ts:108-115 | onConnected runs at most once for each probe that answered connected. |
| OAuthFlow.StaysOrderlyIff | Tesbo-Frontend/lib/useIntegrationOAuthConnect.ts:136-241 | A step keeps the meaning of the phases, except exactly when a probe settles an attempt whose url has not arrived. |
| OAuthFlow.OrderlyIffNeverTooEarly | Tesbo-Frontend/lib/useIntegrationOAuthConnect.ts:136-241 | Over a whole run: waiting means navigated, unsettled, timeout and backstop armed, and every other phase means nothing armed, if and only if no step settles too early. |
| OAuthFlow.CalmRunIsOrderly | Tesbo-Frontend/lib/useIntegrationOAuthConnect.ts:92-241 | It does in every run in which no probe outlives its attempt. |
| OAuthFlow.CalmRunNeverHangs | Tesbo-Frontend/lib/useIntegrationOAuthConnect.ts:136-241 | In those runs the reuse branch is unreachable outside an attempt, watchers are armed over empty refs, and waiting always has a step out of it. |
| OAuthFlow.EarlySettlementSticks | Tesbo-Frontend/lib/useIntegrationOAuthConnect.ts:167-238 | One early settlement is enough for the attempt to wait for ever. |
| OAuthFlow.StuckForever | Tesbo-Frontend/lib/useIntegrationOAuthConnect.ts:108-132 | A flow that waits although settled does so in every continuation. |
| OAuthFlow.StaleProbeHangs | Tesbo-Frontend/lib/useIntegrationOAuthConnect.ts:199-230 | A counterexample: a run from the start in which an old probe settles a new attempt and the hook hangs in waiting. |
| InlineMarks.SplitIsExact | Tesbo-Frontend/lib/commentMarkdown.ts:33 | Edge spaces on either side of a core that neither starts nor ends with any. |
| InlineMarks.MarksSurvive | Tesbo-Frontend/lib/commentMarkdown.ts:29-51 | For delimiter-free text with no italic-only run directly before a marked one, reading the serialised runs gives exactly the document's nesting of marks, with edge spaces outside. |
| InlineMarks.MarksSurviveEscaping | Tesbo-Frontend/lib/markdown.ts:10-18 | So it does with renderMarkdown's escaping in front. |
| InlineMarks.MarksSurviveIff | Tesbo-Frontend/lib/commentMarkdown.ts:29-51 | For clean text whose neighbouring runs differ in marks, the marks survive if and only if no italic-only run directly precedes a marked one. |
| InlineMarks.TouchingBreaks | Tesbo-Frontend/lib/commentMarkdown.ts:36-40 | Every such document with a touching pair is displayed wrong. |
| InlineMarks.MarksSurviveEscapingIff | Tesbo-Frontend/lib/markdown.ts:10-18 | The same exact condition with the escaping in front. |
| InlineMarks.TouchingRunsBreak | Tesbo-Frontend/lib/commentMarkdown.ts:38-40 | The smallest counterexample: an italic run directly before a bold one. |
| InlineMarks.EscIsSafe | Tesbo-Frontend/lib/markdown.ts:69 | Escaped text holds no angle bracket and no quote, and shows as the text it was made of. |
| Escaping.KindSurvivesEscaping | Tesbo-Frontend/lib/markdown.ts:69-127 | A line is of the same kind for the tests on escaped text as it is unescaped, quotes included. |
| Escaping.ItemSurvivesEscaping | Tesbo-Frontend/lib/markdown.ts:96-122 | The text left after a quote or list marker, and the start number, are the same before and after escaping. |
| Escaping.EscHeading | Tesbo-Frontend/lib/markdown.ts:84-94 | Headings keep their level and their text. |
| LineShapes.KindIs | Tesbo-Frontend/lib/markdown.ts:74-126 | Which lines are of which kind, character by character. |
| LineShapes.HeadingReads | Tesbo-Frontend/lib/markdown.ts:84-94 | A heading keeps its level and its shortest possible text. |
| LineShapes.PlainHeading | Tesbo-Frontend/lib/markdown.ts:84-94 | Up to six hashes and a text, with or without closing hashes, is a heading of that level with that text. |
| LineShapes.OtherBlocks | Tesbo-Frontend/lib/markdown.ts:95-109 | Dashes are a rule, table lines are kept as they are, and quote lines are quoted. |
| LineShapes.QuotedLine | Tesbo-Frontend/lib/markdown.ts:96-101 | A quote line loses one angle bracket and at most one space. |
| MarkdownBlocks.RunsAreExclusive | Tesbo-Frontend/lib/markdown.ts:96-122 | The inner loops need not repeat the outer tests: their patterns exclude every other kind of line. |
| MarkdownBlocks.TakeRun | Tesbo-Frontend/lib/markdown.ts:96-122 | An inner loop takes the run that starts at its line. |
| MarkdownBlocks.TakeCode | Tesbo-Frontend/lib/markdown.ts:78-83 | A fence takes every line up to the closing fence, untouched, or to the end. |
| MarkdownBlocks.TakeBlock | Tesbo-Frontend/lib/markdown.ts:74-127 | One turn emits the block of the lines it consumes and always advances. |
| MarkdownBlocks.RenderMarkdown | Tesbo-Frontend/lib/markdown.ts:64-129 | The loop ends on every input, with the specified blocks. |
| MarkdownBlocks.ChunksPartition | Tesbo-Frontend/lib/markdown.ts:72-128 | The line ranges behind the blocks are the whole input, in order and without gaps. |
| MarkdownBlocks.RunsAreMaximal | Tesbo-Frontend/lib/markdown.ts:76-128 | List, quote and table runs are maximal, and fenced lines come verbatim up to the first closing fence. |
| CommentDoc.ItemToLines | Tesbo-Frontend/lib/commentMarkdown.ts:62-73 | An item's own line, unless it is empty, and then its nested lists; only a printed item takes a number. |
| CommentDoc.ListToLines | Tesbo-Frontend/lib/commentMarkdown.ts:58-75 | The lines of a list and of the lists nested in it. |
| CommentDoc.CommentDocToMarkdown | Tesbo-Frontend/lib/commentMarkdown.ts:77-84 | The document's Markdown. |
| CommentNumbers.TextGrows | Tesbo-Frontend/lib/commentMarkdown.ts:63-69 | The text of an item, paragraph by paragraph: trimmed, blank ones dropped, spaces between. |
| CommentNumbers.NestedGrows | Tesbo-Frontend/lib/commentMarkdown.ts:65-72 | The lines of an item's nested lists come in order. |
| CommentNumbers.ItemIsNumbered | Tesbo-Frontend/lib/commentMarkdown.ts:58-75 | The first printed item of an ordered list carries its start, 1 for 0, and each further one the next number; items without text take none. |
| CommentNumbers.EntryIsNumbered | Tesbo-Frontend/lib/commentMarkdown.ts:58-75 | The flattened document carries the same numbers. |
| CommentNumbers.RenderedListStarts | Tesbo-Frontend/lib/commentMarkdown.ts:60 | A comment that begins with an ordered list is displayed as one that starts at the same number. |
| CommentDoc.StripTextIsLines | Tesbo-Frontend/lib/commentMarkdown.ts:83 | The final clean-up is, line by line, dropping blank lines at both ends but for a last one. |
| CommentDoc.RendererSeesLines | Tesbo-Frontend/lib/commentMarkdown.ts:77-84 | Splitting the Markdown gives the document's lines without blank ends. |
| CommentDoc.RenderGroups | Tesbo-Frontend/lib/markdown.ts:110-126 | Simple lines are rendered as their entries in maximal runs of one kind. |
| CommentRoundTrip.RenderedIsFlattened | Tesbo-Frontend/lib/commentMarkdown.ts:53-84 | The blocks rendered from a document with nested lists are its flattened lines, blank ends stripped, in maximal same-kind runs. |
| CommentNormaliser.OnePass | Tesbo-Frontend/lib/commentMarkdown.ts:119-126 | One pass leaves settled entries, one printed line each. |
| CommentNormaliser.NormaliseIsIdempotent | Tesbo-Frontend/lib/commentMarkdown.ts:119-126 | Rendering, loading and writing again changes nothing the second time, on text of paragraphs, blank lines and lists. |
| ImportSteps.StepsRoundTrip | Tesbo-Frontend/components/ImportTestCasesModal.tsx:441-460 | Steps printed as action and result, joined by bars, are read back as the same numbered steps. |
| ImportSteps.AnySeparatorReads | Tesbo-Frontend/components/ImportTestCasesModal.tsx:447 | So are steps on lines of their own or between bars without spaces. |
| ImportSteps.GapsKeepTheirNumbers | Tesbo-Frontend/components/ImportTestCasesModal.tsx:447-454 | A part without an action is dropped but counts. |
| ImportSteps.CellsRead | Tesbo-Frontend/components/ImportTestCasesModal.tsx:441-460 | The Action and Expected Result cells are one step when the Steps cell is blank. |
| ImportSteps.InertReassembles | Tesbo-Frontend/components/ImportTestCasesModal.tsx:447-455 | A result without a bar, a line break or an arrow is one that the reader puts back together. |
| ImportRows.CollectRows | Tesbo-Frontend/components/ImportTestCasesModal.tsx:408-481 | The row loop sends and reports what the specification says. |
| ImportRows.SentExactly | Tesbo-Frontend/components/ImportTestCasesModal.tsx:411-481 | Exactly the rows without a fault are sent, under strictly increasing sheet row numbers. |
| ImportRows.ReportedExactly | Tesbo-Frontend/components/ImportTestCasesModal.tsx:436-439 | Exactly the rows at fault are reported, with their message and number. |
| ImportRows.RowsAreAccountedFor | Tesbo-Frontend/components/ImportTestCasesModal.tsx:408-481 | Every row is sent or reported, and none is both. |
| ImportRows.ReportFindsRow | Tesbo-Frontend/components/ImportTestCasesModal.tsx:512-523 | The error report looks each row number up to the row that was at fault. |
| ImportRows.OutsideFindsNothing | Tesbo-Frontend/components/ImportTestCasesModal.tsx:512-523 | Row numbers outside the sheet find nothing. |
| ImportRows.ErrorGroups | Tesbo-Frontend/components/ImportTestCasesModal.tsx:583-594 | One group per message, holding its rows in order. |
| ImportRows.GroupIsExact | Tesbo-Frontend/components/ImportTestCasesModal.tsx:583-594 | The groups partition the errors. |
| ImportRows.RepeatedIff | Tesbo-Frontend/components/ImportTestCasesModal.tsx:595 | hasRepeatedErrors holds exactly when two errors share a message. |
| ReviewSteps.ParseSteps | Tesbo-Frontend/lib/reviewBoard.ts:230-260 | Every stored shape is read as specified. |
| ReviewSteps.StoredShapesAgree | Tesbo-Frontend/lib/reviewBoard.ts:229-244 | An array, its JSON text and its doubly encoded JSON text read the same, when decoding inverts encoding. |
| ReviewSteps.ItemReads | Tesbo-Frontend/lib/reviewBoard.ts:246-257 | The action and the expected result of an item: the first of their properties that has a text. |
| ReviewSteps.ItemsRead | Tesbo-Frontend/lib/reviewBoard.ts:245-259 | The steps of an array in order, without those that say nothing. |
| ReviewSteps.PlainTextReads | Tesbo-Frontend/lib/reviewBoard.ts:232-244 | What is read of a text that is no array, and of any other value. |
| ReviewSteps.SavedAre | Tesbo-Frontend/lib/reviewBoard.ts:325-327 | Exactly the steps with a text are sent, as typed, numbered from one. |
| ReviewSteps.SaveSteps | Tesbo-Frontend/lib/reviewBoard.ts:325-327 | Blank steps are dropped and the rest numbered. |
| ReviewSteps.ChangedEditFields | Tesbo-Frontend/lib/reviewBoard.ts:307-330 | The patch. |
| ReviewSteps.NothingToSendIff | Tesbo-Frontend/lib/reviewBoard.ts:306-330 | The patch is empty exactly for the draft the editor opened with. |
| ReviewSteps.SaveSettlesIff | Tesbo-Frontend/lib/reviewBoard.ts:306-330 | After saving, the next patch is empty, if and only if the steps were left alone or the draft's steps are trimmed and none is blank. |

## Left out

- TitleRecognition.PrintedKeyIsCandidate: one direction only; a printed title that misses the spec's own key can still hit
  the key of the body alone, as with a describe block called `that`. KeyReadsBackIff is exact about the own key, and
  PushLimits.StoredOnceIff is exact about recognition.
- PushRuns.SelfRecognisedWhen: one direction only, for the same reason; PushRuns.SelfRecognisedExactly is exact for every spec.
- InlineMarks.MarksSurviveIff: neighbouring runs have different marks, since an editor joins those that do not; links, which could
  part two such runs, are not modelled.
- OAuthFlow.OrderlyIffNeverTooEarly: the component stays mounted; its unmount clean-up (line 134 of the hook) is no event of the
  flow, so neither this nor CalmRunNeverHangs speaks about an unmount while the url is still awaited.
- ImportRows.ErrorGroups: the sorting of the groups by size.
- PushSuites.RunPlaces: the ids that the project gives out are taken to be non-empty, without colons and not the word `root`.
- PushRuns.StoredAtMostOnce: the x-total-count header is taken to be the true number of cases in the theorems about many runs;
  SuitePush.Push.Run and StageIndex also model a missing or wrong one. A null title counts as empty. `toLowerCase` of suite names and `suiteNameFor` are parameters.
- ReviewSteps.StoredShapesAgree: JSON.parse is a parameter, taken to invert encoding on the two texts at hand.
- ImportSteps.StepsRoundTrip: actions without line break, bar or arrow; results that the reader puts back together, which
  those without arrows are.
- CommentNormaliser.NormaliseIsIdempotent: the editor's own loading of HTML is reduced to one node per block, texts kept.
- OAuthFlow.CalmRunNeverHangs: phase reads are current; a callback that saw an older render's phase is not modelled.
- Resolver.ResolveWrappers: a parameter name with regular-expression characters is taken literally when a trailing
  interpolation is cut; the scan of the source files that finds the wrappers is not modelled.
- Csv.RoundTrip: a number cell is modelled by its printed text.
- Strings are sequences of Unicode characters, not UTF-16 code units, and list numbers are unbounded.
- The rest of push-to-tesbo.ts: reading the Playwright report, case descriptions, the printed plan.
- Links, inline code and tables inside the mark theorem; mention highlighting; `markdownToPlainText`.
- `normalizePath`, `areaOf` and the report's output; `buildCompareRows`, `buildContextRows`, explanations.
- Edits of the staged file list while an upload is running; custom-field validation of an import row is a parameter, and the
  sorting of merged errors is left out.
- The teardown of cycles and runs; rows written by others during the drain.
- The endpoint wrappers and types of `api.ts`; React rendering, TipTap, SheetJS; the other load scenarios; the backend.
