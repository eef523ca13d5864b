# Proofs about the router manager's backend

The router container of this repository is managed by a Go backend. This project models
the parts of it that carry state, text formats or arithmetic, in Dafny, and proves what
they promise, over every input, every run and every interleaving.

- **Password gate** (`Backoff`, `Gate`, `GateLocks`, `GateSlots`, `GateLockout`,
  `GateVerdicts`, `GateOutcomes`, `GateRecords`, `GateSession`, `KeyLockTable`,
  `PasswordFile`, `Session`, `TokenText`, `Numerals`, `Powers`). Guesses are throttled per client by a failure
  counter with capped exponential backoff. The check, the slow verification and the
  recording are held together by a reference-counted table of per-key mutexes; at most two
  verifications run at once. Sessions are signed tokens that slide for fifteen minutes at
  a time under a twelve-hour cap.
  `Gate` is the state machine of all goroutines inside `TryUnlock` and `ChangePassword`,
  one step per critical section; `KeyLockTable` is the same table on the heap;
  `PasswordFile` is what happens to the file when a changed password is stored.
- **Caddy fragments** (`Text`, `ForwardAuth`, `DevProxy`, `DevProxyParser`,
  `DevProxyLanguage`, `DevProxyTheorems`, `AppRoutes`, `AppRoutesTheorems`, `Normalize`,
  `Validate`, `Patterns`, `FragmentText`, `FragmentDir`, `FragmentEffects`). Two packages print routes as text, parse them back with
  hand-written line parsers that also take older spellings, rewrite old spellings at
  startup, and update one file per route around `caddy adapt`. `DevProxyLanguage` and
  `AppRoutesTheorems` characterise the accepted texts exactly.
- **VNC registry** (`Vnc`, `VncTheorems`, `VncAnswers`, `Kicks`, `VncConns`). A list of targets is kept
  in lockstep with the App Route fragments it owns, across validation failures, failed
  adapts, failed reloads, failed saves, renames and backend switches.
- **Egress rules** (`Cidr`, `Backstop`, `BackstopLimits`, `BackstopText`, `LiveConfig`,
  `LiveConfigRuns`, `LiveConfigEffects`). CIDR arithmetic, the check an outbound list must pass, what the firewall script makes of an accepted
  list, and concurrent updates of one configuration file by temp file, chmod and rename,
  with crashes between any two steps.
- **Builtin blocklist** (`Blocklist`, `BlocklistRecovery`, `Manifest`). The shipped list, the live copy and a
  manifest of hashes, reconciled by a shell script at start and by two buttons in the API,
  and the manifest's text format that Go and the script share.
- **tinyauth users** (`TinyauthEnv`, `TinyauthEdits`). The user store and the quoted shell assignment that
  hands it to tinyauth.

Operations the program performs step by step are methods, most of them on classes with the
program's own fields, proved equal to specification functions; the theorems are lemmas
about those functions and about runs of them. What the program cannot decide (whether a
write, `caddy adapt`, a reload or a password verification succeeds, what the clock says,
which goroutine moves next) is a parameter, quantified over.

## Results worth knowing

Where the code does not do what its comments or a reader would expect, there is a lemma
with an input, and one with the exact condition.

- **A VNC update whose registry save fails is not rolled back.** The registry and the
  fragment still agree afterwards exactly if the new target wants no route, or the same one
  (`UpdateWithFailedSave`; `FailedSaveCanDiverge` is an input where they do not). In every
  other run they stay in lockstep (`EveryRunInLockstep`).
- **A failing existence test counts as absence.** A create or rename then writes over a
  fragment that belongs to somebody else. Such a fragment is safe exactly if that does not
  happen (`StrangersExactly`; `StrangerCanBeOverwritten` is an input where it does).
- **Fragment updates are all-or-nothing only up to file operations.** An update that fails
  before the reload leaves the directory untouched except exactly when a failing write or
  restore left other content, the content to restore could not be read, in which case the
  working fragment is removed, or the old file of a rename could not be removed
  (`UpdateIsAllOrNothing` and its siblings, with one input for each failure).
- **The outbound check is about single rules.** Each private range needs a block rule over
  all of it and admits no allow rule over all of it, but two allow rules over its halves
  are accepted and open it (`TwoHalvesOpenTheRange`). An accepted list keeps a range closed
  exactly if no allow inside it comes first for any address (`ClosedExactly`), which can be
  decided from the list (`ClosedIsDecided`); it leaves some of the range closed if the
  allows inside name fewer addresses than the range has (`FewAllowsLeaveSomeClosed`).
- **A start of the DNS program killed between copying the blocklist and writing the
  manifest strands the copy**: it is not updated again until a pull, although nobody
  touched it (`CutStartStrandsTheCopy`). Exactly such starts do harm, unless the copy
  already was what is shipped (`UntouchedCopyStaysInSync`).
- **A switch-off killed before it got to the manifest leaves an update on offer** over no
  copy at all (`CutSwitchOffLeavesAnOffer`), exactly while the manifest names content no
  longer shipped and nothing but failed attempts follows (`OfferImpliesDiverged`).
- **Password checks on other keys can delay a call**, or have it answered "busy", through
  the two verification slots, for three seconds at most; nothing else of another key can
  (`OnlyKeyAndSlotsDelay`, `QueueEnds`, `OtherKeysUntouched`).
- **Changing the password from two clients at once can report success over an empty
  file**: the per-key mutexes do not exclude each other, and both calls use one temporary
  file. A further change is safe to begin exactly if no other one is underway
  (`SafeToBeginExactly`); one at a time they report the truth, whatever fails
  (`CallsInTurnAreTrue`).
- **The App Routes parser takes one line more than any version printed**:
  `\treverse_proxy {`, in which one space serves both the directive and the open brace
  (`TargetOfExactly`).
- **The limit for pauses between visits is exact**: seven and a half minutes always keep a
  session, any longer pause can lose it (`SteadyUseStaysUnlocked`, `LongerPausesCanLock`).
- **A manifest entry without a hash** reads as empty in Go and as `builtin` in the script
  (`EmptyHashReadsDifferently`); no program writes one, and both read every file they
  write alike (`BothReadersAgree`).

## Model

| member | source | states |
|---|---|---|
| `Backoff.DoubledBackoff` | backend/internal/authgate/gate.go:229-248 | the doubling loop yields min(5 s * 2^(n-5), 5 min) for every failure count n, and never leaves the range of a 64-bit duration |
| `Backoff.TotalDelayClosedForm` | backend/internal/authgate/gate.go:34-38 | k failures in a row cost 315 s plus five minutes for each one after the eleventh |
| `Backoff.AttemptTable.RateLimited` | backend/internal/authgate/gate.go:210-221 | the time reported as remaining is the exact time until the key is no longer limited |
| `Backoff.AttemptTable.RecordFailure` | backend/internal/authgate/gate.go:229-248 | counts the failure and from the fifth on sets the closed-form lockout; other keys keep their entries |
| `Backoff.SuccessStartsOver` | backend/internal/authgate/gate.go:252-256 | after a success the key is not limited until its fifth failure from then on, whatever came before; nobody else's entry changes |
| `GateLocks.TableCountsUsers` | backend/internal/authgate/gate.go:173-206 | in every interleaving: an entry exists iff some goroutine is between increment and decrement, its count is their number, all on one key share one mutex, at most one is in the critical section, and the table is empty once all calls have returned |
| `GateSlots.AtMostTwoVerify` | backend/internal/authgate/password.go:40-52 | in every interleaving at most two goroutines verify a password at once, and the channel counts them |
| `GateSlots.OnlyKeyAndSlotsDelay` | backend/internal/authgate/gate.go:185-206 | a goroutine that cannot move has returned, waits for its own key's mutex, whose holder can move or waits for a slot, or waits for a slot, for less than three seconds so far, one of whose holders can move |
| `GateSlots.NoDeadlock` | backend/internal/authgate/gate.go:185-206 | while some call has not returned, some goroutine can move |
| `GateSlots.QueueEnds` | backend/internal/authgate/password.go:122-129 | three seconds after it started to wait for a slot, a goroutine can move, with a slot or without |
| `GateLocks.OtherKeysUntouched` | backend/internal/authgate/gate.go:185-256 | but for the verification slots, no step on one key changes another key's failure count, lockout, table entry or mutex |
| `KeyLockTable.KeyLocks.Insert` | backend/internal/authgate/gate.go:185-195 | a fresh lock object joins the map, and every other object stays what and where it was |
| `KeyLockTable.KeyLocks.Enter` | backend/internal/authgate/gate.go:185-197 | the shared objects on the heap end up exactly as the protocol's entering step says |
| `KeyLockTable.KeyLocks.Acquire` | backend/internal/authgate/gate.go:197-197 | locking the object's mutex is the protocol's acquiring step |
| `KeyLockTable.KeyLocks.Release` | backend/internal/authgate/gate.go:199-199 | unlocking it is the protocol's releasing step |
| `KeyLockTable.KeyLocks.Drop` | backend/internal/authgate/gate.go:200-204 | the entry disappears with the last reference only |
| `GateLockout.LockoutBound` | backend/internal/authgate/gate.go:479-498 | with any number of goroutines calling TryUnlock and ChangePassword, k failed verifications on one key without a success between them span at least the sum of the lockouts |
| `GateVerdicts.VerdictsAreHonest` | backend/internal/authgate/gate.go:333-498 | a call that came to a verdict compared the guess with a password that was effective at some moment between its beginning and its return, and granted it iff they were the same |
| `GateOutcomes.CheckIsExact` | backend/internal/authgate/gate.go:479-489 | in every reachable state, a goroutine at its check is answered RateLimited iff the recorded verifications hold at least five failures of its key since its last success and the lockout after the last of them is not over; any other goes on to verify |
| `GateOutcomes.PastTheCheck` | backend/internal/authgate/gate.go:333-357 | whatever the others do meanwhile, a goroutine past the check that gets a slot is granted iff its guess is the hash it read: TryUnlock goes on to Unlocked, ChangePassword to storing, and with another guess both to WrongPassword |
| `GateOutcomes.CallAloneReturns` | backend/internal/authgate/gate.go:479-498 | in every reachable state, a call on a key nobody is using, while a slot is free, returns exactly the first of these that applies: pinned by the environment, not configured, rate limited, malformed hash, wrong password; otherwise it unlocks, or changes the password unless storing fails |
| `GateRecords.EveryGuessIsRecordedOnce` | backend/internal/authgate/gate.go:229-256 | in every interleaving a key has one recorded failure for each of its calls that came to WrongPassword, one recorded success for each that was granted, and there is one token for each Unlocked |
| `GateRecords.StoredIsLastWritten` | backend/internal/authgate/gate.go:352-357 | the stored password is the one given to the last ChangePassword that came to Changed, or set from outside since, or the one at the start; no other call touches it |
| `PasswordFile.CallsInTurnAreTrue` | backend/internal/authgate/store.go:35-52 | while changes follow one another, the file changes iff one reports success, and then to what it was given, however their steps end |
| `PasswordFile.SafeToBeginExactly` | backend/internal/authgate/store.go:35-52 | after changes in turn, one more can begin without any report becoming false, however all go on, iff no other is underway |
| `PasswordFile.OvertakenIsFalse` | backend/internal/authgate/store.go:35-52 | the steps by which a second call makes the first report success over an empty file, wherever the first one is |
| `Session.RootFixesOrigin` | backend/internal/authgate/gate.go:363-379 | however long the chain of refreshes, a token's origin is the second its password was typed in |
| `Session.AcceptedDescendsFromPassword` | backend/internal/authgate/gate.go:398-468 | every accepted request, with any token issued so far, goes back through its refreshes to a login less than 12 h before, through a token minted less than 15 min before |
| `GateSession.AcceptedNeedsThePassword` | backend/internal/authgate/gate.go:479-498 | that login is a TryUnlock, in any interleaving of the gate, whose guess was the effective password at some moment between its beginning and the minting |
| `Session.AcceptedExactly` | backend/internal/authgate/gate.go:452-468 | a genuine token is accepted iff both deadlines, in whole seconds, lie ahead |
| `Session.AcceptedInSeconds` | backend/internal/authgate/gate.go:430-468 | a token with a good signature, minted here or not, is accepted iff its times are in order and not ahead of the clock, and lie less than 900 s and 43200 s back |
| `Session.RefreshExtends` | backend/internal/authgate/gate.go:561-571 | an accepted cookie is replaced iff it is at least 450 s old; the new one keeps the login time, never ends earlier, and ends later unless the old one already ended at the cap |
| `Session.SteadyUseStaysUnlocked` | backend/internal/authgate/gate.go:561-571 | visits at most 7 min 30 s apart are all accepted until the 12 h cap, despite skipped refreshes and truncated seconds |
| `Session.LongerPausesCanLock` | backend/internal/authgate/gate.go:64-69 | any longer pause can lose the session |
| `TokenText.MintThenRead` | backend/internal/authgate/gate.go:375-441 | the two times written into a token are read back from it, for every 64-bit time; an old one-timestamp payload counts for both |
| `TokenText.ReadExactly` | backend/internal/authgate/gate.go:418-430 | a signed payload is read as two times iff it is two base-ten 64-bit numerals around a colon, or one, which counts for both |
| `ForwardAuth.MatchLines` | backend/internal/devproxy/forwardauth.go:118-128 | true iff the wanted lines are next |
| `ForwardAuth.MatchForwardAuth` | backend/internal/devproxy/forwardauth.go:109-116 | advances past a block iff one, in either spelling, is next |
| `ForwardAuth.MatchedExactly` | backend/internal/devproxy/forwardauth.go:44-116 | 13 lines are taken iff they are the current block, 3 iff the legacy one, never another number: the two spellings cannot be confused |
| `ForwardAuth.RenderForwardAuth` | backend/internal/devproxy/forwardauth.go:102-104 | the joined text is the block's lines, each ended by a newline |
| `ForwardAuth.OneBlockOpensOnce` | backend/internal/devproxy/forwardauth.go:44-104 | a block of either spelling opens one forward_auth directive |
| `FragmentText.BlockText` | backend/internal/devproxy/forwardauth.go:44-97 | the lines of the current and of the legacy block, spelled out, at any indentation |
| `FragmentText.RouteText` | backend/internal/devproxy/devproxy.go:212-235 | the lines of every route, spelled out in their order: login, prefix, rewrite, proxy without the login cookies |
| `FragmentText.ExposeText` | backend/internal/devproxy/devproxy.go:196-210 | the text of every expose: matcher, handler, the routes in order or the placeholder, closing brace |
| `FragmentText.AppText` | backend/internal/approutes/approutes.go:113-133 | the text of every app: path, login, proxy with its redirects brought back under the path, without the login cookies |
| `Text.SplitUnlines` | backend/internal/devproxy/devproxy.go:242-246 | splitting printed text at newlines gives its lines back |
| `Text.DropBlankTailExactly` | backend/internal/devproxy/devproxy.go:243-246 | trimming leaves the longest stretch that ends in a line that is not blank |
| `DevProxy.Render` | backend/internal/devproxy/devproxy.go:196-235 | the builder loop writes the current spelling of the expose, for any number of routes |
| `DevProxy.RenderRoute` | backend/internal/devproxy/devproxy.go:212-235 | one route is written as the lines of its current spelling |
| `DevProxyParser.ParseStructured` | backend/internal/devproxy/devproxy.go:242-274 | the indexed loops compute the parse relation that AcceptedLanguage characterises |
| `DevProxyParser.ParseRoute` | backend/internal/devproxy/devproxy.go:282-330 | takes one route off the lines at the index and moves the index past exactly its lines |
| `DevProxyParser.ParseRest` | backend/internal/devproxy/devproxy.go:302-330 | the optional lines and the proxy of a route, likewise |
| `DevProxyParser.ParseProxy` | backend/internal/devproxy/devproxy.go:310-325 | both forms of the proxy, likewise |
| `DevProxyLanguage.TakeStripExactly` | backend/internal/devproxy/devproxy.go:302-305 | what strips a prefix line, and what counts as having none |
| `DevProxyLanguage.TakeRewriteExactly` | backend/internal/devproxy/devproxy.go:306-309 | the same for the rewrite line |
| `DevProxyLanguage.TakeProxyExactly` | backend/internal/devproxy/devproxy.go:310-325 | which lines are a proxy to a target: the block with the cookie strip, or the bare line |
| `DevProxyLanguage.ParseLinesExactly` | backend/internal/devproxy/devproxy.go:242-274 | lines parse to e iff they are one of the listed current or legacy spellings of e |
| `DevProxyTheorems.AcceptedLanguage` | backend/internal/devproxy/devproxy.go:236-330 | a text parses to e iff, up to trailing blank lines, it is one of those spellings |
| `DevProxyTheorems.PrintThenParse` | backend/internal/devproxy/devproxy.go:196-274 | printing and parsing gives the expose back |
| `DevProxyTheorems.ParsedIsPlain` | backend/internal/devproxy/devproxy.go:242-330 | nothing that comes out of the parser spans lines, so it can be printed safely |
| `DevProxyTheorems.ParsePrintParse` | backend/internal/devproxy/normalize.go:26-59 | for every text, parse, print, parse equals parse |
| `DevProxyTheorems.ParsedAuthIsThere` | backend/internal/devproxy/devproxy.go:292-301 | a text that parses opens as many forward_auth blocks as it has routes that require authentication |
| `DevProxyTheorems.PrintKeepsAuth` | backend/internal/devproxy/forwardauth.go:44-128 | re-printing never drops and never adds authentication |
| `Validate.ValidatedRoundTrip` | backend/internal/devproxy/devproxy.go:126-186 | every expose the API accepts comes back from its file exactly as it went in |
| `Patterns.NamePattern` | backend/internal/devproxy/devproxy.go:126-126 | the predicate on names is the regular expression, for every string |
| `Patterns.HostPattern` | backend/internal/devproxy/devproxy.go:140-140 | the predicate on hosts (no empty label, at most a leading wildcard) is the regular expression |
| `Patterns.PathPattern` | backend/internal/devproxy/devproxy.go:181-181 | the same for paths and prefixes |
| `Patterns.TargetPattern` | backend/internal/targetguard/targetguard.go:65-65 | the same for targets |
| `Patterns.GateHostPattern` | backend/internal/netgate/config.go:52-60 | the same for the hosts of forwards and limits |
| `Patterns.UserPattern` | backend/internal/tinyauthusers/store.go:38-52 | the same for user names |
| `AppRoutes.Render` | backend/internal/approutes/approutes.go:121-133 | the builder writes the current spelling of the app |
| `AppRoutes.ParseStructured` | backend/internal/approutes/approutes.go:139-181 | the loop and the index checks compute the parse relation that AcceptedLanguage characterises |
| `AppRoutesTheorems.TargetOfExactly` | backend/internal/approutes/approutes.go:158-166 | which line names which target, including the one odd spelling |
| `AppRoutesTheorems.AcceptedLanguage` | backend/internal/approutes/approutes.go:139-181 | a text parses to a iff, up to trailing blank lines, it is one of its spellings |
| `AppRoutesTheorems.PrintThenParse` | backend/internal/approutes/approutes.go:121-181 | printing and parsing gives the app back |
| `AppRoutesTheorems.ParsePrintParse` | backend/internal/approutes/normalize.go:18-51 | for every text, parse, print, parse equals parse |
| `AppRoutesTheorems.ParsedAuthIsThere` | backend/internal/approutes/approutes.go:151-157 | a text that parses opens one forward_auth block iff the app requires authentication |
| `Normalize.NormalizeAll` | backend/internal/devproxy/normalize.go:26-59 | every listed file ends up re-printed if it parses and untouched if it does not or cannot be read, up to the first failed write; no other file changes; the names returned are exactly those rewritten |
| `Normalize.NormalizeOne` | backend/internal/approutes/normalize.go:28-48 | one file of the listing, likewise |
| `Normalize.SecondPassExactly` | backend/internal/devproxy/normalize.go:26-59 | a second startup rewrites exactly the files the first could not read, it can, and that need it: nothing else |
| `Normalize.NormalizingKeepsMeaning` | backend/internal/devproxy/normalize.go:14-25 | normalizing keeps the parse and the number of forward_auth blocks, in both packages |
| `Normalize.RawTextIsKept` | backend/internal/devproxy/normalize.go:26-59 | a fragment that does not parse is left as it is |
| `Normalize.OneTextPerExpose` | backend/internal/devproxy/normalize.go:26-59 | all spellings of one expose become its printed text, and spellings of two exposes become one text only if the exposes are the same |
| `Normalize.OneTextPerApp` | backend/internal/approutes/normalize.go:18-51 | the same for apps |
| `FragmentDir.Dir.DoWriteAndValidate` | backend/internal/approutes/approutes.go:235-256 | the file operations, in order, and what is on disk after each of them |
| `FragmentDir.Dir.DoCreate` | backend/internal/approutes/approutes.go:286-297 | likewise for a new fragment |
| `FragmentDir.Dir.DoUpdate` | backend/internal/devproxy/devproxy.go:469-491 | likewise for an update or rename |
| `FragmentDir.Dir.DoUpdateRaw` | backend/internal/approutes/approutes.go:331-342 | likewise for a raw edit |
| `FragmentDir.Dir.DoDelete` | backend/internal/approutes/approutes.go:345-360 | removal comes before the adapt, and stays if the adapt fails |
| `FragmentEffects.CreateDoesExactly` | backend/internal/approutes/approutes.go:286-297 | a create succeeds iff the name is valid, not seen to be taken, and every call out goes well, and then the directory has the content under the name and nothing else changed; each error iff its own reason; a refusal touches nothing |
| `FragmentEffects.UpdateDoesExactly` | backend/internal/approutes/approutes.go:304-326 | the same for an update, with the old name gone after a rename |
| `FragmentEffects.UpdateRawDoesExactly` | backend/internal/approutes/approutes.go:331-342 | the same for the raw editor: the file holds the text it was given |
| `FragmentEffects.DeleteDoesExactly` | backend/internal/approutes/approutes.go:345-360 | the same for a delete: the fragment is gone iff it was seen and could be removed |
| `FragmentEffects.ReportsAreTrue` | backend/internal/approutes/approutes.go:286-360 | after any sequence of calls whose failures left no trace, the directory is what the requests reported as done, in their order, make of it |
| `FragmentDir.UpdateIsAllOrNothing` | backend/internal/devproxy/devproxy.go:382-491 | exactly when an update that fails before the reload leaves the directory as it was, with every existence test, read, write, restore and removal free to fail |
| `FragmentDir.CreateIsAllOrNothing` | backend/internal/approutes/approutes.go:235-297 | the same for a create |
| `FragmentDir.UpdateRawIsAllOrNothing` | backend/internal/approutes/approutes.go:331-342 | the same for a raw edit |
| `FragmentDir.ShortWriteLeavesATrace` | backend/internal/approutes/approutes.go:244-246 | an input where a failing write leaves other content |
| `FragmentDir.FailedRestoreLeavesATrace` | backend/internal/approutes/approutes.go:247-252 | one where the restore after a failed adapt fails |
| `FragmentDir.UnreadableFragmentIsRemoved` | backend/internal/approutes/approutes.go:237-252 | one where the previous content cannot be read, and a failed adapt removes the working fragment |
| `FragmentDir.FailedRemovalLeavesBoth` | backend/internal/approutes/approutes.go:320-324 | one where a rename leaves both files |
| `FragmentDir.RenameNeverLosesTheFragment` | backend/internal/devproxy/devproxy.go:469-491 | at every moment of a rename the old fragment or the validated new one is there |
| `FragmentDir.OtherFilesUntouched` | backend/internal/approutes/approutes.go:286-360 | no operation changes a file it was not asked about |
| `Vnc.Registry.DoCreate` | backend/internal/vnc/vnc.go:501-536 | route first, then the list, rolling the route back if the save fails |
| `Vnc.Registry.DoCreateRoute` | backend/internal/vnc/vnc.go:540-550 | creates the fragment of the target and refuses an existing one |
| `Vnc.Registry.DoBringRouteAlong` | backend/internal/vnc/vnc.go:585-603 | the route is created, updated, re-created or removed as the stored and the new target need |
| `Vnc.Registry.DoUpdate` | backend/internal/vnc/vnc.go:565-609 | the whole update, with every early return |
| `Vnc.Registry.DoDelete` | backend/internal/vnc/vnc.go:620-650 | the whole delete; a missing route is no error |
| `VncTheorems.EveryRunInLockstep` | backend/internal/vnc/vnc.go:411-425 | after every run names are distinct, no target has diverged, no fragment is orphaned and other people's fragments are as they were, whatever adapt and reload answered and although saves may fail |
| `VncTheorems.CreateKeepsLockstep` | backend/internal/vnc/vnc.go:501-536 | one create, also when its save fails and is rolled back |
| `VncTheorems.UpdateKeepsLockstep` | backend/internal/vnc/vnc.go:565-609 | one update that does not fail to save |
| `VncTheorems.DeleteKeepsLockstep` | backend/internal/vnc/vnc.go:620-650 | one delete, also when adapt or save fails |
| `VncTheorems.UpdateWithFailedSave` | backend/internal/vnc/vnc.go:601-609 | exactly when a failed save leaves fragment and registry in agreement |
| `VncTheorems.FailedSaveCanDiverge` | backend/internal/vnc/vnc.go:601-609 | an input where it does not |
| `VncTheorems.StrangersExactly` | backend/internal/vnc/vnc.go:501-650 | a fragment whose name no stored App-Route-backed target holds is safe from a call, whatever its other steps answer, iff the call does not go on to write it after its existence test failed |
| `VncTheorems.StrangerCanBeOverwritten` | backend/internal/approutes/approutes.go:286-297 | an input where a failing existence test lets a create write over somebody else's fragment |
| `VncTheorems.CreatedMeansThere` | backend/internal/vnc/vnc.go:497-536 | a create reported as done has added exactly that target, with its route in place |
| `VncTheorems.UpdatedMeansThere` | backend/internal/vnc/vnc.go:553-609 | an update reported as done has replaced exactly that target, its route is in place, and an old route it does not keep is gone unless the test of its existence failed |
| `VncTheorems.DeletedMeansGone` | backend/internal/vnc/vnc.go:612-650 | a delete reported as done has removed exactly that target, and its route unless the test of its existence failed |
| `VncTheorems.CreateSucceedsExactly` | backend/internal/vnc/vnc.go:501-536 | with nothing failing outside, a create succeeds iff the target is valid, its name is not registered, and nobody owns the fragment it needs |
| `VncTheorems.UpdateSucceedsExactly` | backend/internal/vnc/vnc.go:553-609 | the same for an update: a route that went missing is no obstacle |
| `VncTheorems.DeleteSucceedsExactly` | backend/internal/vnc/vnc.go:612-650 | a delete of a registered target always goes through, with its route or without |
| `VncAnswers.CreateAnswers` | backend/internal/vnc/vnc.go:501-536 | for all answers of the outside world: a create goes through iff the target is valid, its name free, its route gets into place and the registry is saved; each error iff its own reason; without success the registry is as before, and the directory too if the file operations went well |
| `VncAnswers.UpdateAnswers` | backend/internal/vnc/vnc.go:565-609 | the same for an update, through its four changes of routes and the re-creation of a missing one |
| `VncAnswers.DeleteAnswers` | backend/internal/vnc/vnc.go:620-650 | the same for a delete |
| `VncAnswers.RouteStateExactly` | backend/internal/vnc/vnc.go:411-425 | a route is missing iff a fragment is wanted and there is none, and diverged iff there is one that does not parse back to this very target |
| `VncAnswers.SavedInNameOrder` | backend/internal/vnc/vnc.go:392-399 | the saved list has exactly the targets given, in ascending order of names |
| `VncAnswers.LessExactly` | backend/internal/vnc/vnc.go:393-393 | the order is that of the first character that differs |
| `VncAnswers.EveryRunInNameOrder` | backend/internal/vnc/vnc.go:392-650 | after every run, whatever failed in it, the registry is in name order and has every name once |
| `Cidr.NestedOrDisjoint` | backend/internal/netgate/config.go:263-272 | any two prefixes are nested or disjoint |
| `Cidr.CoversIsInclusion` | backend/internal/netgate/config.go:263-268 | covers holds iff every address of the one is an address of the other |
| `Cidr.OverlapsIsIntersection` | backend/internal/netgate/config.go:270-272 | overlaps holds iff some address is in both |
| `Cidr.IsInterval` | backend/internal/netgate/config.go:249-261 | masking selects the interval of 2^(32-n) addresses from the network's base |
| `Cidr.ParsedIsAdmitted` | config/netgate/firewall.default.sh:68-73 | the script never skips a rule the backend parsed as IPv4 |
| `Backstop.CheckV4Backstop` | backend/internal/netgate/config.go:274-305 | no error iff every private range stays blocked and no allow touches a fixed range; an error names a rule or range at fault |
| `Backstop.CheckPrivate` | backend/internal/netgate/config.go:277-292 | the blocked flag decides exactly that for one range |
| `Backstop.CheckFixed` | backend/internal/netgate/config.go:293-303 | one rule against all fixed ranges |
| `Backstop.ValidateOutbound` | backend/internal/netgate/config.go:313-324 | accepts iff every rule is well formed and the backstop holds; an error says what is wrong with the list |
| `Backstop.FirstMatchDecides` | config/netgate/firewall.default.sh:282-303 | the rules the script emits decide by the first one that matches |
| `Backstop.PrivateNeedsANarrowAllow` | backend/internal/netgate/config.go:226-230 | of an accepted list, an address of a private range is let through only by a matching allow strictly narrower than the range |
| `Backstop.FixedIsNeverAllowed` | backend/internal/netgate/config.go:232-235 | no allow of an accepted list names any address of a fixed range, also not in an IPv4-mapped spelling |
| `Backstop.BackstopExactly` | backend/internal/netgate/config.go:274-305 | what the check admits, in terms of addresses alone, both ways |
| `BackstopText.AddressExactly` | backend/internal/netgate/config.go:252-261 | a text is read as an address iff it is the dotted quad of that address, no field with a leading zero |
| `BackstopText.RuleNetExactly` | backend/internal/netgate/config.go:249-261 | IPv6 aside, a rule names a network iff it is an address alone, or an address with a mask length and the network is the one of that length that holds it |
| `BackstopText.RangesAreAsWritten` | backend/internal/netgate/config.go:226-247 | the private and the fixed ranges are what this parser makes of their six written forms |
| `BackstopText.FirewallExactly` | config/netgate/firewall.default.sh:282-303 | a connection is dropped iff its address is a fixed one or the first rule that matches blocks, let through iff it is not and that rule allows, and otherwise left to what follows |
| `BackstopLimits.ClosedExactly` | backend/internal/netgate/config.go:226-230 | an accepted list drops all of a private range iff no allow rule inside the range has an address that no earlier rule matches |
| `BackstopLimits.AllGetExactly` | config/netgate/firewall.default.sh:282-303 | a procedure on the rules alone, splitting networks in two, decides for every list and network whether all addresses get a given verdict |
| `BackstopLimits.ClosedIsDecided` | backend/internal/netgate/config.go:226-230 | so whether a list keeps a range closed, and whether it opens all of it, can be checked before it is stored |
| `BackstopLimits.FewAllowsLeaveSomeClosed` | backend/internal/netgate/config.go:226-230 | if the allow rules inside a private range name fewer addresses than it has, an accepted list keeps some of it closed |
| `BackstopLimits.TwoHalvesOpenTheRange` | backend/internal/netgate/config.go:226-230 | an accepted list under which no address of 10.0.0.0/8 is blocked |
| `LiveConfig.ConfigFile.DoReplaceOutbound` | backend/internal/netgate/config.go:313-339 | replaces the list and nothing else, or leaves the file as it was |
| `LiveConfig.ConfigFile.DoAddForward` | backend/internal/netgate/config.go:352-384 | appends the forward unless its host port is taken |
| `LiveConfig.ConfigFile.DoDeleteForward` | backend/internal/netgate/config.go:434-455 | removes the forwards of that host port, in order, or reports there are none |
| `LiveConfig.ConfigFile.DoSetBandwidth` | backend/internal/netgate/config.go:401-432 | replaces the limits unless a value is out of range or a host occurs twice |
| `LiveConfig.ApplyKeepsSound` | backend/internal/netgate/config.go:313-455 | every admitted update keeps host ports distinct, shaped hosts distinct and the private ranges blocked |
| `LiveConfig.UnforwardedMembers` | backend/internal/netgate/config.go:441-450 | deleting removes exactly the forwards of that port |
| `LiveConfig.DeleteUndoesAdd` | backend/internal/netgate/config.go:352-455 | deleting a forward just added gives back the document there was |
| `LiveConfigEffects.CallDoesExactly` | backend/internal/netgate/config.go:313-455 | a call succeeds iff the request is valid, the host port of a new forward is free and that of a deleted one taken, and the file can be written; then exactly its own part of the document is the one given, or the list with that forward more or without that port; each error is the first reason that applies and leaves the file alone |
| `LiveConfigEffects.DeletionTakesOne` | backend/internal/netgate/config.go:441-450 | of distinct host ports a deletion takes out the one entry and keeps the others in their order |
| `LiveConfigRuns.StepKeepsInv` | backend/internal/atomicfile/atomicfile.go:23-41 | every step of every request, failing or not, and a crash, keep the invariant |
| `LiveConfigRuns.FileIsAlwaysAWholeDocument` | backend/internal/atomicfile/atomicfile.go:10-41 | at every moment, for readers without the lock and after any crash, the file is one whole document, the committed updates replayed in order, with mode 0644 since the first commit |
| `LiveConfigRuns.RequestsAreSerial` | backend/internal/netgate/config.go:41-45 | no lost update: a request that reported success is committed exactly once, one that reported an error never, and each behaved as if alone at a place in the lock order within its own call |
| `LiveConfigRuns.FileStaysSound` | backend/internal/netgate/config.go:313-455 | a checked file stays checked, whatever happens |
| `LiveConfigEffects.EachPartIsItsLastWrite` | backend/internal/netgate/config.go:41-45 | over all runs with failures and crashes: the outbound list is that of the last committed ReplaceOutbound, the bandwidth that of the last committed SetBandwidth, and the forwards are those added, or there at the start, and not deleted since |
| `LiveConfigEffects.OnlyOwnFailuresFail` | backend/internal/netgate/config.go:313-455 | in any company, a request whose own file operations all succeed returns success or the refusal that the document at its place in the order gives |
| `LiveConfigEffects.OnlyTheMutexDelays` | backend/internal/netgate/config.go:41-45 | an open request can move and gets nearer to its return, or waits for the mutex, whose holder can move |
| `Blocklist.Builtin.DoBoot` | config/dns/dns.default.sh:46-105 | the script's start is the machine's boot step, wherever it is cut short |
| `Blocklist.Builtin.BuiltinPull` | backend/internal/dns/blocklist.go:401-417 | the pull button is the machine's pull step, also when one of its writes fails |
| `Blocklist.Builtin.GetBuiltinStatus` | backend/internal/dns/blocklist.go:358-393 | the two flags, also without a manifest entry or a live copy |
| `Blocklist.ManifestRecordsShippedContent` | config/dns/dns.default.sh:57-78 | over all runs the manifest is empty or the hash of something that was shipped |
| `Blocklist.EditedCopySurvives` | config/dns/dns.default.sh:70-78 | a live copy unlike anything ever shipped survives every sequence of updates, starts and ignores until a pull, an edit or the switch-off |
| `Blocklist.UntouchedCopyStaysInSync` | config/dns/dns.default.sh:37-45 | the manifest keeps track of a copy nobody touched iff no start was cut short in a harmful way |
| `Blocklist.UntouchedCopyFollows` | config/dns/dns.default.sh:37-45 | after a finished start such a copy is what is shipped now iff no earlier start was cut short in a harmful way, or the stuck copy happens to be shipped again |
| `Blocklist.StuckCopyStays` | config/dns/dns.default.sh:74-78 | a copy the manifest has lost track of is never replaced by a start |
| `Blocklist.CutStartStrandsTheCopy` | config/dns/dns.default.sh:76-77 | a start killed between the copy and the manifest strands a copy nobody touched |
| `Blocklist.OfferImpliesDiverged` | backend/internal/dns/blocklist.go:395-400 | from any start on, finished or not, with shipped content fixed and no hand edits, an update is offered only over a copy that has diverged, iff the switch-off was not left hanging |
| `Blocklist.CutSwitchOffLeavesAnOffer` | config/dns/dns.default.sh:88-103 | a switch-off killed before it got to the manifest leaves an offer without a copy |
| `Blocklist.DecisionSticks` | backend/internal/dns/blocklist.go:395-436 | after a pull or an ignore nothing is offered until something new is shipped |
| `BlocklistRecovery.PullReplaces` | backend/internal/dns/blocklist.go:401-417 | after any run a pull whose write succeeds makes the live copy what is shipped now, whatever was there; a pull that succeeds leaves it in step with nothing on offer; one whose first write fails changes nothing |
| `BlocklistRecovery.PullRecovers` | backend/internal/dns/blocklist.go:395-417 | after a pull a copy, however stuck or edited before, is in step iff no later start is cut short in a harmful way, and follows the shipped content iff so or the shipped content happens to be its own |
| `BlocklistRecovery.MissingCopyIsSeeded` | config/dns/dns.default.sh:46-105 | a missing copy is seeded by a finished start, a switch-off removes any copy, and off and on again gives the shipped content |
| `BlocklistRecovery.IgnoreKeepsTheCopy` | backend/internal/dns/blocklist.go:419-436 | an ignore leaves the copy alone and records what is shipped |
| `BlocklistRecovery.OfferedExactly` | backend/internal/dns/blocklist.go:358-393 | over an edited copy, through updates, starts, further edits and failed attempts, an update is offered, as diverged, iff other content is shipped than it was synced to |
| `BlocklistRecovery.IgnoredUntilNews` | backend/internal/dns/blocklist.go:419-436 | an ignored update comes back iff other content is shipped than the one ignored |
| `Manifest.LoadManifest` | backend/internal/dns/reconcile.go:42-60 | the loop builds the map of the lines, a later line winning |
| `Manifest.SaveManifest` | backend/internal/dns/reconcile.go:64-73 | one line for each entry, in whatever order the map is ranged over |
| `Manifest.ReadLoop` | config/dns/dns.default.sh:57-64 | the read loop: trimmed lines, cut fields, the last builtin line wins, an unended line is not read |
| `Manifest.DropLoop` | config/dns/dns.default.sh:90-101 | the filter loop of the switch-off branch |
| `Manifest.SaveThenLoad` | backend/internal/dns/reconcile.go:42-73 | whatever the order of the lines, loading gives the map back |
| `Manifest.LoadSaveLoad` | backend/internal/dns/reconcile.go:42-73 | whatever the file held, what was loaded survives being saved |
| `Manifest.ShellReadsWhatGoSaved` | config/dns/dns.default.sh:57-64 | the script reads the hash Go stored |
| `Manifest.ShellWriteIsASave` | config/dns/dns.default.sh:66-78 | what the script writes is what Go would save for the one entry |
| `Manifest.ShellDropIsASave` | config/dns/dns.default.sh:88-103 | switching off removes the builtin entry and keeps the others |
| `Manifest.BothReadersAgree` | config/dns/dns.default.sh:57-103 | however Go and the script take turns on the file, both read the hash stored last |
| `Manifest.EmptyHashReadsDifferently` | config/dns/dns.default.sh:57-64 | a line they read differently |
| `Kicks.KickTable.Prune` | backend/handlers_vnc.go:296-303 | deletes exactly the entries whose window has passed |
| `Kicks.KickTable.KickClient` | backend/handlers_vnc.go:274-279 | prunes, then starts the client's window anew |
| `Kicks.KickTable.ClientKicked` | backend/handlers_vnc.go:286-292 | prunes, then answers for this client |
| `Kicks.RefusedExactlyInTheWindow` | backend/handlers_vnc.go:243-292 | over every history with a monotone clock, a client is refused iff its latest kick on that target is less than 15 s old |
| `Kicks.OnlyOpenWindowsAreKept` | backend/handlers_vnc.go:280-303 | after each call the table holds only kicks whose window had not passed when it pruned |
| `Kicks.LatestIsYoungest` | backend/handlers_vnc.go:274-279 | the latest kick is a kick of that client, and none is younger |
| `VncConns.ConnTable.DoRegister` | backend/handlers_vnc.go:204-214 | files the client under its target with a number not used before |
| `VncConns.ConnTable.DoDeregister` | backend/handlers_vnc.go:216-224 | takes it out, and the target's map with its last client |
| `VncConns.TableListsTheOpenClients` | backend/handlers_vnc.go:195-224 | over every history the table lists under each target exactly the clients still open there, and no empty targets |
| `TinyauthEnv.QuoteIsReadBack` | backend/internal/tinyauthusers/store.go:54-59 | for every string, the shell reads back exactly what was quoted |
| `TinyauthEnv.RenderEnvFile` | backend/internal/tinyauthusers/store.go:204-225 | the loop renders the users that have a hash, in order |
| `TinyauthEnv.EnvFileReadsBack` | backend/internal/tinyauthusers/store.go:204-225 | sourcing the file and splitting at commas and colons gives exactly the stored users that have a hash, in order |
| `TinyauthEnv.EveryStoreReadsBack` | backend/internal/tinyauthusers/store.go:122-225 | the same for whatever was added, reset and deleted before, each name once |
| `TinyauthEnv.EditChangesOneUser` | backend/internal/tinyauthusers/store.go:122-200 | an edit changes the named user only, and one that fails, also in hashing or saving, nobody |
| `TinyauthEnv.Store.AddUser` | backend/internal/tinyauthusers/store.go:122-144 | appends the user, or says why not |
| `TinyauthEnv.Store.SetUserPassword` | backend/internal/tinyauthusers/store.go:154-178 | replaces the first hash of that name, or says why not |
| `TinyauthEnv.Store.DeleteUser` | backend/internal/tinyauthusers/store.go:181-200 | removes that name, or says there is none |
| `TinyauthEdits.EditSucceedsExactly` | backend/internal/tinyauthusers/store.go:122-200 | an edit succeeds iff its input is complete and valid, the name is free for an addition and stored for the others, and hashing and saving work; each error iff its own reason, with the list as before |
| `TinyauthEdits.EditDoes` | backend/internal/tinyauthusers/store.go:122-200 | an addition comes last; a new password or a deletion touches the one place of the name, the others keep their order |
| `TinyauthEdits.StoreIsATable` | backend/internal/tinyauthusers/store.go:122-200 | after any sequence of edits, the hash stored for a name is that of the last edit that went through for it, and there is none after a deletion |
| `TinyauthEdits.WithHashExactly` | backend/internal/tinyauthusers/store.go:204-225 | a user is listed in the env file, in its place, iff it has a hash |

## Left out

- Cryptography: argon2, bcrypt, HMAC and SHA-1 are abstract. A password stands for its hash, only issued tokens verify, SHA-1 is injective. Base64 and the cookie around a token are not modelled, nor is the cookie's MaxAge.
- The first-run setup token (`SetupPassword`, `AnnounceSetupToken`): any change of the stored password from outside is a step of the machine.
- GateRecords.StoredIsLastWritten: storing a changed password is one step of the gate's machine. What calls on different keys do to each other in the temporary file they share is shown by `PasswordFile` alone.
- Clocks are monotone, as Go's are within one process; a wall clock set back between processes is not modelled.
- Session tokens whose signature does not verify: they are refused before anything modelled here.
- Which hosts the targetguard allowlist admits is a parameter.
- strconv.Quote for characters that do not print, other than control characters: the names it is used on are limited to letters, digits and hyphens.
- `caddy`, `iptables`, `yq` and `supervisord` are outcomes or not modelled; `caddy adapt` validates every fragment at once, so an answer may depend on other fragments, which is why it is arbitrary here.
- `os.WriteFile` of a fragment is one step with a failure that leaves any content; a crash in the middle of a fragment write is not modelled. Crashes are modelled for the netgate file, whose writer promises to survive them.
- YAML and JSON: loading what was saved is the identity.
- Which texts with a colon are IPv6, or an IPv4-mapped address, is a parameter; the IPv6 side of the firewall and `EnsureSeeded`, which copies a file unchecked, are not modelled: `FileStaysSound` starts from a checked one.
- Forwards, conntrack and NAT in the firewall script: `Firewall` is about a new connection that no forward accepts.
- A blocklist copy (`cp`) cut short in the middle, and the script running at the same time as an API request, which nothing in the program prevents.
- The added and removed samples of the blocklist status, custom blocklist sources, custom hosts and the resolver settings.
- Lost updates in the tinyauth store: it takes no lock, so its edits are modelled one at a time.
- A VNC registry or user store that cannot be read or parsed: such a call returns the error before it changes anything. The netgate file's read failures are modelled.
- HTTP handlers, the WebSocket bridge, noVNC, Tailscale, nginx, Docker files and the frontend.
