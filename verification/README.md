# notebooklm-go: verified models

Dafny models of the parts of notebooklm-go whose correctness does not show in any one
function: a concurrent admission gate, a crash-atomic file writer, a cookie jar, a phased
lifecycle, a byte scrubber, a hand-written parser, two JSON codecs, a sealed registry and
the bounded retry loops. `dafny verify dfyconfig.toml` checks the whole project.

## What is modelled

| file | models |
|---|---|
| `Supervisor.dfy` | the drain gate, semaphore and lease as atomic steps of any number of callers, drainers and releasers |
| `CookieJar.dfy` | the jar over every history of `SetCookies` and `Cookies` calls with a moving clock |
| `Scrub.dfy` | the Cookie-header pass and the four token passes over bytes |
| `Rules.dfy` | the boundary rule-file parser, with a printer for the round trip |
| `AtomicFile.dfy` | any number of concurrent writers to one destination, each system call a step that may fail, with a crash possible between any two |
| `Lifecycle.dfy` | Register, Open and Close with arbitrary hook outcomes |
| `Storage.dfy`, `Json.dfy` | the storage document between its JSON tree and its typed form |
| `Chat.dfy` | the chat-history decoder over JSON trees |
| `Registry.dfy` | the idempotency registry against its registration log |
| `Refresh.dfy`, `Deadline.dfy` | the retry loops of L2.0, L2.5 and L3, and the T0 budget that clamps sleeps |
| `Text.dfy`, `Ordering.dfy` | the parts of Go's `strings` and `sort` the others need |

Code that changes things step by step is modelled by methods with loops and by classes with
fields; each such method is proved equal to a specification function or step function, and
the main results are lemmas about those over all inputs, all runs or all interleavings.
Runs are sequences of calls or atomic steps of any length.

What the code takes from outside is a parameter: the clock, hook outcomes, the answer of
each system call, the outcome of each refresh attempt and of each look at the context, the
embedded public-suffix table, and the order in which Go happens to iterate a map (`order`).
A lemma that holds for every `order` is a proof that iteration order does not matter.
Panics are modelled as `false` results, error values as datatype values without their text.

## Where the code differs from its documentation

The models follow the code. Each point names the lemma with the exact condition and, where the
failure is not plain from it, the lemma with an input.

- `Drain` is documented to refuse new calls; a caller already past the gate may still be
  admitted after it reads zero in flight (`DrainDoesNotFenceLateCaller`, `ZeroIsQuietIff`).
- `Cookies` is documented to prefer the most specific domain; a longer path beats a more
  specific domain (`LongerPathBeatsDomain`), and between equal paths domains are not compared
  and the choice falls to map iteration order (`TieIsReachable`). `MostSpecificWinsIff` and
  `OrderIndependentIff` say exactly when neither happens.
- `domainMatch` is documented to compare lower-cased names; the Domain attribute is stored as it
  came, so capitals in it keep the cookie from ever being sent (`CapitalIsStoredAndNeverSent`,
  `CaseMattersIff`).
- RFC 6265 section 5.3 lets a server delete a cookie with an expired Set-Cookie; the jar ignores
  such a cookie and keeps what it has (`DeletionIsIgnored`).
- `Close` is documented to respect phases; it runs in reverse registration order
  (`CloseRespectsPhasesIff`). Open after Close is documented to return an error; it succeeds on
  an object closed before it was opened (`EarlyCloseDisarms`) and reports success on one that
  was opened and torn down (`ReopenRun`, `OpenAfterCloseFailsIff`).
- A rule-file allowlist entry that contains a colon starts a sibling rule (`ColonEntryOpensRule`,
  `ColonFile`).
- `WriteFileWithBak` is documented to restore the previous contents when the write fails; a
  rollback that stops half-way tears a destination the failed write had left intact
  (`RollbackTears`), and a stale `.bak` beside an absent destination is put in its place
  (`StaleBakAppears`). `RollbackRestoresIff` is the exact condition.
- A temporary file left by a crash is documented to be cleaned up by the next write; no write
  ever removes one (`LeftoversStay`).
- A cookie without `expires` is documented to be a session cookie; it reads as expiry 0, and only
  the integer -1 makes a session (`SessionIff`).
- The inner id of an alternatively wrapped chat history is documented as informational; without
  it the turns are lost (`WrappingsRoundTrip`). Citation offsets are documented to sit behind the
  chunk text; in that layout every offset is read as zero (`DocumentedOffsetsAreLost`,
  `WrappingsRoundTrip`).
- L2.5 and L3 are documented to return the context's error when cancelled under way; after an
  attempt that failed for another reason the error does not mention the context
  (`CancellationHidden`, `CancellationShowsIff`, `ContextErrorIff`).

## Model

| member | source | states |
|---|---|---|
| Admission.Supervisor.EnterGate | internal/runtime/supervisor.go:170-178 | one locked pass of the drain gate: open leaves everything as it was, shut appends a new channel and touches nothing else |
| Admission.Supervisor.LeaveQueue | internal/runtime/supervisor.go:183-194 | a cancelled waiter takes out exactly its own channel |
| Admission.Supervisor.CompareAndSwap | internal/runtime/supervisor.go:224 | the slot is won exactly when the counter still holds the loaded value |
| Admission.Supervisor.BeginDrain | internal/runtime/supervisor.go:235-242 | sets the flag and touches nothing else |
| Admission.Supervisor.EndDrain | internal/runtime/supervisor.go:247-259 | run alone: clears flag and list, and closes every parked channel, each for the first time |
| Admission.Lease.Release | internal/runtime/supervisor.go:268-284 | run alone: the first call takes one off the counter, every later call nothing |
| Admission.SlotAccounting | internal/runtime/supervisor.go:209-229 | over every interleaving of any number of callers, drainers and releasers: in-flight is exactly the callers that won a slot and have not paid their one decrement, stays within the bound, and the negative-reset branch is dead |
| Admission.SlotIffFree | internal/runtime/supervisor.go:209-229 | in every reachable state a caller through the gate gets a slot by its own steps alone if and only if the limit is zero or the counter is below it, and then takes exactly one |
| Admission.AdmitIffOpenAndFree | internal/runtime/supervisor.go:127-165 | in every reachable state a caller at the gate gets all the way to its lease by its own steps alone if and only if no drain is in force and a slot is free |
| Admission.ReleaseFreesExactlyOne | internal/runtime/supervisor.go:268-284 | by any number of its own Release calls a lease can give one slot back and never gives back more |
| Admission.CancelReturns | internal/runtime/supervisor.go:180-223 | a caller cancelled while it waits for the drain or for a slot can return by its own steps: no slot taken, off the list without disturbing the others, counted as a failure exactly when it had counted as started |
| Admission.NoLostWakeup | internal/runtime/supervisor.go:169-197 | over every interleaving: while no drain is in force nobody is on the waiter list; a blocked caller is on the list of a drain in force, or in a batch some EndDrain still has to close, or can run; every channel on the list belongs to a caller that still waits on it; no channel is closed twice |
| Admission.AllAwakeAfterDrain | internal/runtime/supervisor.go:247-259 | once no drain is in force and every EndDrain has returned, every blocked caller can run |
| Admission.StartedIsConserved | internal/runtime/supervisor.go:127-165 | started = leases granted + failed admissions + callers still queued, at every moment of every run |
| Admission.WaveQuiesces | internal/runtime/supervisor.go:235-242 | while the flag stays set the set of callers past the gate only shrinks, the rank drops on every admission, cancellation and release, and at most that many callers are still admitted |
| Admission.ZeroIsQuietIff | notebooklm/client.go:585-608 | a drain that reads zero in flight is quiet exactly when no caller is past the gate without a slot |
| Admission.LateAdmission | notebooklm/client.go:631-649 | constructs, from any such state, the run in which the late caller is admitted |
| Admission.DrainDoesNotFenceLateCaller | notebooklm/client.go:585-608 | a concrete run that reaches such a state from a fresh supervisor |
| CookieJar.CheckPublicSuffix | internal/auth/cookiejar/publicsuffix.go:100-127 | the trimming and lower-casing loops decide membership of the normalized domain |
| CookieJar.PublicSuffixIff | internal/auth/cookiejar/publicsuffix.go:100-127 | one leading dot and all trailing dots do not matter, and what is left is looked up in ASCII lower case; nothing left is no suffix |
| CookieJar.Jar.SetCookies | internal/auth/cookiejar/jar.go:83-141 | the loop stores exactly what the history semantics stores, call by call, and keeps the jar invariant |
| CookieJar.Jar.SetOne | internal/auth/cookiejar/jar.go:91-140 | one Set-Cookie: rejected, expired at birth, or stored under its identity |
| CookieJar.Jar.Group | internal/auth/cookiejar/jar.go:179-197 | grouping by name: the groups are exactly the names with an eligible entry, each in iteration order |
| CookieJar.SelectCookie | internal/auth/cookiejar/jar.go:481-498 | the one-pass loop finds the choice described by ChooseIsBest |
| CookieJar.ChooseIsBest | internal/auth/cookiejar/jar.go:465-498 | an exact-host candidate beats every other, within a kind the longest path wins, and nothing is chosen only from nothing |
| CookieJar.PickWinners | internal/auth/cookiejar/jar.go:199-206 | one winner per name, whatever order the names are visited in |
| CookieJar.Jar.Cookies | internal/auth/cookiejar/jar.go:159-218 | the answer is the sorted sequence of the winners; empty without URL or host |
| CookieJar.DomainMatchIff | internal/auth/cookiejar/jar.go:428-442 | a domain matches a host if and only if it is the host, or, for a cookie that is not host-only, the host is longer, ends in it, and has a dot right before it |
| CookieJar.PathMatchIff | internal/auth/cookiejar/jar.go:449-463 | a path matches if and only if it is the request path, or a proper prefix that ends in a slash or is followed by one |
| CookieJar.EligibleIff | internal/auth/cookiejar/jar.go:166-195 | an entry is eligible if and only if it is unexpired, its Secure flag meets https, and domain and path match the lower-cased host and the request path, a path without a leading slash counting as / |
| CookieJar.AnswerCoversNames | internal/auth/cookiejar/jar.go:199-206 | every name with an eligible entry is sent |
| CookieJar.AnswerIsSorted | internal/auth/cookiejar/jar.go:211-216 | what is sent stands by falling path length and, for one path, by name |
| CookieJar.SentCarries | internal/auth/cookiejar/jar.go:335-358 | each field of a cookie that is sent, the Domain behind a dot and any SameSite as Lax |
| CookieJar.SendOrderIsTotal | internal/auth/cookiejar/jar.go:211-216 | on the cookies selected for one request the path/name comparator is a strict total order |
| CookieJar.AnswerIsUnique | internal/auth/cookiejar/jar.go:208-217 | so the unstable sort leaves no choice: one iteration order has one answer |
| CookieJar.SameIdentity | internal/auth/cookiejar/jar.go:449-463 | equally long matching paths are equal, so an exact-host winner is unique |
| CookieJar.OrderIndependentIff | internal/auth/cookiejar/jar.go:180-206 | the cookies sent do not depend on map iteration order if and only if no name has two parent-domain entries tied for the longest path and none for the host itself |
| CookieJar.MostSpecificWinsIff | internal/auth/cookiejar/jar.go:155-156 | in every iteration order the entry sent has the most domain components if and only if there is an entry for the host itself or every longest-path parent entry has |
| CookieJar.LongerPathBeatsDomain | internal/auth/cookiejar/jar.go:465-498 | a SetCookies history after which a less specific domain is sent in every iteration order, because its path is longer |
| CookieJar.TieIsReachable | internal/auth/cookiejar/jar.go:465-498 | a SetCookies history that ties two parent domains, and an iteration order that sends the less specific one |
| CookieJar.JarIsLastWriteWins | internal/auth/cookiejar/jar.go:83-141 | after every history the jar is the last-write-wins index of the accepted cookies by identity: nothing missing, nothing extra, every key its entry's identity |
| CookieJar.IdentityIsInjective | internal/auth/cookiejar/cookie.go:161-163 | two identities are equal if and only if name, lower-cased domain and path are |
| CookieJar.CaseMattersIff | internal/auth/cookiejar/jar.go:415-442 | a cookie matches a host if and only if its lower-cased form does and its Domain was stored without capitals |
| CookieJar.CapitalIsStoredAndNeverSent | internal/auth/cookiejar/jar.go:89-139 | a Set-Cookie with a capital in its Domain that is stored and never sent to any URL at any time |
| CookieJar.DeletionIsIgnored | internal/auth/cookiejar/jar.go:128-137 | a call whose cookies are all expired at birth leaves the whole jar as it was, so nothing is deleted by one |
| CookieJar.AcceptedIff | internal/auth/cookiejar/jar.go:91-137 | a Set-Cookie is stored if and only if its Domain is not a public suffix, a __Secure- or __Host- name comes Secure over https, the latter without Domain and at path /, and it is not already expired |
| CookieJar.AcceptedStores | internal/auth/cookiejar/jar.go:91-140 | each field an accepted Set-Cookie stores: Secure, HttpOnly, value and expiry as they came, path / for none, the lower-cased host for no Domain, else the Domain without its leading dot |
| CookieJar.AcceptedPrefixRules | internal/auth/cookiejar/jar.go:371-413 | what acceptance guarantees: __Secure- and __Host- need Secure over https, __Host- is host-only at path / |
| CookieJar.ReturnedCookiesAreSafe | internal/auth/cookiejar/jar.go:180-197 | over every history and clock: a returned cookie came from an accepted Set-Cookie, is unexpired, is Secure only over https, has a domain that is the host or, preceded by a dot, ends it, and a path that is or leads the request path up to a slash; __Host- goes only to the host that set it |
| CookieJar.OnePerName | internal/auth/cookiejar/jar.go:199-206 | at most one cookie per name is returned |
| CookieJar.Jar.All | internal/auth/cookiejar/jar.go:248-267 | the listing holds every entry once, in the (name, domain, path) order, whatever the iteration order |
| CookieJar.ListingIsSorted | internal/auth/cookiejar/jar.go:257-265 | the listing stands by name, then domain, then path |
| CookieJar.ListingIsTotal | internal/auth/cookiejar/jar.go:257-265 | that order is strict and total on the entries of any jar |
| Ordering.SortedIsUnique | internal/auth/cookiejar/jar.go:211-216 | a comparator that is a strict total order on the elements has one sorted result, stable or not |
| Text.LexLessIs | internal/auth/cookiejar/jar.go:211-216 | strings are compared at the first character in which they differ, a proper prefix first |
| Text.TrimCuts | internal/tools/boundarycheck/main.go:105-106 | trimming cuts white space off both ends and stops at what is none |
| Text.TrimmedAwayIff | internal/web/policy/registry.go:278 | nothing is left of a text if and only if it is all white space |
| Text.WhiteSpace | internal/tools/boundarycheck/main.go:106 | white space by code point |
| Text.LowerCase | internal/auth/cookiejar/jar.go:166 | capitals become small letters and no other ASCII character changes |
| Scrub.ReplaceQueryParam | internal/tools/scrubhar/scrub.go:185-210 | the cursor loop terminates and computes one pass |
| Scrub.OnePass | internal/tools/scrubhar/scrub.go:185-210 | after a pass every `name=` is followed by exactly the placeholder and then a terminator or the end; an input is unchanged if and only if it already was so |
| Scrub.OnlyValuesChange | internal/tools/scrubhar/scrub.go:189-208 | the input falls into kept stretches that end at a first `name=` and values that hold no ampersand, blank, quote or line feed and run to the next of these or the end; the output is the same kept bytes with the placeholder for each value |
| Scrub.NoTokenIsLeft | internal/tools/scrubhar/scrub.go:79-82 | byte by byte, for every text and any URL pass: before the e-mail pass every SNlM0e=, FdrFJe=, at= and f.sid= is followed by SCRUBBED and then the end, an ampersand, a blank, a quote or a line feed |
| Scrub.PassIdempotent | internal/tools/scrubhar/scrub.go:182-210 | scrubbing twice is scrubbing once |
| Scrub.ReplaceSplit | internal/tools/scrubhar/scrub.go:201-207 | a pass works on the two sides of a terminator independently: nothing new appears at the seam |
| Scrub.PassKeepsClean | internal/tools/scrubhar/scrub.go:79-82 | a pass for one name never undoes the pass for another, even when one name ends in the other |
| Scrub.PassesClean | internal/tools/scrubhar/scrub.go:79-82 | after the passes for any list of names all of them are clean at once |
| Scrub.HasCIHeaderPrefix | internal/tools/scrubhar/scrub.go:258-270 | the scan decides whether the line is an indented Cookie: line in any case |
| Scrub.LeadingWhitespace | internal/tools/scrubhar/scrub.go:247-254 | the longest run of blanks and tabs |
| Scrub.WriteLine | internal/tools/scrubhar/scrub.go:161-177 | one line of the header pass, its terminator kept |
| Scrub.ReplaceCookieHeader | internal/tools/scrubhar/scrub.go:146-180 | the line loop computes the header pass |
| Scrub.HeaderPass | internal/tools/scrubhar/scrub.go:142-180 | afterwards every Cookie: line is the sentinel line; an input is unchanged if and only if that already held |
| Scrub.ScrubLineIs | internal/tools/scrubhar/scrub.go:153-177 | a line is rewritten if and only if blanks and tabs lead to Cookie: in any case; it becomes its own indentation, the sentinel header and its own terminator |
| Scrub.LineByLine | internal/tools/scrubhar/scrub.go:148-178 | the pass over a line and a rest is the pass over each |
| Scrub.HasHeaderIff | internal/tools/scrubhar/scrub.go:258-270 | a line has the header if and only if blanks and tabs lead to Cookie: in any case |
| Scrub.NoCookieIsLeft | internal/tools/scrubhar/scrub.go:66-82 | byte by byte: wherever a line of the scrubbed text starts with blanks, tabs and Cookie: in any case, the rest of it is the sentinel line |
| Scrub.PassKeepsHeaders | internal/tools/scrubhar/scrub.go:66-82 | a token pass never uncovers or breaks a Cookie: line |
| Scrub.RunScrubBytes | internal/tools/scrubhar/scrub.go:63-90 | the passes in their order, the URL and e-mail passes as given functions |
| Scrub.ScrubTextIsClean | internal/tools/scrubhar/scrub.go:66-82 | on a text the other two passes do not concern: all four names and all Cookie: lines are clean at once, scrubbing again changes nothing, and an input is unchanged if and only if it was clean |
| Scrub.ScrubBytesIsClean | internal/tools/scrubhar/scrub.go:63-90 | whatever the URL pass does, all four names are clean before the e-mail pass, and the Cookie: lines are if it leaves them so; what no pass concerns any more stays as it is |
| Rules.FlushRule | internal/tools/boundarycheck/main.go:89-103 | closing the open rule, as FlushMeans says |
| Rules.FlushMeans | internal/tools/boundarycheck/main.go:89-103 | a rule is refused for a path already seen, no path, no mode, a mode other than internal, stdlib and external, or external without entries, in this order, and else appended |
| Rules.LoadConfig | internal/tools/boundarycheck/main.go:77-220 | the line loop computes the state machine of which the following is proved |
| Rules.FieldLineMeans | internal/tools/boundarycheck/main.go:165-182 | what "key: value" does inside a rule: path and mode once each, external only without a value, every other key an error |
| Rules.TopLineMeans | internal/tools/boundarycheck/main.go:183-198 | what "key: value" does outside any rule |
| Rules.PlainItemMeans | internal/tools/boundarycheck/main.go:111-164 | what a dash item without a colon does, in a list and elsewhere |
| Rules.FieldItemMeans | internal/tools/boundarycheck/main.go:111-164 | what a dash item with a colon does: it closes the rule and opens a sibling, except for an "external" entry of an open list |
| Rules.NoColonLine | internal/tools/boundarycheck/main.go:165-190 | any other line without a colon is malformed |
| Rules.ScanIntReads | internal/tools/boundarycheck/main.go:194-196 | a decimal number is read up to the first character that is no digit, with at most one sign, and must fit 64 bits |
| Rules.VersionDecides | internal/tools/boundarycheck/main.go:204-213 | of files that differ in schema_version alone, version 2 loads, and 0, which counts as absent; every other number is refused |
| Rules.LinesMeans | internal/tools/boundarycheck/main.go:105 | the scanner cuts at line feeds and drops one carriage return before them; the last line needs none |
| Rules.LayoutIsIrrelevant | internal/tools/boundarycheck/main.go:105-109 | files with the same significant lines load to the same result, errors included |
| Rules.CommentAnywhere | internal/tools/boundarycheck/main.go:107-109 | a line of white space, or one whose first other character is #, may be inserted anywhere |
| Rules.LoadIsSound | internal/tools/boundarycheck/main.go:204-219 | whatever loads has version 2 and a non-empty list of rules with distinct trimmed paths, one of the three modes, entries where the mode is external, and only entries the grammar can express |
| Rules.FeedRule | internal/tools/boundarycheck/main.go:111-182 | a printed rule is read back in any context where a rule may start, closing the one before |
| Rules.TextRoundTripIff | internal/tools/boundarycheck/main.go:77-219 | loading the text of the printed file gives the rules back if and only if they are valid in that sense, carry the list key the layout implies, and have no line break in a path or an entry |
| Rules.PrintedFileIsCanonical | internal/tools/boundarycheck/main.go:77-219 | whatever text loads, loads again from its printed form to the same paths, modes and allowlists |
| Rules.ColonEntryOpensRule | internal/tools/boundarycheck/main.go:133-157 | under any open rule a list entry with a colon closes the rule and starts a sibling with the entry as its first field |
| Rules.ColonFile | internal/tools/boundarycheck/main.go:111-157 | so a printed rule whose only entry has a colon is refused as one without entries |
| AtomicFile.StepKeepsInv | internal/atomicio/atomic.go:63-146 | every step of every concurrent call, failing steps included, keeps the invariant: each call owns its inode under its own temporary name, and every inode the destination ever named is complete and synced |
| AtomicFile.ReadersSeeAtomicWrites | internal/atomicio/atomic.go:133-137 | over every interleaving the destination always holds what it would if each successful call wrote all its data in one instant at its rename; the last rename decides |
| AtomicFile.CrashIsAtomic | internal/atomicio/atomic.go:99-135 | a crash at any point leaves the destination as it was at some moment of the run: absent or whole, never torn, even when unsynced bytes turn into anything and renames are lost |
| AtomicFile.ReturnTellsRename | internal/atomicio/atomic.go:92-97 | a call returns nil if and only if its one rename took effect; an error return never touched the destination |
| AtomicFile.RenameNeedsEveryStep | internal/atomicio/atomic.go:99-133 | a rename takes effect only after the same call has synced, set the mode, closed, and passed the abort hook if there is one; a call any of whose steps failed never renames |
| AtomicFile.CallsFinish | internal/atomicio/atomic.go:63-146 | no call waits for another: from every reachable state a call that nothing has failed can put its data in the destination and return nil by its own steps, given an unused temporary name .base.random.tmp, and a failed one can clean up |
| AtomicFile.NoLitter | internal/atomicio/atomic.go:86-97 | once all calls have returned and no removal failed: no temporary file is left and no other file was touched |
| AtomicFile.LeftoversStay | internal/atomicio/atomic.go:48-50 | a temporary file that was there before a run, as a crash leaves one, is still there with the same contents after every run |
| AtomicFile.Directory.Publish | internal/atomicio/atomic.go:99-137 | the steps after CreateTemp: the error is the first failing step, and the path taken is a run of the protocol |
| AtomicFile.Directory.WriteFile | internal/atomicio/atomic.go:63-146 | the whole call with its deferred cleanup: on success the destination holds exactly the data; on an error names and files are as before unless the removal failed too; and it is a run of the protocol |
| AtomicFile.FirstFailureIs | internal/atomicio/atomic.go:63-137 | nil comes back if and only if every step worked; else the error names the first that did not |
| AtomicFile.WriteEffect | internal/atomicio/atomic.go:63-146 | the same in terms of contents, for the destination, .bak and every other file |
| AtomicFile.Directory.WriteInPlace | internal/atomicio/atomic.go:189 | os.WriteFile: truncates in place; how much gets out decides what every name of the file then shows |
| AtomicFile.Directory.WriteFileWithBak | internal/atomicio/atomic.go:174-211 | which error comes back and what the destination, .bak and every other file hold then, however far the snapshot and the rollback get, hard links included |
| AtomicFile.WithBakMeans | internal/atomicio/atomic.go:187-211 | with the snapshot taken: success leaves the new data and the old in .bak; failure leaves the old in both unless the rollback stops half-way, and the error says so |
| AtomicFile.WithBakFirst | internal/atomicio/atomic.go:191-211 | on a first write: .bak stays, and a failed write leaves nothing unless a stale .bak is put in place |
| AtomicFile.WithBakRefuses | internal/atomicio/atomic.go:175-196 | no path, an unreadable destination or an incomplete snapshot end the call before the write, with only .bak changed, or both when they are one file |
| AtomicFile.RollbackRestoresIff | internal/atomicio/atomic.go:148-152 | a failed call leaves the previous contents if and only if nothing was written over the destination, or it existed and all of it was written back |
| AtomicFile.RollbackTears | internal/atomicio/atomic.go:198-207 | an input on which the rollback empties a destination the failed write had left intact |
| AtomicFile.StaleBakAppears | internal/atomicio/atomic.go:198-207 | an input on which an absent destination ends up with the contents of a stale .bak |
| Lifecycles.Lifecycle.Register | internal/runtime/lifecycle.go:81-108 | state and error on every path, as RegisterIff says |
| Lifecycles.RegisterIff | internal/runtime/lifecycle.go:85-100 | an empty name, an open object, a closed object and a name the phase already has are refused, in this order, and nothing else; a refused call changes nothing |
| Lifecycles.RegisteredInOrder | internal/runtime/lifecycle.go:95-107 | after any run the participants are, in order, those of exactly the Register calls that returned no error, with their names, phases and hooks |
| Lifecycles.NamesStayDistinct | internal/runtime/lifecycle.go:95-100 | in every run names stay distinct within each phase |
| Lifecycles.OpensInRegisterOrder | internal/runtime/lifecycle.go:137-154 | after any run a successful Open calls the open hooks of the accepted Register calls by ascending phase and, within a phase, in the order of the calls; the Close after it calls their close hooks last call first |
| Lifecycles.Lifecycle.SortedParts | internal/runtime/lifecycle.go:237-264 | returns the one permutation ordered by phase and registration |
| Lifecycles.OrderIsUnique | internal/runtime/lifecycle.go:237-252 | there is exactly one such permutation |
| Lifecycles.OrderIsRegistrationIff | notebooklm/client.go:372-386 | it is the registration order if and only if phases were registered in non-decreasing order |
| Lifecycles.Lifecycle.RunOpenHooks | internal/runtime/lifecycle.go:140-154 | the open loop up to the first failing hook, with the marks it leaves |
| Lifecycles.Lifecycle.RunCloseHooks | internal/runtime/lifecycle.go:224-231 | all hooks in the given order, keeping the first error |
| Lifecycles.Lifecycle.RollBack | internal/runtime/lifecycle.go:155-177 | closes what had been opened in reverse order and stores the open error, wrapped around the first rollback error |
| Lifecycles.Lifecycle.Open | internal/runtime/lifecycle.go:120-181 | new state, hooks called and error returned, on every path |
| Lifecycles.Lifecycle.Close | internal/runtime/lifecycle.go:193-232 | new state, hooks called and error returned, on every path |
| Lifecycles.WaveShape | internal/runtime/lifecycle.go:140-154 | an open wave walks the openable participants up to the first failure |
| Lifecycles.OpenOutcome | internal/runtime/lifecycle.go:137-180 | Open succeeds if and only if every hook does; otherwise exactly the participants whose non-nil open succeeded are closed, in reverse open order, and the error is stored |
| Lifecycles.OpensInOrder | internal/runtime/lifecycle.go:137-154 | the open hooks are called in one order, by phase and then by registration, all of them on success and up to the first failure else |
| Lifecycles.OpenReports | internal/runtime/lifecycle.go:148-177 | the error of a failed Open names the phase, the participant and the hook's error, and around it the first close hook that failed in the rollback, if one did |
| Lifecycles.RepeatIsQuiet | internal/runtime/lifecycle.go:130-206 | a second Open of an open object and a second Close report success and do nothing |
| Lifecycles.HooksRunAtMostOnce | internal/runtime/lifecycle.go:120-232 | in every run of Register, Open and Close with any hook outcomes each open hook and each close hook runs at most once |
| Lifecycles.FailureIsFinal | internal/runtime/lifecycle.go:125-129 | after a failed Open no call runs a hook or changes anything, and Open and Close return the stored error |
| Lifecycles.CloseReportsFirst | internal/runtime/lifecycle.go:224-231 | every close hook is attempted and the error is that of the first attempted hook that fails |
| Lifecycles.CloseReversesOpen | internal/runtime/lifecycle.go:207-231 | Close after a successful Open attempts every close hook, last registered first, and returns the first error; with ascending phases that is exactly the reverse of the open order |
| Lifecycles.CloseRespectsPhasesIff | internal/runtime/lifecycle.go:208-221 | the close order respects phases if and only if the participants with a close hook were registered in non-decreasing phase |
| Lifecycles.EarlyCloseDisarms | internal/runtime/lifecycle.go:203-207 | Close before Open does not block Open; it only means no close hook will ever run |
| Lifecycles.OpenAfterCloseFailsIff | internal/runtime/lifecycle.go:30-33 | Open on a closed object returns an error if and only if a failed Open left one, or the object is not open and one of its open hooks fails now |
| Lifecycles.ReopenReportsSuccess | internal/runtime/lifecycle.go:130-133 | after any successful Open and Close, Open returns nil on the torn-down object and calls nothing |
| Lifecycles.ReopenRun | internal/runtime/lifecycle.go:30-33 | a run from an empty object that gets there |
| Storage.ToWireView | internal/auth/storage/storage.go:128-149 | the loop converts every cookie, nil expiry to -1 |
| Storage.FromWireView | internal/auth/storage/storage.go:155-175 | the loop converts every cookie back |
| Storage.NormalizeCookieAttributes | internal/auth/storage/normalizers.go:144-161 | rewrites every row of the array in place: -1 to nil, sameSite to its canonical form or nothing |
| Storage.SameSiteSpelled | internal/auth/storage/normalizers.go:152-158 | every spelling of strict, lax and none in any case reads as Strict, Lax and None, and everything else as nothing |
| Storage.NormalizedIs | internal/auth/storage/normalizers.go:144-161 | -1 and none are both a session, sameSite gets its canonical spelling or goes, all else stays |
| Storage.NormalizeCookieRows | internal/auth/storage/normalizers.go:103-123 | keeps the object rows in order and respells expirationDate where expires is absent |
| Storage.NormalizeTopLevel | internal/auth/storage/normalizers.go:57-90 | wraps a bare array, drops origins, passes the rows on |
| Storage.TopLevelIs | internal/auth/storage/normalizers.go:57-123 | an array becomes a document of its object rows; an object loses origins and nothing else; a row has its expirationDate renamed when it has no expires, and nothing else changed |
| Storage.Marshal | internal/auth/storage/storage.go:290-292 | the encoded document |
| Storage.DocumentWritten | internal/auth/storage/storage.go:128-149 | the keys of a written document and of its namespace, and a row per cookie in order |
| Storage.RowWritten | internal/auth/storage/storage.go:128-149 | the fields of a written row: name, value and expiry always, -1 for a session, every other exactly when it is not empty or false |
| Storage.Unmarshal | internal/auth/storage/storage.go:307-330 | the decoded document or the type error |
| Storage.RoundTrip | internal/auth/storage/storage.go:290-330 | reading what was written gives the storage with every cookie normalized, and the storage itself if and only if it is in normal form |
| Storage.DecodedIsStable | internal/auth/storage/storage.go:307-330 | whatever is accepted is read into normal form, which writing and reading again keeps |
| Storage.BareArrayIsWrapped | internal/auth/storage/normalizers.go:59-63 | a bare array reads as the document that wraps it |
| Storage.OriginsIgnored | internal/auth/storage/normalizers.go:64-76 | origins never affects the result, whatever it holds |
| Storage.RowDecodes | internal/auth/storage/normalizers.go:110-119 | a row is readable if and only if each typed field is absent, null or of its type, and what every field of the cookie then is; a missing or null expiry reads as 0 and only the integer -1 as a session |
| Storage.SessionIff | internal/auth/storage/storage.go:28-31 | a row reads as a session cookie if and only if its expiry is the integer -1; one without an expiry reads as 0 and is written back as 0 |
| Storage.DocumentReads | internal/auth/storage/storage.go:315-329 | exactly which documents are accepted, that their cookies are the object rows in order, and what the account is |
| Storage.ScalarDocuments | internal/auth/storage/normalizers.go:82-88 | null reads as the empty document, any other scalar is a type error |
| Chat.DecodeCitations | internal/web/rows/chat.go:380-409 | the append loop collects exactly the well-formed references |
| Chat.FlattenCitations | internal/web/rows/chat.go:413-425 | the append loop collects the non-empty source ids |
| Chat.DecodeTurnContent | internal/web/rows/chat.go:360-374 | text and citations of the content slot |
| Chat.DecodeTurns | internal/web/rows/chat.go:305-344 | the append loop collects exactly the well-formed turns |
| Chat.TryHistoryEnvelope | internal/web/rows/chat.go:263-294 | recognizes both orders of an envelope |
| Chat.ConvWithIdFromSlotB | internal/web/rows/chat.go:192-209 | the id beside the envelope is kept, the turns come from slot 4 if that is an envelope |
| Chat.DecodeChatHistory | internal/web/rows/chat.go:135-181 | the wrappings in the order they are tried |
| Chat.EnvelopeIff | internal/web/rows/chat.go:263-294 | an envelope is a non-empty id string and a list in the first two slots, in either order |
| Chat.DecodedIs | internal/web/rows/chat.go:135-246 | an envelope in slot 3 decides; else an id there, with the turns of an envelope in slot 4; else the payload itself; and which id can be extracted |
| Chat.ExtractConversationId | internal/web/rows/chat.go:225-246 | the id of the first two wrappings |
| Chat.DecodersAgree | internal/web/rows/chat.go:135-246 | whenever the id can be extracted the history decodes with the same id; it decodes beyond that if and only if the payload itself is an envelope |
| Chat.DecodedIsWellFormed | internal/web/rows/chat.go:265-293 | every decoded conversation has a non-empty id and flat citations that match |
| Chat.CollectImage | internal/web/rows/chat.go:305-343 | an append loop yields the in-order image of exactly the positions with a value |
| Chat.TurnsAreTheWellFormedOnes | internal/web/rows/chat.go:305-344 | the turns are the in-order image of exactly the lists led by an author string, and each field of a turn, the creation time for both forms of a number |
| Chat.CitationsAreTheWellFormedOnes | internal/web/rows/chat.go:380-409 | likewise the citations; their offsets are the first two numbers of slot 2 without their fractions |
| Chat.SourcesAreTheNonEmptyIds | internal/web/rows/chat.go:413-425 | the flat list holds, in order, exactly the source ids that are not empty |
| Chat.DocumentedOffsetsAreLost | internal/web/rows/chat.go:353-355 | a reference laid out as documented, offsets behind the chunk text, is read with both offsets zero, and so as meant if and only if they are zero |
| Chat.WrappingsRoundTrip | internal/web/rows/chat.go:135-209 | in each of the four wrappings decoding gives the encoded conversation back if and only if it is well formed, an envelope beside a bare id has an id of its own or no turns, and, with references laid out as documented, no citation has an offset |
| Chat.DecodedIsStable | internal/web/rows/chat.go:135-181 | what was decoded, encoded again, decodes to itself |
| Registry.Registry.MustRegister | internal/web/policy/registry.go:300-316 | stores the variants up to the first that is taken and panics exactly then, or when sealed |
| Registry.RegisterIff | internal/web/policy/registry.go:300-316 | a registration goes through if and only if the registry is unsealed, none of its variants is stored and none is repeated, the empty one standing in for no variants; then every variant holds the entry |
| Registry.PanicKeepsEarlier | internal/web/policy/registry.go:308-315 | a registration that panics has stored exactly its variants ahead of the first taken one, and nothing else |
| Registry.InsertedIsFirstTaken | internal/web/policy/registry.go:308-315 | the first taken variant is the first already stored or repeated in the entry |
| Registry.Registry.SetFallback | internal/web/policy/registry.go:321-327 | effective exactly before the seal |
| Registry.Registry.Lookup | internal/web/policy/registry.go:234-253 | the answer is the same for every iteration order of the map |
| Registry.Registry.Classify | internal/web/policy/registry.go:258-263 | the class found, else the fallback |
| Registry.Registry.Validate | internal/web/policy/registry.go:272-289 | true if and only if every probe-then-create entry has a rationale that is not blank |
| Registry.Registry.MissingMethods | internal/web/policy/registry.go:188-206 | exactly the declared methods without an entry, sorted |
| Registry.Registry.Seal | internal/web/policy/registry.go:173-213 | which error comes back and the new state on every path |
| Registry.LookupRefinesLog | internal/web/policy/registry.go:234-253 | over every run, panicking registrations included: the answer is the one registration that lists the variant, else the method's wildcard, else none |
| Registry.RegisteredIsFound | internal/web/policy/registry.go:234-253 | over every run, from the operations alone: a registration that went through answers for each variant it lists, and one without variants for every variant no registration of the method lists |
| Registry.FoundWasRegistered | internal/web/policy/registry.go:234-253 | conversely an answer is the entry of a registration of the method that lists the variant or has none |
| Registry.HasEntryIff | internal/web/policy/registry.go:188-206 | a method has an entry if and only if it was registered ahead of the seal |
| Registry.SealIsFinal | internal/web/policy/registry.go:165-171 | nothing changes a sealed registry |
| Registry.SealedIsComplete | internal/web/policy/registry.go:173-213 | a sealed registry was sealed by a NewRegistry call and covers every method that call was given, has no probe-then-create entry without rationale, and its fallback is the last one chosen before the seal, unsafe by default |
| Registry.SealIff | internal/web/policy/registry.go:173-213 | NewRegistry seals if and only if each given method has an entry and each probe-then-create rationale holds something but white space; the entries stay and the fallback defaults to unsafe |
| Registry.SealedMeans | internal/web/policy/registry.go:173-213 | so in every run that seals: every given method was registered before, and every probe-then-create registration that went through has a rationale |
| Refresh.ReloadL2_0 | internal/auth/refresh/l2_0.go:237-308 | the loop computes the declarative scan; at most 3 attempts and 150 ms of requested backoff |
| Refresh.ReloadL2_5 | internal/auth/refresh/l2_5.go:251-306 | likewise; at most 2 attempts and 250 ms |
| Refresh.ReloadL3 | internal/auth/refresh/l3.go:241-327 | likewise; at most 2 attempts and 100 ms |
| Refresh.L2_0Decides | internal/auth/refresh/l2_0.go:237-308 | attempt by attempt: a missing file or empty path ends the loop at once, another failure is retried up to the third read, and a cancellation shows as such |
| Refresh.L2_5Decides | internal/auth/refresh/l2_5.go:251-306 | attempt by attempt: unreadable output ends the loop at once, a failed command is run once more, and its failure is what a cancellation reports |
| Refresh.L3Decides | internal/auth/refresh/l3.go:241-327 | attempt by attempt: a redirect ends the loop at once, a failed mint or a page without tokens is tried once more |
| Refresh.VerdictMeans | internal/auth/refresh/l2_0.go:193-203 | the first success or unretryable error decides unless the context is seen done before it; the last failure is reported when the attempts run out |
| Refresh.ContextErrorIff | internal/auth/refresh/l3.go:212-223 | errors.Is finds the context's error if and only if the context is seen done before the first attempt, or the last attempt failed with that error itself, or, on L2.0, cancellation decides |
| Refresh.CancellationShowsIff | internal/auth/refresh/l3.go:243-279 | a cancellation that ends the loop after an attempt has failed shows, on L2.5 and L3, if and only if that failure was the context's error |
| Refresh.CancellationHidden | internal/auth/refresh/l3.go:267-279 | a cancelled call whose error does not mention the context |
| Refresh.CancelledIff | internal/auth/refresh/l2_0.go:238-270 | the bare context error comes back if and only if cancellation decides (L2.0), or is seen before the first attempt (L2.5, L3) |
| Refresh.ExhaustedWrapsLastFailure | internal/auth/refresh/l2_5.go:302-306 | the exhausted sentinel always wraps the failure of the last attempt made |
| Deadline.ClampFits | internal/runtime/deadline.go:82-135 | a granted sleep is the longest that fits: never negative, over by the deadline, zero if and only if nothing was asked or the budget is spent |
| Deadline.AnchorIsFixed | internal/runtime/deadline.go:46-69 | a budget expires exactly at its anchor plus its duration, at once for a non-positive one |
| Deadline.SleepsFitTheBudget | internal/runtime/deadline.go:118-135 | however often and however long sleeps are asked for, all that is granted together never exceeds the timeout |
| Deadline.ExpiredGrantsNothing | internal/runtime/deadline.go:97-105 | once expired, every later grant is zero |

## Left out

- Go's memory model: every critical section, atomic operation and channel close is one atomic step. The jar's and the lifecycle's mutexes make each call atomic, except that close hooks, which the source runs unlocked, are part of the Close step.
- The 1 ms and 10 ms polling loops of the supervisor and of `Drain`: their progress is a rank argument, not real time. A supervisor without metrics, and the queue-wait time.
- `Scrub.ScrubBytesIsClean`: does not say what the URL and e-mail passes themselves do, which is regular expressions and `net/url` parsing; they are functions the caller gives, and the result is stated for every choice of them.
- Invalid UTF-8 and non-ASCII case mapping: strings are sequences of characters, and `Text.ToLower` is exact only where the lower case is an ASCII letter, which is all the comparisons against fixed words need.
- `Raw`, `String()`, `HeaderFor` and diagnostics of cookies, and the public-suffix table itself.
- The line scanner of the rule file (its 64 KB line limit and read errors) and all error texts.
- `AtomicFile.Directory.WriteFileWithBak`: does not speak of crashes, because the `.bak` copy and the rollback are written in place.
- `AtomicFile.CrashIsAtomic`: does not cover files that were not on stable storage before the run; the directory starts durable.
- File permission bits, the Windows branches of `atomicio`, `MkdirAll`, and which directory a path names: the model has one directory. That a rename is atomic is the operating system's promise.
- JSON text: trees stand for documents, with one value per key.
- `Storage.RowDecodes`: does not model that `encoding/json` also accepts a field name in another letter case, nor what it does when several spellings of one field are present; field names are exact.
- `Storage.DocumentReads`: does not model the same for the keys of the document.
- The legacy `context.json` promotion, `Read` and `Write` of storage files.
- Rounding and range of `float64` in chat payloads: numbers are reals, and conversion to int truncates toward zero. `SliceAnswerByCitation` and UTF-16 offsets.
- The difference between a nil and an empty slice.
- `ParseClass`, `MethodsRegistered` and the text of the problems `Validate` lists.
- The gates before the L2.5 loop, subprocess execution, the browser mint, token extraction and the fields of the tokens: each attempt is an outcome.
- `Budget.Done` and its timer.
- Network transport, the command line, configuration, payload builders and `flock`: outside the modelled packages, or guarantees of the operating system.
