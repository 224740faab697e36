# Verified model of the Vulos client core, shell worker and boot gate

This project models three parts of Vulos that have to stay right under interleaving, failure and
hostile or damaged input, and proves what they promise over all inputs and all runs.

**The native-client core** (`clients/core`). `GoStrings` and `Base64` write out the Go string routines
and the padded base64 of section 4 of RFC 4648, as Go's non-strict decoder reads it. `Pinning` is the pin
codec, the certificate check and the TLS configuration. `PairPayload` is the `vulos://pair` codec:
percent-encoding as in section 2.1 of RFC 3986, in the form variant of section 5 of the WHATWG URL
Standard, as Go's `net/url` does it. `PayloadForm` says which texts are payloads and what they say, by their
form. `PinFile` is the text of the pin file: the parse loop, the print loop,
exactly when they undo each other, and what a file reads as whatever names were saved in it. `StoreSpec` says
what Load, Save and Forget do to the file when each runs alone, and what follows over runs. `FileSystem` is the directory, with synced and unsynced data, renames
that may or may not survive, and crashes. `FileStores` is the code of `FileStore` over that directory, one
system call at a time. `StoreProtocol` interleaves any number of calls on any number of stores, with
failures and crashes at every step. `Pairing` is the code of `Pair` and, beside it, any number of Pair calls
and store operations interleaved while boxes change keys and payloads are altered.

**The service worker** (`frontend/public/sw.js`, and `out-arm64/webroot/sw.js` without the retry).
`ServiceWorker` makes every callback a step and lets the steps come in any order; an event that does not
apply does nothing, so every sequence of events is a run of both workers and the two can be compared event
by event. `ServiceWorkerCode` is the worker as code: each callback is proved to be its step, and `Play` carries
what holds of every run over to the object.

**The boot gate and the energy lock** (`frontend/src/App.tsx`). `AuthGate` and `EnergyLock` separate setting
state, committing a render and running effects, so that stale clicks, stale closures and superseded probes
are all there. `AuthGateCode` and the class in `EnergyLock` are the components as code, again with a
`Play` for whole runs. Option and result types are in `Wrappers`.

Where the code and its comments disagree the model follows the code:

- `Save` accepts every name that is not all blank, but only safe names survive the file: not empty, no
  space, no newline, no leading white space, no leading `#` (`PinFile.SafeName`). A name without a newline that
  reads as a comment is dropped silently; any other with a space past its leading white space makes the whole
  file unreadable for good (`StoreSpec.BadSaveIsForGood`). A name with a newline prints as several lines, and each is read by itself: such a name can
  set the pin of another name (`PinFile.SaveSaysExactly` says exactly when).
- The comment in `Pair` that the parser never yields a zero pin is wrong. The refusal in `TLSConfig` keeps a
  payload's own pin from being zero, but the zero pin, or any other that no handshake has verified, still reaches
  the file through the lines of a name with a newline (`Pairing.NewlineNameStoresAnyPin`); under names without one
  it does not (`Pairing.FilePinsAreVerified`).
- The rename is never synced, so after a crash an update that was reported as done may be missing; it is
  never partial.
- On the screen that asks whether the box is set up, asking again and then choosing before the page has
  caught up leaves the choice to the probe. The model lets a commit and its effects lag behind a click as far
  as they like; where they follow each click at once, as React flushes them, this cannot happen, and the choice
  stands as long as effects do not restart under the question (`AuthGate.ChoiceStandsExactly`,
  `AuthGate.PromptChoiceStands`).
- A wipe while the offline race is still open can be undone by the race (`AuthGate.WipeSticksExactly`), and
  such a wipe can come from the login screen if an earlier one opened the gate (`AuthGate.EarlyWipeLetsRaceIn`).

## Model

| member | source | states |
|---|---|---|
| `Base64.DecodeExactly` | clients/core/pinning.go:75-86 | the decoder yields `b` exactly on the spellings of `b`, one for each value of the unused trailing bits, line breaks aside |
| `Base64.SpellingsDistinct` | clients/core/pinning.go:75-86 | spellings with different trailing bits are different texts |
| `Base64.ForeignByteRejected` | clients/core/store.go:115-118 | text with any byte outside the alphabet, the padding and the line breaks is never decoded |
| `Base64.DigitsOfTheStandard` | clients/core/pinning.go:75-86 | the digits are those of Table 1 of RFC 4648, in its order, and no other byte is one |
| `Base64.QuantaOfTheStandard` | clients/core/pinning.go:56-61 | three bytes are 24 bits in four digits, most significant first; two bytes and one byte are 16 and 8 bits, the unused bits and the padding |
| `GoStrings.TrimSpaceExactly` | clients/core/store.go:65-107 | trimming gives the one string that is left when white space is taken off both ends |
| `GoStrings.SpaceRunes` | clients/core/store.go:65-107 | white space is the UTF-8 encoding of a code point with the property White_Space, and nothing else |
| `Pinning.ParseFingerprint` | clients/core/pinning.go:75-86 | accepts exactly the texts that denote a pin and returns that pin; otherwise the error tells bad base64 from a wrong length |
| `Pinning.PinSpellings` | clients/core/pinning.go:56-86 | trimmed and without line breaks, each pin has exactly four accepted spellings, all different, of which `String` prints the first |
| `Pinning.PinCanonical` | clients/core/pinning.go:56-86 | reading what `String` prints gives the pin back, so reading and printing is a canonical form that a second pass keeps |
| `Pinning.VerdictsExactly` | clients/core/pinning.go:122-149 | an unpaired box gets no configuration; otherwise the CA pool is off and the verdict on every chain is given by its first certificate: none, unreadable, another digest, or accepted |
| `PairPayload.UnescapeEscape` | clients/core/pair.go:43-54 | unescaping undoes form escaping for every byte string |
| `PayloadForm.EscapeTable` | clients/core/pair.go:43-54 | a byte escapes to itself if unreserved, a space to `+`, any other to `%` and two upper-case hexadecimal digits |
| `PayloadForm.EscapeAppend` | clients/core/pair.go:43-54 | a text escapes byte by byte |
| `PayloadForm.UnescapeExactly` | clients/core/pair.go:61-72 | unescaping yields exactly the text that is spelled, in digits of either case, and fails on what spells nothing |
| `PayloadForm.EncodedText` | clients/core/pair.go:43-54 | the payload is `vulos://pair?addr=..&name=..&spki=..`, in that order |
| `PayloadForm.PairQueryExactly` | clients/core/pair.go:61-68 | a text is taken for a payload exactly if it is `vulos` in any case, `://`, perhaps userinfo and `@`, `pair`, and perhaps a path, a query and a fragment |
| `PayloadForm.GetExactly` | clients/core/pair.go:69-72 | a key reads as the first field that can be read and has that key, or as nothing |
| `PayloadForm.SplitsExactly` | clients/core/pair.go:82-84 | an address splits exactly if it is `host:port` without further colons or brackets, or `[host]:port` |
| `PayloadForm.ParseExactly` | clients/core/pair.go:60-92 | every text that is no pairing URL is refused as such; for one that is, the fields decide between the malformed payload, the malformed pin and the box |
| `PairPayload.PayloadRoundTrip` | clients/core/pair.go:43-92 | parsing an encoded payload returns the name, address and pin, whatever bytes they hold, if and only if the name is not empty and the address splits into host and port |
| `PairPayload.AcceptedPayloads` | clients/core/pair.go:60-92 | whatever payload was accepted, encoding what it was read as and parsing again changes nothing; the zero pin can be read from a payload |
| `PinFile.ParseMeaning` | clients/core/store.go:105-123 | a file parses if and only if no line is bad; then every name is safe and carries the pin of its last line; otherwise the error names the first bad line |
| `PinFile.ReadLineExactly` | clients/core/store.go:106-122 | what each line says, by its form: skipped, without a field, a name with a bad pin, or an entry |
| `PinFile.ErrorExactly` | clients/core/store.go:106-120 | the error carries the number of the first bad line and tells a malformed line from a malformed pin, with its name |
| `PinFile.RoundTripExact` | clients/core/store.go:105-138 | reading what was printed, in any key order, gives the same map if and only if every name is safe |
| `PinFile.PrintedText` | clients/core/store.go:132-138 | the text of the file is one line for each key: the name, a space, the base64 of the pin, a newline |
| `PinFile.PrintedReads` | clients/core/store.go:105-138 | for every map and key order, whatever the names: the printed file can be read if and only if every entry can by itself, and then it reads as what the entries say, later ones winning |
| `PinFile.UpdateExact` | clients/core/store.go:64-92 | on a file that parses, a Save leaves exactly the updated map if and only if its name is safe, and a Forget always does |
| `PinFile.CommentSaveDropped` | clients/core/store.go:64-78 | a Save under a newline-free name that reads as a comment leaves the map as it was |
| `PinFile.SaveBreaksFileExactly` | clients/core/store.go:64-123 | under any name, a Save on a file that parses makes it unreadable if and only if a line of the new entry is bad; without a newline in the name, if and only if the name is empty past its leading white space, or holds a space there and is no comment |
| `PinFile.SaveReadsBack` | clients/core/store.go:64-138 | under any name, a file that parses holds after a Save the names of the other entries and those that the lines printed for the saved name give, each with a pin that one of the two says |
| `PinFile.SaveSaysExactly` | clients/core/store.go:64-138 | a Save can leave a pin `q` under `k` that was not there before if and only if the lines printed for the saved name say so; a pin other than the saved one, if and only if a line of the name before its last says so, no later one sets `k` again, and all can be read |
| `PinFile.NewlineFreeSays` | clients/core/store.go:105-138 | the entry of a name without a newline gives its own pin to the name without its leading white space, or nothing if that is a comment, or cannot be read |
| `PinFile.TwoLineNameSays` | clients/core/store.go:105-138 | a name with a newline can carry a whole line for another name: its entry reads as any pin `q` for that name beside its own |
| `StoreSpec.SafeRunIsMapRun` | clients/core/store.go:45-92 | under safe names every run of Load, Save and Forget is a run of a plain map: same replies, and the file always holds exactly that map |
| `StoreSpec.LoadAnswers` | clients/core/store.go:45-58 | Load answers with the pin exactly if the name is there with it, and that there is none exactly if the name is not there |
| `StoreSpec.UpdateAnswers` | clients/core/store.go:64-92 | what Save and Forget answer and leave on any file |
| `StoreSpec.LoadAfterUpdate` | clients/core/store.go:45-92 | after a Forget, or a Save under a safe name, and any run that spares the name, Load answers that there is no pin, or with the pin |
| `StoreSpec.MalformedIsAbsorbing` | clients/core/store.go:49-91 | once the file does not parse, every later operation fails and the bytes never change |
| `StoreSpec.OnlyUnsafeSaveBreaks` | clients/core/store.go:64-123 | a file that parsed stops parsing only at a Save under an unsafe name that reported success |
| `StoreSpec.OthersLeavePinAlone` | clients/core/store.go:45-92 | a file holds for a name what it held through any run whose successful operations spare the name |
| `StoreSpec.SparesExactly` | clients/core/store.go:45-138 | an operation leaves a name and its pin alone, whatever comes of it, if and only if it is refused, or is no Forget of it and no Save whose lines make the file unreadable, give it another pin or none |
| `StoreSpec.OthersAreSpared` | clients/core/store.go:45-92 | a Load, and a Save or Forget under another safe name, spare every name |
| `StoreSpec.BadSaveIsForGood` | clients/core/store.go:49-123 | after a Save whose entry has a bad line every later operation fails and the bytes stay; without a newline in a name that is not blank, that is a space past its leading white space in a name that is no comment |
| `FileSystem.CommitTraceHarmless` | clients/core/store.go:140-173 | a crash in any state of the commit leaves what a crash could have left before it, or the complete new file |
| `FileSystem.RenameIntoPlace` | clients/core/store.go:162-171 | renaming a synced file adds only its complete contents to what a crash may leave; without the sync it adds every content there is |
| `FileSystem.CommitOutcome` | clients/core/store.go:140-173 | a commit that goes through installs exactly the data; any other leaves the path alone and, if the removal works, no temporary file |
| `FileSystem.CommitRecoversExactly` | clients/core/store.go:140-173 | after a commit a crash may leave exactly what it could leave before, or the new file whole |
| `FileStores.FileStore.ReadAll` | clients/core/store.go:94-124 | the parse loop returns what the file's lines mean, an empty store for a missing file, or the read error |
| `FileStores.FileStore.PrintAll` | clients/core/store.go:132-138 | the print loop yields a serialization of the map for some order of its keys |
| `FileStores.FileStore.Commit` | clients/core/store.go:140-173 | the commit passes through exactly the disk states of `CommitTrace` and reports success exactly when every call worked |
| `FileStores.FileStore.WriteAll` | clients/core/store.go:126-174 | the path is untouched or holds the complete output, no temporary file stays unless its removal fails, and every state passed through is crash-safe |
| `FileStores.FileStore.Load` | clients/core/store.go:45-58 | answers as the atomic store does and changes nothing; with the pin exactly if the name is there with it, that there is none exactly if it is not, and with an input or output error exactly when the read fails |
| `FileStores.FileStore.Save` | clients/core/store.go:64-78 | is one atomic Save: done, or an error and an unchanged file; it reports an input or output error exactly when a system call it comes to fails; crash-safe throughout |
| `FileStores.FileStore.Forget` | clients/core/store.go:82-92 | is one atomic Forget: done, or an error and an unchanged file; it reports an input or output error exactly when a system call it comes to fails; crash-safe throughout |
| `StoreProtocol.InvStep` | clients/core/store.go:94-174 | every step of every call on any number of stores, and every crash, keeps each call's data the update of the file it read, each file the update logged for it of the file its call had read, the temporary files private and everything a crash can bring back synced and complete |
| `StoreProtocol.AnyRunKeepsFileWhole` | clients/core/store.go:17-19 | with any number of stores, failures and crashes, every file from the first to the one there now is the first one or exactly what the update logged for it makes of the file that its call had read |
| `StoreProtocol.SafeNamesKeepFileReadable` | clients/core/store.go:17-33 | under safe names, with any number of stores, every file can be read and holds, written out in full, what its logged update makes of the map in the file its call had read, and a crash brings back one of these files |
| `StoreProtocol.OnlyOtherStoresAreLost` | clients/core/store.go:17-33 | with any number of stores, an update builds on the file just before it if and only if no other store committed between its call's read and its commit, and only other stores ever do; so updates that all come from one store form a chain |
| `StoreProtocol.NobodyWaitsForEver` | clients/core/store.go:45-92 | from every reachable state all calls in progress can be brought to their ends by their own working steps, and then no mutex is held |
| `StoreProtocol.OneStoreLinearizable` | clients/core/store.go:45-92 | every interleaving of calls on one store is, step by step, a run of the atomic store in which each call takes effect in one instant |
| `StoreProtocol.CrashConsistency` | clients/core/store.go:60-174 | on one store and under safe names the file holds exactly the map after all committed updates, and after a crash at any moment it is, byte for byte, the complete output for the map after some prefix of them, or the first file |
| `StoreProtocol.SoloCommit` | clients/core/store.go:126-174 | a call left alone after its read commits exactly as the sequential code does |
| `StoreProtocol.TwoStoresLoseUpdate` | clients/core/store.go:28-33 | with two stores on one path there is a run in which both Saves read the first file and report success, and only the second is in the file |
| `Pairing.Pair` | clients/core/pair.go:107-149 | parse, configure, dial, save: the result and the file are what `PairAlone` says for these system calls, a failed call leaves the file as it was, and none fails at the save when every system call works |
| `Pairing.PairAnswersExactly` | clients/core/pair.go:107-149 | each failure of Pair has its exact condition on the payload, the peer, the file and the system calls, and without any the answer is the payload's box |
| `Pairing.PairingSafety` | clients/core/pair.go:98-149 | over every interleaving of Pair calls, key changes, dial failures and altered payloads, each pin a call stored is not zero, was said by that call's payload and is the leaf digest of a handshake the call completed before; a failed call stored nothing |
| `Pairing.PairingIsStoreRun` | clients/core/pair.go:107-149 | for the file a run of pairings is a run of the store: nothing before the save and nothing on the network reaches it |
| `Pairing.FilePinsAreVerified` | clients/core/pair.go:98-149 | over every run, whatever the names: the file can be read if and only if every entry saved on the way can, and then each pin was there at the start or was given by an entry that somebody else saved, or that a Pair call stored with a pin it had verified; under a name without a newline the pin given is that very pin |
| `Pairing.NoZeroPinFromPairing` | clients/core/pair.go:119-125 | the zero pin gets into the file only from somebody else's Save or through a Pair call that stored some other, verified pin under a name with a newline whose lines say it |
| `Pairing.NewlineNameStoresAnyPin` | clients/core/pair.go:60-149 | this happens: for every verified pin and every pin `q`, the zero pin too, there is a payload with which Pair reports success and leaves `q` under another box's name |
| `Pairing.PairLoadConnect` | clients/core/pair.go:144-148 | after a successful Pair under a safe name and any run whose successful operations spare that name and pin, Load answers with the pin, and a connection made with it goes through to exactly the peers whose leaf has that digest, also after a re-issue under the same key |
| `Pairing.AloneIsARun` | clients/core/pair.go:107-149 | whatever `Pair` does alone is a run of the interleaved calls with the same file and result |
| `Pairing.PairEndToEnd` | clients/core/pair.go:43-149 | pairing from an encoded payload succeeds if and only if the name is not blank, the address splits, the pin is not zero, the peer's leaf key has that digest, the file can be read and every system call works; the file then holds exactly the old map with that pin under that name if and only if the name is safe |
| `ServiceWorker.ShouldCache` | frontend/public/sw.js:30-38 | true exactly for URLs that parse and whose path starts with none of `/api/`, `/collab/`, `/jmap`, `/dav/`, `/auth/` |
| `ServiceWorker.InterceptsExactly` | frontend/public/sw.js:133-141 | a new fetch is taken up exactly if it is a GET for a cacheable URL, a navigation like any other |
| `ServiceWorker.FetchAlone` | frontend/public/sw.js:133-194 | the whole handler for a fetch that nothing interferes with, in any state and with any outcomes: its answer and the write it starts |
| `ServiceWorker.MatchExactly` | frontend/public/sw.js:144 | the lookup finds what the oldest cache that has the URL holds |
| `ServiceWorker.LandingMeans` | frontend/public/sw.js:147-150 | a write that lands changes one entry of the current cache and nothing else, a rejected one nothing |
| `ServiceWorker.InstallExactly` | frontend/public/sw.js:17-51 | the install goes on exactly if all six shell responses are readable successes, not partial, and writes exactly these under their URLs |
| `ServiceWorker.InvStep` | frontend/public/sw.js:41-195 | every callback keeps the caches, the pending writes, the install batch and the fetches in flight good |
| `ServiceWorker.CacheContent` | frontend/public/sw.js:28-62 | in every reachable state each cached key is a cacheable URL with a response the origin gave; the current cache holds only readable 200s, but for the very entries `addAll` wrote, which are successes for the shell's URLs; pending writes are readable 200s of intercepted GETs |
| `ServiceWorker.AnswersComeFromOrigin` | frontend/public/sw.js:143-194 | in every interleaving an answer is one the origin gave for that URL (for a navigation, or for the shell), equals a direct fetch of that URL when it never changes, and costs at most two network attempts, one for a navigation or the old worker |
| `ServiceWorker.ActivationClears` | frontend/public/sw.js:54-62 | when an activation is through, every listed cache is gone but the current one and any written since by another worker, and the current cache loses no key |
| `ServiceWorker.ActivationCompletes` | frontend/public/sw.js:54-62 | an activation left alone ends, with the current cache as it was and no other |
| `ServiceWorker.CachedIsServed` | frontend/public/sw.js:144-192 | once the current cache has a URL, every later fetch of it is answered from a cache as soon as it is looked up, whatever the network and later activations do |
| `ServiceWorker.KeptResponseServes` | frontend/public/sw.js:145-151 | a readable 200 from the first attempt or the retry is what the current cache holds for its URL when its write lands, whatever came in between, and from then on every fetch of that URL that begins is served from a cache |
| `ServiceWorker.ShellBootsOffline` | frontend/public/sw.js:153-158 | once the shell is installed no later navigation ever ends in a network error |
| `ServiceWorker.OfflineNavigation` | frontend/public/sw.js:133-158 | after the install and offline, a navigation without a cached copy is taken up and answered with the cached page |
| `ServiceWorker.NewRefinesOld` | out-arm64/webroot/sw.js:143-165 | on the same events from the same caches the new worker has every key the old one has, answers whenever it does and errs only when it does; the answers are equal where both are the first attempt's or both come from one URL that never changes, and they come from one URL but for a navigation that lost its attempt and for which the new worker's cache has more |
| `ServiceWorker.RetryRescues` | frontend/public/sw.js:160-188 | after one lost attempt the old worker errs and the new one answers |
| `ServiceWorkerCode.ShellWorker.HandleFetch` | frontend/public/sw.js:133-143 | the handler's start is the `Fetch` step, and takes a new fetch up exactly if it is a GET for a cacheable URL |
| `ServiceWorkerCode.ShellWorker.MatchAny` | frontend/public/sw.js:144 | the lookup over all caches finds the first, in order of creation, that has the key |
| `ServiceWorkerCode.ShellWorker.HandleShellFetched` | frontend/public/sw.js:41-51 | the install fetches are the `ShellFetched` step |
| `ServiceWorkerCode.ShellWorker.HandleShellPut` | frontend/public/sw.js:41-51 | the install writes are the `ShellPut` step, all or none |
| `ServiceWorkerCode.ShellWorker.Play` | frontend/public/sw.js:41-194 | the worker after any callbacks in any order: it is where the run leads, the current cache has lost no key and holds only successes, readable 200s but for what `addAll` put there; every answer is genuine and cost at most two attempts, and what was cached has answered every fetch begun since |
| `AuthGate.InvStep` | frontend/src/App.tsx:317-352 | only the newest run of each effect is alive, and only while effects are on; an identity is held only for an enrolled device |
| `AuthGate.ScreenExactly` | frontend/src/App.tsx:354-394 | what a commit shows, each screen with its exact condition on the fields: the shell only for somebody signed in, nobody gets the offline lock exactly when unreachable and enrolled and the login otherwise, the wizard exactly when the box is not set up |
| `AuthGate.ShownAtLastCommit` | frontend/src/App.tsx:354-394 | in every run what is on the page is what the last commit called for, so the shell only if somebody was signed in, all was settled, the box set up and no question open |
| `AuthGate.SetupEventsMean` | frontend/src/App.tsx:317-376 | what the probe, the person and the wizard do to the fields |
| `AuthGate.RaceEventsMean` | frontend/src/App.tsx:327-352 | what the race, its delivery and a wipe do to the fields |
| `AuthGate.EffectsMean` | frontend/src/App.tsx:317-352 | what running and cleaning up the effects do, and asking again |
| `AuthGate.SetupNeverGuessed` | frontend/src/App.tsx:293-376 | in every run of a mount the setup answer is the last decision of the probe being waited for, the person or the wizard, and there is none before the first |
| `AuthGate.StaysDecided` | frontend/src/App.tsx:317-376 | the setup answer never returns to unknown |
| `AuthGate.SupersededIsInert` | frontend/src/App.tsx:317-325 | a superseded probe stays superseded and its answer changes nothing |
| `AuthGate.AnswerIsFinal` | frontend/src/App.tsx:317-376 | once the question is behind and no probe is out, only the wizard's completion changes the answer and the question is never put again |
| `AuthGate.ChoiceStandsExactly` | frontend/src/App.tsx:357-365 | a person's choice stands against every late completion if and only if no probe is awaited and none has been asked for |
| `AuthGate.PromptChoiceStands` | frontend/src/App.tsx:317-365 | when the page catches up with each click before the next and effects restart only before the question, no probe is awaited whenever the question is up, so the person's choice stands against every late completion |
| `AuthGate.RestartUnderQuestion` | frontend/src/App.tsx:317-365 | effects that restart under the question leave a probe awaited while it is up |
| `AuthGate.RaceSettlesOnce` | frontend/src/App.tsx:333-341 | the first of probe and timer is the result for good, the loser changes nothing, and the result is delivered once |
| `AuthGate.EnrolmentIsLastVerdict` | frontend/src/App.tsx:327-352 | in every run of a mount the enrolment flag and the identity are the last verdict that the running effect's race delivered or a wipe gave, and nothing before the first |
| `AuthGate.WipeSticksExactly` | frontend/src/App.tsx:346-351 | a wipe holds against every later completion if and only if the running effect's race is spent |
| `AuthGate.WipeEndsOfflineLock` | frontend/src/App.tsx:343-385 | after a wipe from a screen behind the loading gate the offline lock is never rendered or shown again in that mount, provided that earlier wipes came from there too and effects restarted only before enrolment was settled |
| `AuthGate.WipeEndsOfflineLockExactly` | frontend/src/App.tsx:329-385 | in every reachable state a wipe keeps the offline lock away for the rest of the mount, whatever else happens, if and only if the running effect's race is spent |
| `AuthGate.EarlyWipeLetsRaceIn` | frontend/src/App.tsx:329-385 | a run in which a wipe from the loading screen opens the gate and a second one, from the login screen, is undone by the race: the offline lock is back |
| `AuthGate.GateNeverStuck` | frontend/src/App.tsx:330-373 | the loading screen is called for only while the session, a setup probe or the enrolment race is still out; no silence hangs the gate |
| `AuthGateCode.Gate.StopEffects` | frontend/src/App.tsx:324-351 | cleaning both effects up is the `CleanUp` step |
| `AuthGateCode.Gate.FlushEffects` | frontend/src/App.tsx:317-325 | re-running the setup effect for a new attempt is the `Flush` step |
| `AuthGateCode.Gate.Play` | frontend/src/App.tsx:293-394 | the component after any events in any order: it is where the run leads, its setup answer is the last decision and its enrolment the last verdict, past the question only the wizard has changed the answer, and a wipe that found its race spent has held |
| `EnergyLock.FlagExactly` | frontend/src/App.tsx:94-138 | lock and screensaver are each on if and only if some step turned them on and none has turned them off since, over all interleavings of stale polls, keys, dismissals, commits and effects |
| `EnergyLock.TurnsExactly` | frontend/src/App.tsx:94-138 | which events turn each flag on and off, on the fields of the status record and the captured flags |
| `EnergyLock.AnswerMeans` | frontend/src/App.tsx:98-113 | a pending poll locks exactly if its closure knew no lock and the answer is no record or has the screen off, and starts the screensaver exactly if it knew neither flag and the screen is on and dimmed; a failed answer changes no flag |
| `EnergyLock.EventsMean` | frontend/src/App.tsx:114-138 | the lock key locks and ends the screensaver, an unlock ends both, a dismissal the screensaver alone, and nothing but a status answer changes a flag otherwise |
| `EnergyLock.PollCaptures` | frontend/src/App.tsx:98-113 | a poll carries the flags of the last commit before the last run of the effect, whatever happened in between |
| `EnergyLock.ScreenExactly` | frontend/src/App.tsx:197-225 | what a commit shows: lock, then screensaver, then popout, then television, then desktop |
| `EnergyLock.LockPersists` | frontend/src/App.tsx:197-212 | once locked and until an unlock every render is the lock screen, even with the screensaver flag set |
| `EnergyLock.LockScreenStays` | frontend/src/App.tsx:197-212 | once the lock screen is on the page it stays there until an unlock |
| `EnergyLock.PollsUnderLockAreInert` | frontend/src/App.tsx:98-113 | a poll sent while the effect knew of the lock changes no flag, whenever it is answered |
| `EnergyLock.StalePollCanRelock` | frontend/src/App.tsx:98-113 | a poll sent by a closure that knew of no lock locks when it is answered if the answer is no record or has the screen off, and not otherwise, whatever came in between; so right after an unlock it locks again exactly then |
| `EnergyLock.EnergyState.Play` | frontend/src/App.tsx:94-225 | the hook after any events in any order: each flag is on exactly if an event turned it on and none turned it off since, a lock screen that was up stays until an unlock, and every poll sent under a known lock knows of it |

## Left out

- Cryptography: X.509 parsing and SHA-256 are arbitrary functions, and a TLS dial is a peer that is silent or
  presents a chain; nothing is claimed about their strength.
- File modes, the directory's creation and disk-full limits: each is a system call that may fail; the mode itself
  is not modelled.
- Error texts: an error is its kind, with the line number or name it carries.
- Vary headers, opaque redirects and storage eviction: a cache key is a URL, and a write lands whole or not at all.
- Caches written by page scripts: only this worker and other versions of it write. Those write to caches of their
  own, and by the handler's rule to the current one; an install of theirs into the current one is over before.
- Push, notification and message handlers of the worker: browser calls with single-branch defaults.
- The offline re-lock branch of `Shell`, `unlockOffline`, the setup probe's own retries and the app-data clearing on
  a wipe: they depend on modules that are not part of this model.
- The modal, shortcut, location and notification effects of the shell: they do not touch the modelled state.
- `clients/core/discover.go` and the HTTP client settings: sockets and timeouts without a hard property.
- The backend, scripts, end-to-end tests and documentation of the repository.
