# Models of netherconnect's protocols and long-running loops

netherconnect lets Bedrock players join a server through an Xbox Live friend's world. This project models the
parts of it whose guarantees span many calls, and proves those guarantees:

- **The no-relay join path.** Signals come in over an unordered channel and are put in order per connection
  (`PendingSignals`); the broker holds an offer while candidates trickle in and hands it to the backend once
  (`Broker` is the protocol, `Norelay` the object whose methods are its steps, `Forwarding` what happens to one
  offer); the offer's SDP text is rewritten on the way (`Sdp`) and the identity in it must read the same before and
  after (`OfferIdentity`). `JoinPath` puts these together. Line and attribute syntax is that of RFC 8866, sections 5,
  5.13 and 5.14, and the candidate attribute that of RFC 8839, section 5.1.
- **The login loop** of a proxied connection (`LoginLoop`).
- **The invite loop**, whose place in the list outlives sessions (`Invites`).
- **The shared join log**: its text form, the sorted rewrite and one store (`FriendActivity`), and several processes
  that share the file (`SharedLog`).
- **The join nonces** of a session (`Nonces`) and **the drifting player count** (`Drift`).

`GoStrings` holds the parts of Go's `strings` package these use, and lemmas about cutting a text into lines; `GoTime`
the second.
`dafny verify dfyconfig.toml` verifies everything.

## How to read it

Objects that the program updates in place are classes with the same fields. Each method is proved to do what a
function of the state before says, and the theorems are about those functions and about every sequence of them.
Concurrency is a step relation, and a theorem over steps holds for every interleaving of them. In `Broker` a step is
one region held under the mutex, a timer going off or time passing; in `Invites` a method of the controller or a
stretch of its loop between two points at which it waits, sends or records; in `SharedLog` reading the file or writing
it. In `PendingSignals` it is one incoming signal, which assumes that signals are handled one at a time: the program
gives up its mutex before `trySend` (messaging/conn.go:220-221). Ghost fields record history (which offers were
forwarded, which players were handled).

What those functions say is stated a second time without them, in the words of the program's own promises: what each
signal does after any run (`OfferSignal`, `CandidateSignal`, `OtherSignal`), when an offer is a player's
(`VerifyOfferIff`), what a forward sends (`AnswerIsTheBackends`, `WhatFollowsTheAnswer`), which packet ends a login and
how (`FirstEndDecides`), whom a loop handles (`LoopMakesProgress`, `LapIsRead`), where candidates are written
(`MediaAttributeOffset`, `InlineCandidates`), which record survives a merge (`MergedIsNewest`).

- A string is the sequence of its Unicode scalar values, so every text is taken to be valid UTF-8. Where the program
  compares a length with a limit, the model counts UTF-8 bytes. Offsets into a text are only ever used to cut it.
- Times are integers: milliseconds in `Broker`, `PendingSignals` and `Invites`, nanoseconds in `FriendActivity`,
  `SharedLog` and `Drift`. The readings of the clock within one locked region are one instant.
- Network calls, token verification, signatures, random numbers and packet decoding are parameters: any function may
  stand for them.
- A file is replaced in one step, and a missing file reads like an empty one.

Where the program does less than one might expect, the exact condition is proved beside a run or an input that shows
the difference:

- No relay candidate is posted unless one hides from the test on its signal: "typ" at the end of the first word, as
  in "candidate:typ relay" (`NoRelayPostedIff`, `NoRelayFromAnyRunIff`, `DisguisedGetsThrough`).
- A candidate with a line feed inside can bring any attribute along, and take the place of the one an offer has
  (`AttributeSurvivesIff` for all offers, `AttributeSurvivesInOfferIff` for each, `OwnAttributeIsReplaced`).
- A forward can come before the offer's deadline and before its quiet time is over. A callback started for the offer
  does that exactly if a candidate is kept while it waits for the lock and the deadline has not come
  (`ForwardIsTimelyIff`, `CandidateWhileCallbackWaits`). If the key is used again, the callback of the earlier offer
  takes the new one. One that already waited when the earlier offer was given up or forwarded does it unless the new
  offer has nothing to wait for (`KeyReusedWhileCallbackWaits`). A timer that a kept candidate set anew after its
  callback had started outlives its offer, and may go off at any moment of the new one
  (`StaleTimerForwardsNextOffer`); that forward is in time exactly if the new offer's own timer is due as well
  (`ForwardIsTimelyIffOwnTimerIsDue`). There is no other way: while no offer is taken and no candidate kept as a
  callback of the same key waits, no timer outlives its offer and every forward is in time
  (`UndisturbedForwardsAreTimely`).
- A name with a line feed does not survive in the join log (`ReadBack`).
- A process that reads the join log, lets another one note a join, and then writes loses that join from the file until
  the other one writes again (`FileNeverGoesBackIff`, `InterleavedJoinIsLost`, `JoinComesBack`).
- A forgotten player comes back if another process still has the record (`ForgottenComesBackIff`).

## Model

| member | source | states |
|---|---|---|
| Sdp.IsRelayCandidate | bridge/norelay.go:369-377 | the loop answers whether the word after the first "typ" is "relay" |
| GoStrings.FieldsAreRuns | bridge/norelay.go:370 | the fields the test works on are the longest runs without space, all of them and in order |
| GoStrings.FieldsOfSpaced | bridge/norelay.go:370 | words with a space between them are the fields of the text they make |
| Sdp.FirstTypDecides | bridge/norelay.go:371-375 | the candidate is a relay candidate exactly if the word after its first "typ" is "relay", whatever comes later |
| Sdp.OrdinaryCandidate | bridge/norelay.go:369-377 | a candidate written word by word with one type is a relay candidate exactly if that type is relay |
| Sdp.RelayLineMeans | bridge/norelay.go:395 | a line is removed exactly if it is "a=candidate:" followed by a relay candidate |
| Sdp.StripRelayCandidates | bridge/norelay.go:381-402 | the result is the lines of the SDP without the relay candidate lines, and the count is the number of such lines |
| Sdp.NoRelayWord | bridge/norelay.go:382-384 | an SDP without the word has no line to remove, so the early return gives what the loop would |
| Sdp.StrippedKeepsTheOtherLines | bridge/norelay.go:381-402 | what is left reads as the other lines in their order, no removable line remains, and stripping again changes nothing |
| Sdp.RemovedCount | bridge/norelay.go:387-396 | lines kept and lines removed add up to all lines |
| Sdp.MediaAttributeOffset | bridge/norelay.go:481-499 | what is found is where a line begins that starts with "a=", behind a line that starts with "m=" and with no line in between that starts with "a=", whatever other lines stand between; -1 exactly if there is no such place |
| Sdp.AnchorMeans | bridge/norelay.go:481-499 | there is at most one such place, and it is where the anchor line of the other theorems begins |
| Sdp.CandidateForms | bridge/norelay.go:505-514 | one value sent bare, after "candidate:", after "a=" or after both, with any space around, gives the same line, which carries that value; a candidate gives no line exactly if nothing or only "a=" is left of it |
| Sdp.CandidateAttributeFacts | bridge/norelay.go:505-514 | the line is a trimmed candidate attribute, has no line feed unless the candidate has one inside, and turning it into an attribute again changes nothing |
| Sdp.AttributeLines | bridge/norelay.go:450-455 | the non-empty attributes of the candidates in their order |
| Sdp.InlineCandidates | bridge/norelay.go:449-477 | without attributes the text stays; otherwise they stand, each ended as the lines of the text are, in front of the first attribute line of the media section or, if there is none, after the last line, which is ended first |
| Sdp.BlockIs | bridge/norelay.go:465 | what is written for several attributes is what is written for each, the attribute and the line ending |
| Sdp.InlinedContents | bridge/norelay.go:465-476 | a reader of the lines sees the old lines, unchanged, with the inserted ones in one place |
| Sdp.AnswerCandidates | bridge/norelay.go:518-526 | splitting on line feeds and dropping carriage returns finds the candidates of all lines, in order |
| Sdp.InlineCandidateIffRead | bridge/norelay.go:432-434 | the substring test holds exactly when reading the candidates finds one |
| Sdp.InlinedReadsBack | bridge/norelay.go:449-526 | candidates written in are read out again, in order and unchanged, between those before and those after the place of insertion |
| Sdp.RewriteKeepsOtherLines | bridge/norelay.go:298-299 | everything that is not a candidate line reads the same, in the same order, in the posted offer |
| Sdp.RelayLineIffDisguised | bridge/norelay.go:198-199 | a candidate that the test on its signal lets through becomes a relay line if and only if its first word is a prefix run together with "typ" and its second is "relay" |
| Sdp.NoRelayPostedIff | bridge/norelay.go:298-299 | with one-line candidates that passed that test, the posted offer has no relay line if and only if none of them is such a one |
| Sdp.DisguisedGetsThrough | bridge/norelay.go:198-199 | a concrete candidate that is let through and becomes a relay line |
| OfferIdentity.SdpAttribute | bridge/norelay_identity.go:190-212 | the loop finds the first value in the media section if that is preferred and there is one, otherwise the first value anywhere |
| OfferIdentity.AttributeMeans | bridge/norelay_identity.go:190-212 | the value is what follows the prefix in one line: the first that has it, or the first behind an m= line if that is preferred and there is one; without a line there is no value |
| OfferIdentity.FingerprintParts | bridge/norelay_identity.go:171-186 | the payload has an algorithm and a digest if and only if the fingerprint value is the two with a space between and no other |
| OfferIdentity.VerifyOfferIff | bridge/norelay_identity.go:146-169 | an offer is accepted as a player's if and only if its identity value decodes, the token in it verifies as that player with a key, and that key signs the offer's own fingerprint |
| OfferIdentity.AttributeSurvivesRewrite | bridge/norelay.go:298-299 | for every SDP and either preference an attribute reads the same before and after the rewrite unless an inserted line has it |
| OfferIdentity.AttributeSurvivesIff | bridge/norelay.go:449-477 | candidates leave an attribute of every offer alone if and only if none of the lines they add starts with it |
| OfferIdentity.AttributeSurvivesInOfferIff | bridge/norelay.go:449-477 | candidates leave an attribute of one offer alone, with or without preference for the media section, if and only if no added line has it, or a value before the place of insertion hides the added ones, or the first added value is the one that was read before |
| OfferIdentity.OwnAttributeIsReplaced | bridge/norelay.go:465-471 | a concrete offer with the attribute in its media section, and a candidate with an inner line feed whose value is read instead |
| OfferIdentity.OneLineAddsNoAttribute | bridge/norelay.go:505-514 | candidates without an inner line feed add no attribute but candidate |
| OfferIdentity.InnerLineFeedAddsAttribute | bridge/norelay.go:505-514 | a concrete candidate with an inner line feed that adds an attribute of any given key |
| OfferIdentity.SamePlayerAfterRewrite | bridge/norelay_identity.go:146-186 | the posted offer has the fingerprint payload of the client's own, and verifying either gives the same player or the same refusal |
| PendingSignals.PendingStore.TrySend | messaging/conn.go:75-96 | what one signal puts on the channel and leaves held back, including the order of the flush |
| PendingSignals.Conn.HandleSignal | messaging/conn.go:213-224 | the signal goes through its own connection's store, made on the first signal, and no other store changes |
| PendingSignals.Conn.EvictIdle | messaging/conn.go:131-137 | exactly the stores idle for more than 30 seconds go |
| PendingSignals.LastActivityIsLastSignal | messaging/conn.go:75-76 | a connection has a store exactly if a candidate or description came for it, and the store's last activity is when the last of these came |
| PendingSignals.EachConnectionInOrder | messaging/conn.go:75-96 | for every interleaving of connections, a connection's reader sees its description first, then the candidates that came before it in order, then the rest as it arrived |
| PendingSignals.NothingLost | messaging/conn.go:75-96 | what was delivered and what is held back are together exactly what was received |
| PendingSignals.NoCandidateBeforeDescription | messaging/conn.go:56-71 | every candidate delivered has a description before it |
| Norelay.SignalBroker.NotifySignal | bridge/norelay.go:169-227 | each kind of signal changes the broker by exactly one protocol step, limits and duplicates included, and the returned flag says whether it was taken |
| Norelay.SignalBroker.Arm | bridge/norelay.go:231-244 | the timer is made once and set for the smaller of the quiet time and what is left to the deadline, never in the past |
| Norelay.SignalBroker.BeginForward | bridge/norelay.go:248-258 | a callback takes the offer of its key, whichever that is, or does nothing; the offer and its candidates are handed over unchanged |
| Norelay.SignalBroker.EndForward | bridge/norelay.go:259-263 | exactly one slot is released |
| Broker.OfferSignal | bridge/norelay.go:172-194 | after any run: an offer is taken exactly if none is pending for its key, it has at most 65536 bytes and fewer than 32 are pending or being forwarded; it waits for up to 2000 ms with its timer at 150 ms, or not at all if it carries candidates; otherwise nothing changes |
| Broker.CandidateSignal | bridge/norelay.go:195-203 | after any run: a candidate is kept, behind the others, exactly if its offer is pending with fewer than 32, it has at most 1024 bytes and it is no relay candidate, and the timer is set anew for the quiet time or the deadline; otherwise nothing changes |
| Broker.OtherSignal | bridge/norelay.go:210-226 | after any run: an error takes the pending offer of its key and its timer away and frees a slot; any other kind is not handled |
| Broker.EveryRunHoldsDirect | bridge/norelay.go:169-244 | in every reachable state no candidate held is a relay candidate, each has at most 1024 bytes, each offer at most 65536 bytes and 32 candidates, and its deadline is 2000 ms after it came, or the moment it came if it carried candidates |
| Broker.NoRelayFromAnyRunIff | bridge/norelay.go:169-299 | whatever a run holds, the text it would post for one-line candidates has no relay line if and only if none of them is disguised |
| Broker.EveryRunKeepsInv | bridge/norelay.go:169-263 | in every reachable state inFlight is the offers pending plus the forwards running and within 0 to 32, and every accepted offer has exactly one fate |
| Broker.EveryOfferHasOneFate | bridge/norelay.go:169-263 | over every interleaving, stale firings and reused keys included, an offer is forwarded at most once or abandoned at most once, never both and never while pending |
| Broker.PromptRunIsInTime | bridge/norelay.go:231-244 | while the clock does not pass a due timer, every pending offer has its timer set for its deadline or the quiet time, or its callback waiting |
| Broker.HeldAtMostTwoSeconds | bridge/norelay.go:185-203 | an offer leaves pending within 2000 ms of being accepted, at once if it carried candidates, and is armed once for itself and once for each candidate kept, at most 33 times |
| Broker.ForwardIsTimelyIff | bridge/norelay.go:229-258 | for every callback but those of a timer whose offer was gone when it went off, the forward is no earlier than the offer's deadline or 150 ms after its last kept candidate if and only if the callback was started for the offer as it is or the deadline has come |
| Broker.ForwardIsTimelyIffOwnTimerIsDue | bridge/norelay.go:229-258 | for every callback, stale timers included, that is so if and only if the offer's own timer is due or its own callback waits too |
| Broker.CandidateWhileCallbackWaits | bridge/norelay.go:195-203 | a run in which a candidate kept while the callback waits is forwarded without any quiet time |
| Broker.KeyReusedWhileCallbackWaits | bridge/norelay.go:210-219 | a run in which the waiting callback of an abandoned offer forwards the next offer of the same key at once |
| Broker.StaleTimerForwardsNextOffer | bridge/norelay.go:195-203 | a run without any abandoned offer in which a timer that a late candidate set anew forwards the next offer of the key before its time |
| Broker.UndisturbedForwardsAreTimely | bridge/norelay.go:229-258 | in runs in which no offer is taken and no candidate kept while a callback of the same key waits, every timer belongs to the pending offer of its key, and every callback that finds an offer is that offer's own and comes no earlier than its deadline or its quiet time |
| Forwarding.Negotiate | bridge/norelay.go:265-340 | the actions of one forward in order, for every combination of verification, allowlist, backend and delivery outcomes |
| Forwarding.AnswerIsTheBackends | bridge/norelay.go:279-315 | the rewritten offer is posted exactly unless an allowlist is set and no player on it vouches for the offer; then the client is told so and nothing else happens; otherwise it is sent the backend's answer unchanged, or an error exactly if there was none |
| Forwarding.WhatFollowsTheAnswer | bridge/norelay.go:307-336 | if the answer gets through, its candidates go out in order up to the first that does not get through, and then the join exactly if the player is verified and joins are recorded; if not, nothing |
| Forwarding.IdentityIff | bridge/norelay.go:272-278 | the player is identified exactly if tokens can be verified and the offer is vouched for as that player's |
| Forwarding.OneOutcome | bridge/norelay.go:279-315 | exactly one answer or error is attempted, and every signal goes to the connection the offer came from |
| Forwarding.OneRequest | bridge/norelay.go:279-306 | at most one request goes out, first and with the rewritten offer, and with an allowlist only if a player on it vouches for the offer with a signed fingerprint, as the client wrote it and, for one-line candidates, as it is posted |
| Forwarding.OnlyAfterAnswer | bridge/norelay.go:307-336 | candidates follow only a delivered answer and are its own in order; a join is recorded at most once, last, for the verified player |
| Forwarding.PostedOfferShowsTheSamePlayer | bridge/norelay.go:272-299 | verifying the text that was posted gives the player this process saw |
| JoinPath.BundleOfArrivals | messaging/conn.go:75-96 | wherever the offer arrived among its candidates, with time passing and earlier forwards ending in between: within the size limit it is taken if there is room for it, and when taken it is held with the first 32 eligible candidates in order of arrival |
| JoinPath.SamePostedOffer | bridge/norelay.go:298-299 | two arrival orders with the same candidate order are posted as the same text, and with room for the offer both are taken |
| LoginLoop.ProxyConn.ReadPackets | proxy/proxy_conn.go:306-313 | once login is done the packets set aside come first and once, then the decoder's batches |
| LoginLoop.ProxyConn.CheckClientPacket | proxy/proxy_conn.go:150-160 | exactly the server's packets and a handshake nobody asked for are refused |
| LoginLoop.ProxyConn.HandleLogin | proxy/proxy_conn.go:325-349 | parse and authentication failures, and encryption switched on exactly where it is wanted |
| LoginLoop.ProxyConn.HandlePacket | proxy/proxy_conn.go:187-257 | every packet type's effect on the connection, and whether it completes or fails the login |
| LoginLoop.ProxyConn.ReadLoop | proxy/proxy_conn.go:162-278 | the nested loops end as a packet-by-packet scan of the whole stream would, whatever the batches, with the connection closed on exactly the failures that close it, and everything behind the completing packet still to be read |
| LoginLoop.ScanAppend | proxy/proxy_conn.go:162-261 | how the stream is cut into batches makes no difference |
| LoginLoop.FirstEndDecides | proxy/proxy_conn.go:162-261 | from any point on, for both sides: the scan succeeds exactly on a first ending packet that completes the login, and fails exactly the way the first ending packet fails it |
| LoginLoop.OneVerdict | proxy/proxy_conn.go:187-257 | a packet fails a login in at most one way and never also completes it |
| LoginLoop.OrdinaryLoginSucceeds | proxy/proxy_conn.go:187-257 | after packets that only prepare the login, or pass through, the completing packet makes it succeed, with everything behind it still to come |
| LoginLoop.RepliesAreWritten | proxy/proxy_conn.go:187-257 | this end has written as many packets as the packets read call for |
| LoginLoop.NothingLostAroundLogin | proxy/proxy_conn.go:162-278 | a successful scan sets aside, in order, the pass-through packets before the completing one and that one only if it is a PlayStatus; what is before, that one and the rest are the whole stream |
| LoginLoop.ClientLoginIsGenuine | proxy/proxy_conn.go:181-238 | a client-facing login succeeds only on the last Login sent, parsed and authenticated, whose bytes and identity are the ones kept; with client encryption on, encryption is on and a later handshake completes it |
| LoginLoop.Pump | bridge/relay.go:336-348 | reading a connection to its end gives its upcoming batches, what was set aside first, without loss or repeat |
| LoginLoop.LoginThenPump | bridge/relay.go:134-348 | for a new connection the first packet that ends the login decides: on the dialing side a PlayStatus of success or spawn, a valid server handshake or a client handshake completes it, on the client's an accepted Login or the handshake asked for; any other end is that packet's own failure, and the connection is closed on exactly six kinds of failure; after a success all reads put together are, in order and without loss or repeat, the pass-through packets before that one, that one only if it is a PlayStatus, and every packet after it, and the connection has the identity and the encryption that the packets call for |
| Invites.FindResumeIndex | invitewatcher.go:256-266 | just after the last player, or the top if it is unknown or gone |
| Invites.ReadXuidList | invitewatcher.go:483-509 | the players of the lines, each once, non-empty and in the order first seen |
| Invites.XuidEndsAtComma | invitewatcher.go:501 | the player of a line is what stands before its first comma, or all of it |
| Invites.InviteController.StartList | invitewatcher.go:279-303 | a running controller is left alone; otherwise the file says running with the interval, the list, and the saved position exactly if the list is the saved one and no restart is asked for, and a new loop begins there |
| Invites.InviteController.ResumeIfWanted | invitewatcher.go:241-252 | starts exactly if the file says running, behind the saved player, with the saved interval if that is a second or more and ten seconds otherwise |
| Invites.InviteController.Stop | invitewatcher.go:306-323 | the loop is cancelled and the file says not running, with its position kept |
| Invites.InviteController.RecordProgress | invitewatcher.go:230-237 | a cancelled loop writes nothing |
| Invites.InviteController.Turn | invitewatcher.go:347-395 | each stretch of the loop between two points where others may run is one step of the system |
| Invites.LoopMakesProgress | invitewatcher.go:347-395 | 1 + 2k turns of a running loop at the top of its lap handle the next k players behind the one to resume after, in order, and the file says whom it handled last |
| Invites.LapIsRead | invitewatcher.go:347-395 | with two turns for each player and two more it reads the list to its end, clears the place in the file, and is at the top of the whole list again |
| Invites.StopSticks | invitewatcher.go:227-252 | after a stop, whatever cancelled loops still do, the file stays as it is and nobody is invited until a start |
| Invites.StoppedUntilStart | invitewatcher.go:306-323 | over any run: after a stop of a running loop the file is as it was but for saying not running, and nobody is invited, through every later step of any loop, session end or resume, until a start |
| Invites.RunKeepsWanted | invitewatcher.go:188-196 | over any run the file says running while a loop runs |
| Invites.SessionEndResumes | invitewatcher.go:188-196 | over any run: after a session that ends while the loop runs, whatever the cancelled loops still do, the next controller resumes with the saved interval on the same list, right after the player recorded when the session ended |
| Invites.NobodySkipped | invitewatcher.go:347-395 | over any run of stops, session ends, resumes and starts, the players handled, without those handled again right after a cut, are the list read round and round from the recorded place |
| Invites.EverybodyComesUp | invitewatcher.go:347-395 | any as many in a row as the list is long include everybody on it |
| FriendActivity.SortRecords | xbl/friendactivity/friendactivity.go:192-198 | the in-place insertion sort leaves a sorted permutation |
| FriendActivity.LessAt | xbl/friendactivity/friendactivity.go:194 | the order is by the first difference, a proper prefix being less |
| FriendActivity.EqualRecordsEqualFiles | xbl/friendactivity/friendactivity.go:169-190 | equal records give byte-identical files, in whatever order the map is walked |
| FriendActivity.CleanLineReadsBack | xbl/friendactivity/friendactivity.go:181-216 | a line written for a record the file can hold parses to that record in whole seconds |
| FriendActivity.AnnsLine | xbl/friendactivity/friendactivity.go:181 | a line as it is written, character by character |
| FriendActivity.FormatDigit | xbl/friendactivity/friendactivity.go:181 | the time is written digit by digit, with a minus before negative ones |
| FriendActivity.ParseSigned | xbl/friendactivity/friendactivity.go:211 | digits with or without a sign are the number they say exactly within 64 bits |
| FriendActivity.SpacedLineParses | xbl/friendactivity/friendactivity.go:203-215 | space around the player ID and the time makes no difference, and the name is taken as it stands |
| FriendActivity.LinesWritten | xbl/friendactivity/friendactivity.go:180-185 | a written file has exactly one line for each record, in their order |
| FriendActivity.ParsedIsClean | xbl/friendactivity/friendactivity.go:202-216 | whatever a line holds, a record parsed from it is one the file can hold |
| FriendActivity.SanitizedFacts | xbl/friendactivity/friendactivity.go:29-31 | no comma is left, names without commas are unchanged, and line feeds are not touched |
| FriendActivity.SanitizedAfterComma | xbl/friendactivity/friendactivity.go:29-31 | a comma goes and nothing before it does, so what is left is the name without its commas |
| FriendActivity.ReadBack | xbl/friendactivity/friendactivity.go:52-81 | writing a store and reading it gives the same records in whole seconds if and only if every player ID is non-empty, trimmed and free of commas and line feeds and every name free of both, all times being in the range of 64 bits |
| FriendActivity.Store.Open | xbl/friendactivity/friendactivity.go:52-81 | the records are those of the lines that parse, the last line of a player counting |
| FriendActivity.LinesScanned | xbl/friendactivity/friendactivity.go:67-69 | the text is read line by line, each without a carriage return at its end, and the last counts whether or not it is ended |
| FriendActivity.EntriesAreParsed | xbl/friendactivity/friendactivity.go:70-78 | the entries are those of all lines that parse, in order, whatever other lines stand between |
| FriendActivity.LoadedIsLast | xbl/friendactivity/friendactivity.go:67-79 | a player is read exactly if an entry has them, and the record is that of the last such entry |
| FriendActivity.Store.MergeFromFile | xbl/friendactivity/friendactivity.go:148-164 | of the file's record and the one in memory the newer stays, and of equal ones the one in memory |
| FriendActivity.MergedIsNewest | xbl/friendactivity/friendactivity.go:148-164 | the record after a merge, name and all, is the newest of the one before and the entries, of equally new ones the one before or else the first |
| FriendActivity.Store.RecordJoin | xbl/friendactivity/friendactivity.go:90-98 | the file is merged in, the player has the time of the join and the display name without commas, everybody else is as merged, and the file is that of the records |
| FriendActivity.Store.Forget | xbl/friendactivity/friendactivity.go:129-140 | the player is gone from the records, and the file is rewritten only if there was something to remove |
| FriendActivity.Store.Stale | xbl/friendactivity/friendactivity.go:112-124 | exactly the records whose join is before now less the window, each once, by player ID |
| SharedLog.MergeFromFileIsRead | xbl/friendactivity/friendactivity.go:148-164 | merging the file text into one store's records is the step Read, and brings in nothing the file cannot hold |
| SharedLog.NoteAndWriteIsWrote | xbl/friendactivity/friendactivity.go:94-95 | noting a join and writing the file text is the step Wrote |
| SharedLog.RecordJoinIsJoined | xbl/friendactivity/friendactivity.go:90-98 | what RecordJoin does to records and file text is the step Joined, the two with nobody in between |
| SharedLog.OpenIsOpened | xbl/friendactivity/friendactivity.go:52-81 | what an open reads is never ahead of the file, whatever the file holds |
| SharedLog.WriteKeepsFileIff | xbl/friendactivity/friendactivity.go:169-190 | a write loses none of the file's joins if and only if its process knows of all of them but, perhaps, those of the player it notes |
| SharedLog.FileIsTheLog | xbl/friendactivity/friendactivity.go:142-164 | as long as no write lost a join, the file says for every player exactly when they last joined, whichever processes that went through, and no process knows of a later join |
| SharedLog.NeverBackIffHarmless | xbl/friendactivity/friendactivity.go:142-164 | over any run of reads and writes the file never goes back if and only if every write is such a write |
| SharedLog.FileNeverGoesBackIff | xbl/friendactivity/friendactivity.go:90-98 | over any run in which a process reads before it writes, the file never goes back if and only if between the two no other process notes a join, of another player, later than the writer knows; and then the file is the log throughout |
| SharedLog.FileNeverGoesBack | xbl/friendactivity/friendactivity.go:142-164 | with whole joins by any number of processes, no player's last join in the file goes back or disappears |
| SharedLog.FileNeverGoesBackFromAnyFile | xbl/friendactivity/friendactivity.go:52-98 | both from any file text without joins from the future, before the first process opens it |
| SharedLog.JoinComesBack | xbl/friendactivity/friendactivity.go:148-190 | with reads and writes interleaved in any way, a join stays in its recorder's memory and is in the file again right after each later write of that process |
| SharedLog.InterleavedJoinIsLost | xbl/friendactivity/friendactivity.go:148-190 | a run in which the file loses a join that its recorder still has |
| SharedLog.ForgottenComesBackIff | xbl/friendactivity/friendactivity.go:146-147 | a player forgotten in one process is gone from the file, and comes back with another one's merge if and only if that one still has the record |
| Nonces.ActiveIsLastEntry | xbl/session.go:413-424 | the active members are the XUIDs other than this account's, each with the connection its last entry gives, or with the XUID itself if that entry gives none |
| Nonces.Session.RefreshNonces | xbl/session.go:426-450 | both maps have exactly the active members, a nonce is kept exactly while the connection is the same, and an update is pushed exactly when the connections changed |
| Nonces.Session.CopyNonces | xbl/session.go:195-200 | the copy is the map |
| Nonces.NonceIsOfLastChange | xbl/session.go:413-450 | over any sequence of documents each active member has the nonce drawn in the refresh that found the connection changed |
| Nonces.RefreshTwice | xbl/session.go:426-450 | a second refresh with the same document leaves both maps as the first did, whatever would be drawn, and pushes nothing |
| Drift.NewPlayerCountDrift | drift.go:42-76 | no drift without a positive maximum; otherwise the range lies above zero and below max_players and the start inside it |
| Drift.PlayerCountDrift.Current | drift.go:80-96 | the loop makes one clamped move for each interval since the last, at most eight, and moves the clock by whole intervals |
| Drift.ReadingsKeepTime | drift.go:80-96 | after any readings the count is in range, is the start moved by exactly the moves drawn, and the last move is at the latest whole interval since the start |
| Drift.WalkIsMoves | drift.go:92-94 | as long as the moves stay inside the range the count is the start and all of them, and a move that would leave it ends where it does |
| Drift.ReadingsAddMoves | drift.go:80-96 | after any readings whose moves stay inside the range the count is the start value and the sum of the moves drawn |
| Drift.DrawsAreIntervals | drift.go:89-92 | as many moves are drawn as intervals have passed if and only if no gap was longer than eight |
| Drift.ReadersDoNotMatter | drift.go:28-29 | without such gaps the state depends on the time alone, not on who read the count or when |
| Drift.WalkIsSlow | drift.go:92-94 | the count moves by no more than the largest step for each move |

## Left out

- ReadLoop: for a connection on which no login has been completed, the way every caller uses it (proxy/dial.go:86, proxy/dial.go:155, bridge/relay.go:138); packets written by this end are counted, not their contents, and which key decodes a batch is not modelled.
- Pump: the writing half is not modelled; a write that fails ends the reading.
- RefreshNonces: a document that cannot be read is None; the request itself and what becomes of a pushed update are not modelled.
- Current: times are unbounded integers, so Go's saturating Sub and an interval above 292 years are not modelled.
- ReadBack: bufio.Scanner's limit of 64 KiB for one line is not modelled.
- BundleOfArrivals: for a connection ID used by one peer; stores are keyed by connection ID alone (messaging/conn.go:214), so two peers with the same ID share one.
- EachConnectionInOrder: for signals handled one at a time; trySend runs without the mutex.
- NothingLost: for signals handled one at a time and absent eviction; an evicted store takes with it whatever it still held back (EvictIdle).
- NoCandidateBeforeDescription: for signals handled one at a time and absent eviction.
- NobodySkipped: for a list that does not change during the run and starts that neither restart the lap nor choose the other list; recordProgress is one step, and an invite counts as handled whether or not Xbox Live took it.
- FileIsTheLog: without Forget, with a clock that does not go back, and for player IDs and names the file can hold (ReadBack). The same holds for the other theorems about runs in SharedLog.
- Store.LastJoin in xbl/friendactivity is not modelled.
- JSON, base64, JWS and OIDC, ECDH key derivation and the packet codec are uninterpreted results.
- WebRTC, HTTP, websockets and Xbox Live endpoints: a request succeeds or fails. Logging, the counters of refused offers, delivery notifications and the codes in error signals are not modelled.
- File-system faults, a shared temporary file, failed renames, and reading the interval of the state file back from its text are not modelled.
- bridge/nnserver.go, bridge/pingserver.go and control.go are not modelled.
- config.go, broadcasts.go, invitequeue, internal and session are not modelled.
- cmd, main.go, proxy/dial.go and the rest of xbl are not modelled.
