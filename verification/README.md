# Two-factor file storage: a model and its proofs

The system has four programs. A Personal Device (PD) registers a user with the Authentication Server (AS) over UDP.
The user logs in to AS over TCP and asks for an operation; AS sends a validation code (VC) to the user's device, the
user sends it back, and gets a transaction identifier (TID). With the TID the user asks the File Server (FS) for the
operation, and FS has AS confirm the TID before it acts.

The model follows the programs file by file.

- `Text`, `Decimal`, `Identifiers`: the word splitter, `sscanf`'s fields, printed lines, decimal counters.
- `LinkedMap` (modules `Assoc`, `LinkedMap`): the linked-list map as a heap class, and the lists it stands for.
- `Protocol`: what each AS request does, as functions on the server's state. `AuthServer` has the same requests in
  place, on a linked list of user nodes, each with three linked maps of its own, and two digit arrays; each method is
  proved to compute the `Protocol` function and to keep all these structures apart.
- `Device`: the PD's side. `Runs`: histories of AS and the devices, one request at a time. `Guarantees`: what every
  history implies for VLD, AUT, REQ, sessions and devices. `Sessions`: who is logged in, in every history.
  `Registrations`: who is registered, and at which device. `Replies`: what every request is answered, from the history
  alone. `Client`: the client's and the device's conversations with AS on the wire, and what they conclude.
- `FileStore`, `FileCommands`, `FileServer` (module `FileServing`): the store and where names lead in it; how a command
  line is read, checked and carried out; the same in place, with the replies.
- `FileAccess`, `FileRuns`: the end-to-end claims, for one connection on the answer AS gave, and over runs in which AS,
  the devices and FS go on together.
- `Locks`, `Interleaving`: AS with one UDP thread and any number of TCP threads, one step for each lock operation.
  `Serial`: a request handled while the other threads rest has the effect that `Protocol` gives it.
- `Stream`, `Transfer`, `Listing`, `RoundTrip`, `FileClient`: reading from connections that deliver bytes in arbitrary
  pieces, and complete exchanges between client and FS, up to the status that the client reads.

Modelling decisions a reader should know:

- A request is the fields that `sscanf("%s")` filled, each a non-empty blank-free word, together with the word count
  that `getWords` returned. The two are independent, since the two scanners disagree on bytes that are neither blank nor
  printable. A field that no conversion filled is an arbitrary word: the C code reads an uninitialised array there.
- A history (`Runs.Run`) lists events with the replies they got. `LatestGrant`, `PendingGrant`, `LatestLogin` and
  `LatestRegistration` read the history off requests and replies alone; the lemmas connect them to the stored state.
- A device that has not registered is absent from `World.pds`, and gives no usable answer; in C its user is uninitialised.
- In `Locks` a traversal of the list under the list lock is one step: while any thread reads, nobody can append, and
  uids and links do not change. Addresses are written only by the UDP thread, which is also the only one to scan them.
  VC and TID values are arbitrary there, because the two counters are not protected by any lock.
- `newUsersList`, `sendMessage` and `receiveMessage` have no return statement (AS.c:37-41, libs/helper.c:220-234). The
  model takes the evident result.
- A name is printed behind the user's directory and opened, so a name with a slash is a path. `FileStore.Target` follows
  it among the users' directories, out of them and back in. A command strays (`Strays`) when its path leads to anything
  but a file of a user: to a directory, or to what lies outside. What the operating system then does is not modelled:
  `Answers` leaves everything of the reply but its first word open, and `Becomes` the store unless the command only
  reads. `Exec` and `Serve` stand for the outcome only of commands that are `Followed`, and every result about them has
  that condition, or one on names that implies it.
- A command line is the C string in the server's buffer: it ends at the first NUL received.
- Expected properties that do not hold, each with a lemma that shows it failing and the exact condition under which it
  holds:
  - A command acts on the name that was checked: fails for RTV and DEL (`OtherNameUsed`, `DeletesOtherName`), and for UPL
    beyond 24 characters (`LongNameUsed`); exactly when in `CheckedNameIsUsed`.
  - A command touches only its own user's files: fails for names with a slash (`TargetOfOther`, `TargetOutAndIn`,
    `DeletesOther`); holds for simple names (`OnlyOwnFiles`), and what is touched in general is in `ContentAfter`.
  - RTV gives only files that a user has stored: fails for paths that lead out (`TargetOutside`, `OutsideName`,
    `OutsideFileGiven`); exactly what is given otherwise is in `FileGivenExactly`.
  - No user has more than fifteen files: fails for names with a slash (`QuotaBroken`); exactly when in `QuotaKept`.
  - `integerToChar` leaves a buffer that reads as the number: fails over a longer number (`IntegerToCharKeepsDigits`);
    exactly when in `IntegerToCharValue`.
  - `receiveMessageUntilChar` counts the bytes it received: fails without a delimiter (`CountsOneTooMany`); exactly when
    in `Socket.ReceiveUntilChar`.
  - The VC stored is the VC sent to the device, if requests overlap: fails with one other grant in between
    (`GrantMovesVc`); exactly when in `VcStays`.
  - One session for each user: fails after a confirmed X (`TwoSessions`); holds until then (`OnlySession`, and under
    every schedule `Interleaving.SessionsHold`).
  - A user without a session can log in: fails after a lost session (`LossStrands`); exactly when in `StrandedExactly`,
    and until when in `StrandedLasts`.
  - A device that has been registered learns of it: fails when the reply is lost, since the REG sent again is refused; it
    holds exactly when the reply to the first one is heard (`RetriedReg`).

## Model

| member | source | states |
|---|---|---|
| Text.NextWord | libs/helper.c:146-172 | finds the first maximal run of printable characters at or after a position, with its exact length, or says there is none |
| Text.GetWords | libs/helper.c:174-182 | terminates on every string and counts exactly its maximal runs of printable characters |
| Text.WordsOfLine | libs/helper.c:174-182 | counting inverts joining: a printed line of printable words counts as many words as were printed |
| Text.ScanOfLine | AS.c:385 | scanning a printed line with `%s` gives back exactly the words printed |
| Text.DispatchOfLine | AS.c:385-435 | count and fields of a printed request are those printed, so arity dispatch sees the request that was sent |
| Text.CheckUid | libs/helper.c:112-127 | accepts exactly the five-digit uids |
| Text.CheckPass | libs/helper.c:129-144 | accepts exactly the eight-character alphanumeric passwords, although the bound inside the loop guards only lower-case letters |
| Decimal.IncrNumber | AS.c:125-135 | the carry loop computes `Incr` in place, on an array of any length |
| Decimal.IncrCounts | AS.c:125-135 | on digits, `Incr` is (value + 1) modulo ten to the length, and all cells stay digits |
| Decimal.InitNumber | AS.c:117-123 | fills an array of any length with the number zero |
| Decimal.IntegerToChar | User.c:70-76 | the loop overwrites the low end of the buffer with the digits of n and leaves the rest |
| Decimal.IntegerToCharValue | User.c:70-76 | the value becomes old, less the value of its low d digits, plus n; it is n exactly when the digits kept are zero |
| Decimal.IntegerToCharKeepsDigits | User.c:70-76 | 5 written over 1234 reads as 1235 |
| Decimal.PlainFits | User.c:70-76 | a number below ten to the width has at most that many digits, so 0 to 9999 fit in a request number |
| Decimal.ScanOfDec | FS.c:466 | `%d`, which takes a sign too, reads back what `%d` printed, whatever non-digit follows |
| Decimal.ScanOfNegative | FS.c:466 | with a minus sign in front `%d` reads the negative number |
| Identifiers.StartCounters | AS.c:511-513 | the counters start at TID 0001 and VC 0000 |
| Identifiers.TidAdvances | AS.c:338-343 | from the TID of request n, one or two increments give the TID of request n + 1, in closed form |
| Identifiers.TidNeverZero | AS.c:341-343 | no TID issued is 0000 |
| Identifiers.Repeats | AS.c:328-343 | TIDs repeat exactly at distances divisible by 9999, VCs at 10000, the pair at 99990000 |
| Assoc.PutEnqueues | libs/helper.c:28-43 | `put` enqueues at its key and leaves the queues of other keys |
| Assoc.GetPeeks | libs/helper.c:45-53 | `get` is the front of the key's queue |
| Assoc.RemoveDequeues | libs/helper.c:63-88 | `removeElement` dequeues at its key and leaves the queues of other keys |
| Assoc.MapPut | libs/helper.c:28-43 | for a key not stored, `put` is a finite-map update and keeps keys distinct |
| Assoc.MapGet | libs/helper.c:45-53 | `get` is the lookup of the finite map |
| Assoc.MapRemove | libs/helper.c:63-88 | with distinct keys, `removeElement` is finite-map removal and keeps keys distinct |
| LinkedMap.Map.Put | libs/helper.c:28-43 | appends at the end of the chain, by way of the size test, keeping it acyclic with `size` its length |
| LinkedMap.Map.Get | libs/helper.c:45-53 | returns the value of the first matching element |
| LinkedMap.Map.RemoveElement | libs/helper.c:63-88 | unlinks exactly the first matching element, first or not, and keeps the chain and `size` in order |
| Protocol.PendReplaces | AS.c:310-339 | a validated REQ leaves exactly the new request in all three maps of the user |
| Protocol.MapsAreMaps | AS.c:310-339 | the user's maps never hold a key twice, so they agree with finite maps |
| Protocol.AutSettles | AS.c:435-451 | with maps in shape, AUT succeeds exactly for the pending RID and VC, finds the TID, and empties the pending maps |
| Protocol.VldKeepsTids | AS.c:211-241 | with maps in shape, the branch that drops the oldest TID never runs |
| Protocol.FirstHeardIs | AS.c:281-291 | what an exchange brings is what the first wait that brought anything heard, and nothing only if every wait was in vain |
| AuthServer.UsersList.GetUser | AS.c:43-55 | the list traversal finds the first user with the uid |
| AuthServer.UserNode.Confirm | AS.c:224-232 | on the user's linked maps: a confirmed X logs out, and another TID than the oldest drops the oldest |
| AuthServer.UserNode.Pend | AS.c:310-339 | on the user's linked maps: the oldest request and TID go, the new ones come in, and the maps stay apart |
| AuthServer.UserNode.Settle | AS.c:444-445 | on the user's linked maps: the request is removed from both maps of pending requests |
| AuthServer.UsersList.AddUser | AS.c:57-92 | links a new user at the end of the list unless the uid is known, and keeps list, links and `size` in order |
| AuthServer.AuthServer.Reg | AS.c:160-196 | REG in place refines `Protocol.Reg`, state and reply |
| AuthServer.AuthServer.Unr | AS.c:197-210 | UNR in place computes `Protocol.Unr`, whose outcome `UnrEntry` and `UnrExactly` give |
| AuthServer.AuthServer.Vld | AS.c:211-241 | VLD in place refines `Protocol.Vld` |
| AuthServer.AuthServer.DoUdp | AS.c:158-246 | the datagram dispatcher refines `Protocol.DoUdp` |
| AuthServer.AuthServer.AskDevice | AS.c:275-297 | sends at most six times and not again once something is heard; the answer is what the last wait brought, and all waits before it were in vain |
| AuthServer.AuthServer.SendValidationCode | AS.c:254-349 | refines `Protocol.SendValidationCode`: maps and both counters, or nothing at all |
| AuthServer.AuthServer.Log | AS.c:391-398 | LOG in place refines `Protocol.Log`, session variable included |
| AuthServer.AuthServer.Req | AS.c:399-434 | REQ in place refines `Protocol.Req`, with its order of error replies |
| AuthServer.AuthServer.Aut | AS.c:435-451 | AUT in place computes `Protocol.Aut`; on the wire it is `AuthHeard` |
| AuthServer.AuthServer.DoTcp | AS.c:385-458 | the session dispatcher refines `Protocol.DoTcp` |
| AuthServer.AuthServer.Hangup | AS.c:367-375 | the end of a session logs its user out |
| Device.Device.RegisterUser | PD.c:69-75 | a device takes over a user if and only if the reply that arrived is RRG OK |
| Device.Device.GetAsCommands | PD.c:152-186 | the reply is `Device.Answer` and what the user sees is `Device.Screen`, which `DeviceVouches` and `DeviceShows` pin down |
| Device.DeviceVouches | PD.c:165-181 | AS accepts a device's answer exactly when the device holds the user asked about and the line had four or five words |
| Device.VlcFields | AS.c:269-273 | the line to the device holds uid, VC, operation and file name, in this order |
| Device.AcceptsExactly | AS.c:293-308 | of all lines of printable words AS accepts exactly those of three words from RVC to OK |
| Device.DeviceShows | PD.c:165-178 | a device that agrees shows the VC, the operation and the file name of the line |
| Device.ShownFile | PD.c:166-173 | for U, R and D the screen reads: the VC, the operation in words, the file name |
| Device.ShownPlain | PD.c:174-178 | for X and L it reads: the VC and the operation in words |
| Runs.RegistrationHolds | AS.c:160-210 | in every run uids are distinct and valid, passwords valid, active users have different addresses, and exactly the inactive ones have none |
| Runs.RegistrationLasts | AS.c:57-92 | in every run a registered user stays registered, with the same password |
| Runs.ConsistentAlways | AS.c:310-343 | in every run the three maps of every user are exactly what the history of requests and replies says, and the counters are in closed form |
| Guarantees.CountersClosedForm | AS.c:328-343 | after k successful requests `newVC` is k mod 10000 and `newTID` is (k mod 9999) + 1 |
| Guarantees.IssuedPairsRepeat | AS.c:328-343 | two successful requests got the same TID, or the same pair, exactly when the distance between them is a multiple of 9999, or of 99990000 |
| Guarantees.VldExact | AS.c:211-241 | VLD answers with the request behind the user's latest successful REQ if the TID is its, with E otherwise, and no map changes |
| Guarantees.VldConfirmsOnlyLatest | AS.c:211-241 | VLD confirms a TID if and only if it is that of the user's latest successful REQ |
| Guarantees.VldStable | FS.c:186-192 | a repeated VLD gets the same answer whatever else happens before the user's next successful REQ |
| Guarantees.AutExact | AS.c:435-451 | AUT gives the TID for exactly the pending RID and VC, 0000 otherwise, and never a missing TID |
| Guarantees.AutOnce | AS.c:435-451 | after one answered AUT, every AUT for the user gives 0000 until the next successful REQ |
| Guarantees.AutThenVld | AS.c:435-451 | the TID from AUT is the one VLD confirms, with the same request, until the next successful REQ |
| Guarantees.SentVcIsAccepted | AS.c:270-297 | AUT gives a TID if and only if the RID is the pending one and the VC is the third word of the line that had been sent to the user's device |
| Guarantees.SentLine | AS.c:269-273 | the line sent for a successful REQ holds the uid, the VC that AUT will ask for, the operation and the file name |
| Guarantees.CodeIsShown | PD.c:165-178 | the device that agreed to a request showed its user the VC of that request, with its operation and file name |
| Guarantees.VcStays | AS.c:270-328 | the VC read for the line to the device and the VC read after the answer are the same if and only if a multiple of 10000 requests succeeded in between |
| Guarantees.GrantMovesVc | AS.c:328-343 | a successful request always changes the VC |
| Guarantees.RefusedReqChangesNothing | AS.c:399-434 | a REQ not answered RRQ OK changes nothing; one answered so came from the user's own logged-in session and an accepted answer |
| Guarantees.ReqGrantedExactly | AS.c:399-434 | in every run a REQ gets RRQ OK if and only if its letter is L or X without a name or R, U or D with one, it comes over the user's own logged-in session, and the line sent to the user's active address has four or five words and reaches a device holding that user |
| Guarantees.ExchangeIsHeard | AS.c:281-291 | if each of the six waits brings the device's answer or nothing, the exchange brings that answer unless every wait was in vain |
| Guarantees.SessionsHold | AS.c:391-398 | in every run `userID` is the user of the session's latest successful LOG, registered, with the password presented |
| Guarantees.DevicesHold | PD.c:69-75 | in every run a device holds the user of its latest successful registration, which presented the user's password |
| Guarantees.GrantHasTwoFactors | AS.c:254-349 | behind every successful REQ stand a session logged in with the user's password and an answer RVC OK from the device that registered the user with it |
| Guarantees.ProtocolCompletes | AS.c:160-458 | a user who registers, logs in and asks gets any well-formed request approved, if the line to the device has four or five words |
| Sessions.LoggedExactly | AS.c:224-226 | in every run a user is logged in if and only if a LOG of the user succeeded and since then no X was confirmed for the user and no session of the user closed |
| Sessions.LoginExactly | AS.c:391-398 | in every run a LOG succeeds if and only if the user is registered, the password is right and the user has no such open login |
| Sessions.SessionLeft | AS.c:360-375 | the session of the open login still has the user if and only if it has not failed and has not logged in another user since |
| Sessions.OnlySession | AS.c:391-398 | until an X is confirmed, a session of a user is that of the open login |
| Sessions.StrandedExactly | AS.c:360-398 | until an X is confirmed, a user is logged in without a session if and only if the session of the open login has failed or has logged in another user |
| Sessions.StrandedLasts | AS.c:391-398 | such a user stays so, every LOG refused, until an X is confirmed |
| Sessions.LossStrands | AS.c:360-375 | after a login whose session failed the next LOG is refused |
| Sessions.TwoSessions | AS.c:224-226 | after a confirmed X two sessions can have one user |
| Registrations.RegEntry | AS.c:160-196 | REG is answered RRG OK if and only if the address is free, uid and password are proper, and the user is new, or inactive with that password; then that user is active there, otherwise nothing changes |
| Registrations.UnrEntry | AS.c:197-210 | UNR is answered RUN OK if and only if the user is known with that password, RUN NOK if and only if unknown; only RUN OK changes anything, and switches off just that user |
| Registrations.EntryExactly | AS.c:160-210 | in every run a user is known with the password of the first RRG OK, and active if and only if the latest of the user's RRG OK and RUN OK is an RRG OK, at its address |
| Registrations.TakenExactly | AS.c:163-172 | in every run an address is taken if and only if some user is active there by that history |
| Replies.RegExactly | AS.c:160-196 | in every run the reply to REG follows from the history of requests and replies |
| Replies.UnrExactly | AS.c:197-210 | in every run UNR gets RUN OK, RUN NOK or an empty reply as the first password registered for the user says, and changes nothing unless it gets RUN OK |
| Replies.LogExactly | AS.c:391-398 | in every run LOG gets RLO OK if and only if the password is the registered one and no login of the user is open |
| Replies.ReqExactly | AS.c:399-434 | in every run each reply to REQ, each error included, is given exactly under its condition on the history |
| Replies.RepliesExactly | AS.c:158-458 | in every run the reply to every event, AUT and VLD with their TIDs included, is the one that the history calls for |
| Client.RegistrationPrinted | AS.c:160-210 | the replies to REG, UNR and LOG are printed as the words that they stand for |
| Client.RequestPrinted | AS.c:399-434 | so are the replies to REQ |
| Client.TidPrinted | AS.c:443 | so is the reply to AUT, with its TID |
| Client.Terminal.Login | User.c:88-99 | the printed line is LOG with uid and password, which the client keeps |
| Client.Terminal.LoginAnswered | User.c:114-123 | the client forgets uid and password unless the reply is RLO OK |
| Client.Terminal.Request | User.c:127-151 | the request number is written over the one before, and the line is REQ with uid, number, operation, and a file name just for R, U and D |
| Client.Terminal.Authenticate | User.c:186-187 | the line is AUT with uid, the number of the latest request and the code typed in |
| Client.Terminal.AuthAnswered | User.c:210-220 | the client keeps the second word of the reply as its TID and counts as authenticated if and only if that is a number but zero |
| Client.LoginHeard | User.c:88-123 | in every run a client that sends LOG reads RLO OK if and only if the password is right and the user has no open login |
| Client.RequestHeard | User.c:127-171 | in every run a client reads RRQ OK if and only if its request has all that it needs: registration, open login, own session, form, and the device |
| Client.AuthHeard | User.c:175-221 | in every run a client that sends AUT gets the TID of the pending request, which is no zero, if RID and VC are its; otherwise it gets a zero and knows it |
| Client.RegHeard | PD.c:37-75 | in every run a device that sends REG reads RRG OK if and only if the registration succeeds |
| Client.UnrHeard | PD.c:78-118 | in every run a device that sends UNR reads RUN OK if and only if the user is known with that password |
| Client.RetriedReg | PD.c:52-58 | of REG sent again and again only the first can be answered RRG OK, and what it did stays done |
| Client.RetriedUnr | PD.c:95-101 | UNR sent again is answered alike every time |
| FileStore.TargetWithoutSlash | FS.c:376 | a name without a slash leads to the user's own file of that name, or to no file |
| FileStore.TargetOfOther | FS.c:376 | a name with slashes may lead to any file of another user |
| FileStore.TargetOutside | FS.c:376 | a path that goes up twice and not back in leads to no file of any user |
| FileStore.TargetOutAndIn | FS.c:376 | a path that goes up twice and back in may lead to any file of another user |
| FileStore.ContentAfter | FS.c:452-609 | after each command, every file of every user: only a successful command changes any, and only the one its name leads to |
| FileStore.OnlyOwnFiles | FS.c:452-609 | a command with a simple name touches only its own user's file of that name; REM only its own user's files |
| FileStore.DeletesOther | FS.c:552-571 | a DEL with slashes in its name takes away another user's file |
| FileStore.UploadSucceeds | FS.c:492-502 | an upload succeeds exactly when the user's own directory has room and the name is free where it leads |
| FileStore.UploadStatus | FS.c:492-529 | FULL exactly if the user's own directory holds fifteen files, DUP exactly if there is room and the name is taken, OK otherwise |
| FileStore.RetrieveStatus | FS.c:339-450 | NOK exactly without a directory, EOF exactly if the file is not there, OK otherwise, and nothing changes |
| FileStore.DeleteStatus | FS.c:531-574 | likewise for a deletion, after which the file is not there |
| FileStore.RemoveStatus | FS.c:576-609 | a removal succeeds exactly if there is a directory; afterwards that directory is gone and every other is as it was |
| FileStore.UploadIsFound | FS.c:473-524 | what has been uploaded is found under the same name |
| FileStore.QuotaKept | FS.c:479-496 | a command keeps every user within fifteen files if and only if it does not put a file into another user's full directory |
| FileStore.QuotaAlways | FS.c:479-496 | no sequence of commands with simple names gives a user more than fifteen files |
| FileStore.QuotaBroken | FS.c:479-496 | an upload with slashes in its name adds a sixteenth |
| FileStore.FilesLast | FS.c:498-502 | a stored file stays as it is until a DEL that leads to it or its owner's REM |
| FileCommands.CheckedNameIsUsed | FS.c:229-245 | for all arguments, RTV, UPL and DEL act on the name that was checked if and only if the arguments hold one name: for RTV no space before the newline, for DEL none at all, for UPL at most 24 characters |
| FileCommands.DeleteLineUsesChecked | FS.c:531-550 | on a line with its newline, DEL acts on the checked name if and only if no space and at most 24 characters stand before it |
| FileCommands.OtherNameUsed | FS.c:360-374 | arguments checked as `a` make RTV and DEL act on `a b` |
| FileCommands.LongNameUsed | FS.c:466 | an upload with a name of more than 24 characters stores under the whole name, of which 24 characters were checked |
| FileCommands.PrintedNameIsUsed | FS.c:229-245 | for one-token names shorter than 24, as clients print them, every command acts on the name that was checked |
| FileAccess.ValidatedMeansAsked | FS.c:211-247 | when FS validates a command, the user's latest successful REQ at the time of AS's reply had that TID, that letter and the name checked |
| FileAccess.ValidatedExactly | FS.c:211-247 | on the reply to FS's own VLD, FS validates a command if and only if the user's latest successful REQ had that TID, letter and name |
| FileAccess.ValidatedMeansAuthorised | FS.c:677-692 | and both factors stood behind that REQ |
| FileAccess.ValidatedDeleteHasArgs | FS.c:536-542 | a validated DEL has arguments, so that they have a last character |
| FileAccess.ClearedExactly | FS.c:677-692 | on the reply to FS's own VLD, FS carries out for every letter exactly the command of the line if the user's latest successful REQ asked for it, and nothing otherwise |
| FileAccess.OwnDatagram | FS.c:177 | the line that FS prints for the validation is read by AS as VLD for the UID and the TID of the command |
| FileAccess.ServedExactly | FS.c:656-711 | the store afterwards is that after the command asked for, if its path does not stray, and unchanged if there is none |
| FileAccess.NamedFileIsUsed | FS.c:229-245 | the REQ named the file that the command acts on if and only if the arguments hold one name |
| FileAccess.FilesChangeOnlyOnRequest | FS.c:677-692 | no file of any user changes unless it is one the line's name leads to (with REM, one of the line's user) and the latest successful REQ of the line's user asked for that operation; that REQ named it if and only if the arguments hold one name |
| FileAccess.OnlyNamedFilesChange | FS.c:677-692 | with one simple name in the line, no file changes but the user's own, and for UPL and DEL the one that the user's REQ named |
| FileAccess.DeletesOtherName | FS.c:536-571 | after a REQ for deleting `a` the line for `a b` deletes the file `a b` |
| FileAccess.FileGivenExactly | FS.c:339-450 | a reply carries a file only if the user's latest successful REQ asked for a retrieval; if the name does not stray, exactly when the file is there, and then that file |
| FileAccess.FileGivenOnlyOnRequest | FS.c:339-450 | whatever FS heard from AS, a reply carries a file only if the REQ asked for a retrieval; the REQ named that file if and only if the arguments hold one name |
| FileAccess.OutsideFileGiven | FS.c:376-443 | when a name strays, nothing keeps the reply from carrying a file that no user has stored |
| FileAccess.OutsideName | FS.c:360-376 | any file name behind two steps up strays, and is one name in the arguments |
| FileAccess.ListingGivenExactly | FS.c:280-337 | a reply lists a directory if and only if the user's latest successful REQ asked for that and there is one, and then each of its files once, with its size |
| FileRuns.ConnectionChanges | FS.c:656-711 | in every run, a connection that changes a file was approved by both factors; it uploaded the bytes now stored, or was a DEL or REM |
| FileRuns.EveryFileWasUploaded | FS.c:452-529 | in every run of AS, devices and FS, every stored file holds the bytes of an upload approved by both factors, whose name led there |
| FileRuns.EveryFileWasNamed | FS.c:452-529 | with one simple name in each line, every stored file is its owner's upload under the name in the owner's REQ |
| FileRuns.QuotaHolds | FS.c:479-496 | with simple names no user has more than fifteen files in any run |
| FileRuns.RequestCanBeServed | FS.c:656-711 | whatever has happened, a client whose line says what the user's latest successful REQ asked for can be served, with the effect of the command if it does not stray |
| FileServing.FileServer.Upload | FS.c:452-529 | on a path that does not stray, stores exactly the bytes sent, none for a negative size, or refuses a full directory or a taken name without reading them |
| FileServing.FileServer.Retrieve | FS.c:339-450 | on a path that does not stray, the reply carries size and bytes of the stored file; every index of the reply buffer is within its allocation |
| FileServing.FileServer.List | FS.c:280-337 | prints every file of the directory once, with its size, in some order |
| FileServing.FileServer.Delete | FS.c:531-574 | on a path that does not stray, removes exactly the named file; unterminated arguments get an extra error reply and are used all the same |
| FileServing.FileServer.Remove | FS.c:576-609 | removes the user's directory and no other, and is answered OK if and only if there was one |
| FileServing.FileServer.Handle | FS.c:656-711 | parses, validates and dispatches, with the store as `Served` and the reply as `Handled` says: ERR, INV, or the reply of the command, listing and file included; open on paths that stray |
| FileServing.Answer | FS.c:120-153 | puts a reply line together within its buffer |
| FileServing.AskServer | FS.c:177-201 | prints the validation request, sends it at most six times and not again once something is heard, and takes the first thing heard |
| FileServing.MalformedUpload | FS.c:466-471 | an upload without a name and a size is answered RUP ERR |
| FileServing.UnterminatedDelete | FS.c:536-550 | arguments of DEL without a newline are answered RDL ERR and then as if their last character were one |
| FileServing.UnknownCommand | FS.c:682-711 | a line that starts with no command is answered ERR ERR without a UID or a TID and ERR INV with both |
| Locks.LocksAlwaysInOrder | AS.c:43-92 | under every schedule the list lock and the mutexes are held exactly by the threads at the places that hold them |
| Locks.MutualExclusion | AS.c:48 | under every schedule two threads never work on one user |
| Locks.WaitsEmptyHanded | AS.c:43-92 | under every schedule a thread that waits for the list lock, or has finished, holds no lock |
| Locks.NobodyStuck | AS.c:43-92 | while a request is unfinished some thread can move, with readers or with writers first |
| Locks.WorkEnds | AS.c:281-291 | without new requests no schedule is longer than the sum of the threads' ranks, whatever the devices answer |
| Locks.AllCanFinish | AS.c:456-458 | from every state some schedule finishes all requests |
| Locks.NoDeadlock | AS.c:43-92 | after every schedule all requests can still be finished, and then every lock is free |
| Locks.StuckMeansDone | AS.c:43-92 | after every schedule, if no thread can move then all requests are finished and every lock is free |
| Locks.RestFreesLocks | AS.c:239-241 | when all requests are finished every lock is free |
| Interleaving.EveryRequestEnds | AS.c:281-291 | from every reachable state busy threads take at most eighteen steps each, the six sends to a device included |
| Interleaving.DataAlwaysInOrder | AS.c:160-241 | under every schedule the registration invariant, the shape of the maps and the sessions are in order |
| Interleaving.PeopleLast | AS.c:57-92 | no schedule loses a user or changes a password |
| Interleaving.AutFindsTid | AS.c:440-443 | under every schedule an AUT that finds its RID finds a TID under it |
| Interleaving.SessionsHold | AS.c:391-398 | until an X is confirmed for its user a session is the only one of that user, who is logged in; always the user is registered with the password presented |
| Interleaving.SerialUdp | AS.c:160-241 | the work a datagram does under the mutex is the `Protocol` step |
| Interleaving.SerialTcp | AS.c:387-458 | the work a session does under the mutex is the `Protocol` step, and a device is consulted exactly when the outcome depends on it |
| Serial.MessageAlone | AS.c:360-458 | a message handled while the other threads rest, through every lock operation and all six sends to the device, has the effect on the users and the session that `Protocol.DoTcp` gives it with the first thing heard |
| Serial.DatagramAlone | AS.c:158-246 | so has a datagram, the two searches and the append of a new user included |
| Serial.EndAlone | AS.c:367-375 | so has the end of a session |
| Serial.AskAlone | AS.c:275-345 | the exchange with the device alone ends with the request recorded if and only if the first thing heard is accepted |
| Stream.Socket.ReceiveMessage | libs/tcp.c:82-97 | gets the next bytes in order whatever pieces `read` delivers, fewer only if the peer has closed |
| Stream.Socket.ReceiveUntilChar | libs/helper.c:294-331 | gets the bytes through the first delimiter and leaves a NUL behind them; the count is one too high exactly when the peer closes after some bytes but before the delimiter |
| Stream.CountsOneTooMany | libs/helper.c:313-330 | one byte without a delimiter is counted as two |
| Stream.ReceiveMessages | libs/helper.c:294-331 | a sequence of delimited messages is received as sent, whatever the pieces |
| Transfer.ReceiveFile | FS.c:507-524 | the batch loop gets exactly the announced number of bytes, in order, and none for a negative number |
| Transfer.ReadCommand | FS.c:621-639 | from any stream, an upload is read up to its size and any other command up to its newline, nothing beyond is consumed, and the line is the C string that results, complete or not |
| Transfer.LineRead | FS.c:634-639 | a printed line is read as it is |
| Transfer.UploadRead | FS.c:624-632 | of a printed upload the header is read and gets a newline, and the data is left |
| Transfer.ReceiveRetrieved | User.c:245-299 | the client gets from FS's reply exactly the file's bytes, and no file from a refusal |
| Transfer.ParsePrinted | FS.c:656-675 | a printed command parses into the UID, TID and arguments printed |
| RoundTrip.UploadThenRetrieve | User.c:308-364 | with AS's printed confirmations, what a client uploads is what FS stores and what a retrieval gives back, for every content and every splitting of the bytes |
| RoundTrip.ListDirectory | User.c:464-506 | from the printed request through AS's answer to a reply that is split anywhere, listing gives as many names as there are files, each once, with its size, and none without a directory or an approval |
| FileClient.UploadFile | User.c:308-386 | from the printed upload through AS's verdict to the status read: OK exactly if approved, with room and the name free, and then exactly the bytes sent are stored; INV, FULL and DUP exactly in their cases; no other file changes |
| FileClient.RetrieveFile | User.c:223-299 | a retrieval gives the client the stored bytes exactly if it was approved and the file is there, and changes nothing |
| FileClient.DeleteFile | User.c:389-444 | a deletion takes away exactly the named file if it was approved, and the client reads INV, NOK, EOF or OK exactly in its case |
| FileClient.RemoveAll | User.c:525-575 | a removal takes away exactly the user's directory if it was approved, and the client reads INV, NOK or OK exactly in its case |
| Listing.CountOfReply | User.c:473-482 | the count scanned is the number of files printed, and zero for an empty directory |
| Listing.ParseReply | User.c:484-506 | the token loop recovers names and sizes in order, with every array index in range and no size missing, and nothing from a failure or a refusal |

## Left out

- Sockets, binding, address lookup, `select`, closing, and failing reads and writes: a connection is its undelivered bytes, a datagram exchange is what was heard.
- `sendMessageTCP`'s restart after a short write (libs/tcp.c:71): writes are taken to be whole.
- Argument parsing, verbose printing, keyboard loops and `main` of all programs.
- Fixed capacities of C arrays, except where a method takes an array of stated length; overlong fields would overrun them in C.
- `validate` with a name of 24 characters or more, which leaves its buffer unterminated (FS.c:234): the model compares the first 24 characters.
- Memory management: `free` and the lifetime of list elements.
- `removeUser` (AS.c:94-115): never called.
- `getWordAt`, `print`, `canBeACommand`, `getRandomNumber`: unused, or with nothing to state.
- The real file system beyond one directory for each user; FS commands are handled one at a time.
- FileStore.ContentAfter: says nothing of a command that strays, since what the operating system then does is not modelled; `FilesLast`, `QuotaKept`, `FilesChangeOnlyOnRequest` and `FileRuns.EveryFileWasUploaded` assume that none does.
- FileServing.FileServer.Upload: says nothing of an upload that strays, which the code answers by what it finds there.
- FileServing.FileServer.Retrieve: of a retrieval that strays it promises only the first word of the reply.
- FileServing.FileServer.Handle: has the limits of the commands it runs.
- FileAccess.ServedExactly: leaves the store open when an upload or a deletion strays.
- FileAccess.FileGivenExactly: leaves open what a retrieval that strays is answered.
- FileRuns.RequestCanBeServed: promises the effect only of a command that does not stray.
- FileServing.FileServer.Delete: says nothing of a deletion that strays; asks for arguments, since on none the code reads before its array; `ValidatedDeleteHasArgs` shows that they are there.
- Transfer.ReceiveRetrieved: covers the replies that FS sends, not arbitrary ones.
- Guarantees.VcStays: takes each increment of the counter as one step; overlapping increments are not modelled.
- Numbers beyond the range of `int` in what `%d` reads.
- Copies of a datagram that is sent again are events of their own in a history; `Client.RetriedReg` and `RetriedUnr` say what they do.
- Listing.ParseReply: the 128-byte buffer of the client's listing is not modelled.
