# A model of Telepad

Telepad turns a phone into a trackpad and keyboard for a computer. The phone pairs with the server, opens an encrypted session over UDP and sends input messages; the server remembers what each phone holds down, hands the messages to the operating system one by one, and updates itself. This project models the parts of it that keep state over a run or turn one representation into another, and proves what they are for.

- **Live connections.** `Replay` and `Delivery` (the replay window and a session over a hostile network), `Holds` and `Sessions` (what is held, and by whom), `Pairings` and `PairingRuns` (who gets in), `InputBackend` (what is down on the computer, and the input thread), `Server` and `ServerRuns` (the whole machine, step by step and over every run), `Histories` (its sessions and what is down, told from the events), `Races` (the same with the steps taken apart).
- **Typing.** `Keymap`, `LinuxInput`, `Typing` and `KeysDown` (text and keys as evdev events, against a simulated keyboard with any layout), `KernelKeys` (the kernel's own list of keys), `MacText` (text as keys and pieces of UTF-16).
- **Bytes and quoting.** `Messages`, `Utf8`, `Protocol` and `Codec` (encoding and decoding), `WireFormat` (what stands where in each packet), `Autostart`, `WindowsCommandLine` and `DesktopEntry` (the two ways to start at login, each with a reader by the rules that the platform documents).
- **Updating.** `Updater` (looking and installing on any number of threads), `Texts`, `Versions` and `VersionOrder` (version numbers), `Marks`, `Feed` and `FeedOfTags` (the list of releases).
- **Files.** `Identity` (the key file, whichever process creates it).

Where the program updates something in place, the model is a class or a method with a loop, tied by its contract to a function or relation on values; what the program promises is proved of those for every input, every run or every reachable state. A machine with interleaved steps (`Server`, `Races`, `Updater`, `Identity`) is a state and a step, and its theorems are about all finite runs.

What is assumed: encryption is ideal (a packet opens only under the key and nonce it was sealed with, and only the holder of the key seals); pairing tokens are fresh where `FreshTokens` says so; the backend applies each message it is given; a lock section is one step and so is each sending of a message and each operation on the file system; times are numbers and need not even rise. In `Server` a lock section and the sending that follows are one step; `Races` proves exactly when that is harmless and shows the two runs in which it is not. Whether the cipher refuses to seal is a parameter, so nothing is said of a nonce it reserves.

## Where the code does less than it says

- `crates/telepad-server/src/server.rs:291-292` says that stopping releases anything clients left held down. It does not in two ways. A press whose holder is forgotten between its lock section and its sending is left down (`Races.ForgottenInTheGap`, `Races.ShutdownLeavesStrays`). And a release that another task took under the lock but has not sent when the input thread halts is dropped (`Races.PromiseBroken`). `Races.BecomesLost` and `Races.DownAfterTheHalt` say that these are the only ways.
- `crates/telepad-server/src/server.rs:206` says that forgetting every device ends their sessions. When the empty list cannot be saved it does not, and forgotten devices stay connected (`ServerRuns.ForgettingKeepsSafe`).
- The record of held keys keeps one set of modifiers for each key (`crates/telepad-server/src/sessions.rs:42-46`). A modifier stays down that nobody holds when a release has fewer modifiers than the press (`ServerRuns.StuckControl`), and when a held key is pressed again with fewer, although its release then has all that is recorded (`ServerRuns.StuckAfterPressingAgain`). `ServerRuns.MessageKeepsCodes` gives the exact condition.
- `crates/telepad-crypto/src/lib.rs:301-303` says that exactly one writer wins. Where hard links are refused, two can (`Identity.WithoutLinksTwoIdentities`).
- `crates/telepad-update/src/release.rs:117-118` says that the notes are cut out before looking. The mark that makes a text a feed is looked for before that (`Feed.NotesDoNotMatter`).
- `crates/telepad-update/src/updater.rs:271-273` clears the download folder without asking whether an installation is using it (`Updater.FolderStaysItsOwn`), and a job whose thread dies leaves the updater busy for good (`Updater.WedgedOnlyByDeath`).
- `crates/telepad-platform/src/lib.rs:35-37` says that entering text by code points does not depend on the keyboard layout. It does as far as the keys it types with go: U, Space and the hexadecimal digits, and whitespace (`Typing.EntryExactly`, `Typing.UnicodeIgnoresLayout`).
- `crates/telepad-platform/src/autostart/windows.rs:20` says that Windows reads back exactly what was given, which fails for a zero character (`WindowsCommandLine.WindowsRoundTrip`).
- `crates/telepad-platform/src/autostart/xdg.rs:48-53` names the escaping layers of the Desktop Entry Specification. A word with a control character, or a program with an equals sign, cannot be written by them at all, and a line break even ends the line early (`DesktopEntry.DesktopRoundTrip`).

## Model

| member | source | states |
|---|---|---|
| `Replay.ReplayWindow.Check` | crates/telepad-crypto/src/lib.rs:80-93 | answers exactly as the set of all accepted nonces would: the nonce is new and fewer than 128 behind every accepted one |
| `Replay.ReplayWindow.Update` | crates/telepad-crypto/src/lib.rs:95-116 | adds the nonce to that set and keeps the bitmap its faithful image |
| `Replay.AdvanceTracks` | crates/telepad-crypto/src/lib.rs:102-109 | a nonce ahead within the window: the bitmap shifted left by the distance, lowest bit set, has bit i exactly when the i-th nonce down is accepted |
| `Replay.LeapTracks` | crates/telepad-crypto/src/lib.rs:102-109 | a nonce 128 or more ahead: nothing of the old bitmap is needed |
| `Replay.LateTracks` | crates/telepad-crypto/src/lib.rs:110-115 | a late nonce sets its own bit and no other |
| `Replay.TooOldTracks` | crates/telepad-crypto/src/lib.rs:110-115 | a nonce below the window has no place in the bitmap, which stays right for the larger set |
| `Delivery.NoiseTransport.Encrypt` | crates/telepad-crypto/src/lib.rs:137-143 | seals under the counter and advances it, wrapping at 2^64, whether or not the cipher then refuses |
| `Delivery.NoiseTransport.Decrypt` | crates/telepad-crypto/src/lib.rs:147-156 | replay, forgery or plaintext, decided by the history; a packet that does not open changes nothing |
| `Delivery.AtMostOnce` | crates/telepad-crypto/src/lib.rs:137-156 | over any network that loses, repeats, reorders and forges, only sent plaintexts come out, each under the nonce it was sent with, and no nonce twice |
| `Delivery.DeliveredExactlyWhenFresh` | crates/telepad-crypto/src/lib.rs:80-93 | in every run a genuine packet is delivered if and only if its nonce is new and fewer than 128 behind every nonce delivered |
| `Delivery.CounterCountsCalls` | crates/telepad-crypto/src/lib.rs:137-143 | in every run the counter is the number of calls to encrypt, modulo 2^64 |
| `Delivery.NoncesRepeatAfterU64` | crates/telepad-crypto/src/lib.rs:137-143 | two calls get the same nonce if and only if a multiple of 2^64 calls lies between them |
| `Delivery.NoncesRise` | crates/telepad-crypto/src/lib.rs:137-143 | within 2^64 calls the nonces of what was sealed strictly rise |
| `Delivery.EachMessageAtMostOnce` | crates/telepad-crypto/src/lib.rs:137-156 | within 2^64 calls each sealed message has a nonce of its own and is delivered at most once |
| `Delivery.SlightReorderingLosesNothing` | crates/telepad-crypto/src/lib.rs:72-116 | genuine packets under distinct nonces, none overtaken by 128 or more places, are all delivered, in order of arrival |
| `Holds.HeldInputs.Observe` | crates/telepad-server/src/sessions.rs:37-52 | the record of held buttons and keys follows each press and release; a repeated press keeps the newer modifiers |
| `Holds.KeyHeldByLastPress` | crates/telepad-server/src/sessions.rs:37-52 | after any messages a key is held, with these modifiers, if and only if the last message about it is a press with them |
| `Holds.ButtonHeldByLastPress` | crates/telepad-server/src/sessions.rs:37-52 | and a button if and only if the last message about it presses it |
| `Holds.KeysInPressOrder` | crates/telepad-server/src/sessions.rs:23-52 | the list of held keys is always in the order in which they came to be held |
| `Holds.HeldInputs.IsEmpty` | crates/telepad-server/src/sessions.rs:55-57 | true exactly when nothing is held |
| `Holds.HeldInputs.TakeReleaseMessages` | crates/telepad-server/src/sessions.rs:61-84 | hands over one release for each held key (newest first, with the modifiers of its press) and button, and no other, and forgets them |
| `Holds.ReleasedNewestFirst` | crates/telepad-server/src/sessions.rs:59-68 | so the releases of the keys come out newest first |
| `Sessions.SessionTable.Insert` | crates/telepad-server/src/sessions.rs:142-159 | a session at the same address is replaced, a full table evicts one with the least time of last contact, and the releases are exactly those of what was dropped |
| `Sessions.SessionTable.Oldest` | crates/telepad-server/src/sessions.rs:147-154 | the eviction picks a session that no other one was quiet for longer than |
| `Sessions.SessionTable.ExpireIdle` | crates/telepad-server/src/sessions.rs:163-176 | drops exactly the sessions silent for longer than the limit and returns exactly their releases |
| `Sessions.SessionTable.ReleaseStaleHolds` | crates/telepad-server/src/sessions.rs:181-191 | empties the record of exactly the silent sessions, keeps every session, and returns exactly their releases |
| `Sessions.SessionTable.ReleaseAll` | crates/telepad-server/src/sessions.rs:200-205 | every session holds nothing afterwards and the releases are exactly those of everything held |
| `Sessions.SessionTable.Clear` | crates/telepad-server/src/sessions.rs:193-198 | the same, and no session is left |
| `Sessions.Session.Open` | crates/telepad-server/src/server.rs:491-502 | only an authentic packet counts as a sign of life |
| `Histories.SeenAtLatestContact` | crates/telepad-server/src/server.rs:491-503 | in every run each session was last heard from at its latest handshake or packet that opened |
| `Histories.SessionOfLatestAdmission` | crates/telepad-server/src/server.rs:416-438 | in every run each session has the device and key of the latest handshake let in at its address, and has accepted exactly the nonces opened there since |
| `Histories.WhatEndsASession` | crates/telepad-server/src/server.rs:336-373 | a session ends only by a saved forgetting, by too long a silence, or to make room in a full table when none has been silent for longer; the first two always end it |
| `Histories.KeptExactlyWhileHeard` | crates/telepad-server/src/server.rs:348-373 | a housekeeping pass keeps a session if and only if its latest sign of life is no further back than the one timeout, and leaves it as it was if and only if no further back than the other |
| `Histories.HeldByLatestPress` | crates/telepad-server/src/server.rs:504-513 | in every run a session holds a key, with these modifiers, or a button, if and only if this press is the last message about it since the handshake and since the session was last emptied |
| `Histories.DownByLatestPress` | crates/telepad-server/src/server.rs:485-554 | in every run a key or button is down if and only if the latest event to move it (a message about it from anybody, or somebody who holds it letting go) is a message that presses it |
| `Pairings.SecretsEqual` | crates/telepad-crypto/src/lib.rs:173-182 | true exactly when the two secrets are the same |
| `Pairings.Pairing.constructor` | crates/telepad-server/src/pairing.rs:71-89 | the state each pairing mode starts in |
| `Pairings.Pairing.AdmitWithToken` | crates/telepad-server/src/pairing.rs:157-179 | known, newly paired or rejected, and the state after: a new device is remembered, shuts the window and uses up the invitation it came by |
| `Pairings.Pairing.Accepts` | crates/telepad-server/src/pairing.rs:138-143 | a token counts exactly when it is the current one before its time is up |
| `Pairings.Pairing.Invite` | crates/telepad-server/src/pairing.rs:116-124 | a new invitation replaces the one before it |
| `Pairings.Pairing.CancelInvitation` | crates/telepad-server/src/pairing.rs:133-136 | the invitation is withdrawn and nothing else changes |
| `Pairings.Pairing.ForgetAll` | crates/telepad-server/src/pairing.rs:189-192 | nobody is trusted and no invitation is out |
| `PairingRuns.GrantsConserved` | crates/telepad-server/src/pairing.rs:71-192 | outside accept-any, in every run the devices newly paired plus the grants still out never exceed the windows opened plus invitations made plus what was out at the start |
| `PairingRuns.NoMorePairedThanGranted` | crates/telepad-server/src/pairing.rs:71-192 | the same from each pairing mode, with the window that mode opens |
| `PairingRuns.TrustedExactly` | crates/telepad-server/src/pairing.rs:157-192 | a device is trusted if and only if it was at the start and nobody was forgotten, or it was newly paired and nobody was forgotten since |
| `PairingRuns.WindowExactly` | crates/telepad-server/src/pairing.rs:91-104 | the window is open until a time if and only if it was opened until then and neither opened, closed nor used since |
| `PairingRuns.InvitationExactly` | crates/telepad-server/src/pairing.rs:116-143 | the same of the invitation |
| `PairingRuns.AdmittedExactly` | crates/telepad-server/src/pairing.rs:157-179 | a device gets in if and only if all do, or its history, an unexpired window or an unexpired invitation lets it |
| `PairingRuns.AdmittedAtFirst` | crates/telepad-server/src/pairing.rs:71-89 | at the start a device gets in if and only if it is paired, everybody is let in, or the window that the mode opens has not run out |
| `PairingRuns.AcceptAnyAdmits` | crates/telepad-server/src/pairing.rs:71-89 | a gate that starts by accepting everybody lets in everybody in every run |
| `PairingRuns.UsedInvitation` | crates/telepad-server/src/pairing.rs:138-172 | an invitation is used only while it is the latest made, before it runs out, and not withdrawn, forgotten or used before |
| `PairingRuns.TokenPairsOnce` | crates/telepad-server/src/pairing.rs:157-172 | with fresh tokens, no token pairs two devices |
| `PairingRuns.GateFollowsHistory` | crates/telepad-server/src/server.rs:416-436 | in every run of the server the gate is what the history of its events makes it |
| `PairingRuns.ConnectedByLeave` | crates/telepad-server/src/server.rs:428-436 | every connected device was paired by the owner's leave and not forgotten since, in runs where forgetting is always saved |
| `InputBackend.InputWorker.Send` | crates/telepad-server/src/input.rs:77-81 | a message sent to a running thread takes effect after everything queued; after the halt it is dropped |
| `InputBackend.InputWorker.SendAll` | crates/telepad-server/src/input.rs:83-87 | the same for a list, in order |
| `InputBackend.InputWorker.Work` | crates/telepad-server/src/input.rs:40-75 | the thread leaves the backend as if the queue had been applied in order up to the first halt |
| `InputBackend.InputWorker.Shutdown` | crates/telepad-server/src/input.rs:90-95 | everything queued is applied and the thread stops |
| `InputBackend.ReleasesLift` | crates/telepad-server/src/input.rs:106-122 | any sequence of releases lifts exactly what it names, whatever the order and however often |
| `InputBackend.OnlyPressesPress` | crates/telepad-server/src/input.rs:106-122 | no message but a key or button press puts anything down, typing, media keys and chords included |
| `InputBackend.ActionKeys` | crates/telepad-platform/src/os/linux/mod.rs:286-317 | media, volume and desktop actions tap or chord the keys of these numbers in the kernel's list, and the others none |
| `Server.ServerProcess.Handshake` | crates/telepad-server/src/server.rs:416-438 | one step of the machine: gate, session table and the releases of whoever is dropped |
| `Server.ServerProcess.Transport` | crates/telepad-server/src/server.rs:477-554 | one step: open, note as a sign of life, remember and apply |
| `Server.ServerProcess.Dispatch` | crates/telepad-server/src/server.rs:516-554 | input messages go to the input thread and the others leave it alone |
| `Server.ServerProcess.MaintenancePass` | crates/telepad-server/src/server.rs:348-373 | one step: idle sessions end and quiet ones let go |
| `Server.ServerProcess.OpenWindow` | crates/telepad-server/src/server.rs:137-144 | one step of the owner |
| `Server.ServerProcess.CloseWindow` | crates/telepad-server/src/server.rs:146-148 | one step of the owner |
| `Server.ServerProcess.Invite` | crates/telepad-server/src/server.rs:164-171 | one step of the owner |
| `Server.ServerProcess.Forget` | crates/telepad-server/src/server.rs:207-216 | one step of the owner; an unsaved list returns before the sessions are ended |
| `Server.ServerProcess.Stop` | crates/telepad-server/src/server.rs:328-333 | the shutdown step, with the backend caught up at the end |
| `ServerRuns.NothingStuck` | crates/telepad-server/src/server.rs:291-553 | in every run of handshakes, packets, evictions, expiries, forgettings and shutdown, every key and button down is held by a live session (a lock section and its sending being one step) |
| `ServerRuns.AfterMaintenanceOnlyRecentHolds` | crates/telepad-server/src/server.rs:336-373 | after a housekeeping pass, by one heard from within both timeouts |
| `ServerRuns.NothingDownAtTheEnd` | crates/telepad-server/src/server.rs:291-333 | after shutdown, and after a saved forgetting, nothing is down (at the same grain; the Races rows give the finer one) |
| `ServerRuns.MessageKeepsCodes` | crates/telepad-platform/src/os/linux/mod.rs:79-97 | a message keeps every kernel key code that is down covered by a held key or its modifiers if and only if each code of the recorded press of its key that is down and that it does not name is held by somebody afterwards |
| `ServerRuns.StepKeepsCodes` | crates/telepad-platform/src/os/linux/mod.rs:79-97 | the same of every step of the server |
| `ServerRuns.NoCodeStuck` | crates/telepad-platform/src/os/linux/mod.rs:79-97 | in every run the codes that are down stay covered, shared modifiers and aliased keys included, for exactly as long as every packet meets that condition |
| `ServerRuns.SameModifiersAreDisciplined` | crates/telepad-platform/src/os/linux/mod.rs:79-97 | a phone that presses a held key again, and releases it, with at least the modifiers of its press meets it whatever else is down |
| `ServerRuns.EndIsCleanIfCovered` | crates/telepad-server/src/server.rs:328-333 | shutdown and a saved forgetting leave no code down if and only if each was covered just before |
| `ServerRuns.NoCodeDownAtTheEnd` | crates/telepad-platform/src/os/linux/mod.rs:79-97 | so after a run that meets the condition no code is down at the end |
| `ServerRuns.PressAndReleaseLeaveNothing` | crates/telepad-platform/src/os/linux/mod.rs:79-97 | for one press and one release of a key on an idle keyboard the condition is that the key has no code or each modifier of the press is one of the release or the key itself |
| `ServerRuns.StuckControl` | crates/telepad-platform/src/os/linux/mod.rs:79-97 | Control with A pressed and A alone released: no key is held and Control stays down |
| `ServerRuns.StuckAfterPressingAgain` | crates/telepad-server/src/sessions.rs:42-46 | Control with A pressed, A alone pressed again and released: the release names all that is recorded and Control stays down |
| `ServerRuns.OnlyPairedConnected` | crates/telepad-server/src/server.rs:416-438 | unless forgetting fails to be saved, in every run each session belongs to a trusted device and the table keeps its cap |
| `ServerRuns.ForgettingKeepsSafe` | crates/telepad-server/src/server.rs:207-216 | forgetting keeps that if and only if the list was saved or nobody was connected |
| `ServerRuns.ForgottenEntirely` | crates/telepad-server/src/server.rs:206-216 | a saved forgetting leaves no session, no trusted device, no invitation and nothing down |
| `ServerRuns.NoPacketActsTwice` | crates/telepad-server/src/server.rs:477-513 | a packet that had an effect has none again, whatever it carries, until its sender connects anew |
| `Races.StepIsLockThenSend` | crates/telepad-server/src/server.rs:485-554 | a step of the machine is its lock section with the sending done at once, and every lock section is such a part |
| `Races.BecomesLost` | crates/telepad-server/src/server.rs:328-333 | with lock sections, single sends and the halt of the input thread interleaved, something that is down comes to have no holder and no release on its way only by the sending of a press that nobody holds any more, or by the halt while a task still owes its release |
| `Races.TurnsKeepGuarded` | crates/telepad-server/src/server.rs:485-554 | so a step keeps everything down held or promised a release if and only if it does neither |
| `Races.DownAfterTheHalt` | crates/telepad-server/src/server.rs:328-333 | in every interleaved run, what is down once the input thread has halted is exactly what a stray press left down and what another task still owed the release of |
| `Races.NothingChangesAfterTheHalt` | crates/telepad-server/src/input.rs:77-95 | what is sent after the halt is dropped, so it stays that way |
| `Races.NothingStuckBetweenTurns` | crates/telepad-server/src/server.rs:485-554 | in every interleaved run without a let-go press in flight and without a release owed at the halt, whatever is down is held or about to be released, and held when nobody is sending |
| `Races.WhatLetsGo` | crates/telepad-server/src/server.rs:207-216 | another task lets go of something held if and only if it forgets every device or is a housekeeping pass by whose clock all holders have been silent too long |
| `Races.ForgottenInTheGap` | crates/telepad-server/src/server.rs:207-216 | from any quiet moment: a press, a forgetting before it is sent, and in the end no session, nothing to send and the key down |
| `Races.PromiseBroken` | crates/telepad-server/src/server.rs:328-373 | from any quiet moment: a housekeeping pass takes the hold on something down, the server shuts down and halts the input thread before that release is sent, and in the end nobody holds anything, nothing is left to send and it is down |
| `Races.ShutdownLeavesStrays` | crates/telepad-server/src/server.rs:328-333 | what nobody holds stays down through the releases of the shutdown |
| `LinuxInput.KeyEvents` | crates/telepad-platform/src/os/linux/mod.rs:79-97 | modifiers down before the key, up after it, in reverse order; nothing for a usage without a code |
| `LinuxInput.ChordEvents` | crates/telepad-platform/src/os/linux/mod.rs:100-109 | presses in order and releases in reverse |
| `LinuxInput.TapCodes` | crates/telepad-platform/src/os/linux/mod.rs:142-149 | each code down and up |
| `LinuxInput.StepEvents` | crates/telepad-platform/src/os/linux/mod.rs:153-182 | the events of one step, and a pause exactly after a code point entry |
| `LinuxInput.PlannedStepsAreTypeable` | crates/telepad-platform/src/os/linux/mod.rs:120-157 | the program never stops at a planned key or digit without a key code |
| `LinuxInput.Text` | crates/telepad-platform/src/os/linux/mod.rs:275-284 | types the plan of the text, step by step |
| `Typing.TypingIsFaithful` | crates/telepad-platform/src/os/linux/mod.rs:120-182 | on any layout that has the keys for the code points needed, typing yields exactly the text (carriage return as Enter, keyless controls dropped), with nothing down, if and only if each character typed by its key is where the US layout has it |
| `Typing.UnicodeIgnoresLayout` | crates/telepad-platform/src/lib.rs:33-38 | by code points any text comes out right on every layout that has their keys and whitespace in place, whatever else it moves |
| `Typing.KeysFollowLayout` | crates/telepad-platform/src/lib.rs:30-34 | by keys it comes out right if and only if the layout has each keyed character of the text where the US one has it |
| `Typing.EntryExactly` | crates/telepad-platform/src/os/linux/mod.rs:153-182 | a code point comes out as entered if and only if the layout has U, Space and each of its hexadecimal digits where the US one has them |
| `Typing.TextMessageTypes` | crates/telepad-platform/src/os/linux/mod.rs:275-284 | a text from a phone is typed in the mode of the computer's input, with the same condition |
| `Typing.LayoutUndoesKeymap` | crates/telepad-platform/src/keymap/ascii.rs:7-53 | reading a US layout off the key codes undoes the way from characters to key codes |
| `Typing.HexRoundTrip` | crates/telepad-platform/src/os/linux/mod.rs:172-177 | the digits typed stand for the code point |
| `Typing.StepTypesItsCharacter` | crates/telepad-platform/src/os/linux/mod.rs:120-182 | each step types on an idle keyboard what the layout makes of its character, and leaves it idle |
| `Typing.TypingPreservesMeaning` | crates/telepad-platform/src/os/linux/mod.rs:120-182 | on the US layout every text comes out right in both modes |
| `Typing.ModesAgree` | crates/telepad-platform/src/os/linux/mod.rs:120-135 | there both ways of entering text type the same |
| `KeysDown.DownAfterKey` | crates/telepad-platform/src/os/linux/mod.rs:79-97 | a press adds and a release removes exactly the codes of the key and its modifiers |
| `KeysDown.KeyUnderItsModifiers` | crates/telepad-platform/src/os/linux/mod.rs:79-97 | a key goes down once exactly its modifiers have been added to what was down, and comes up before any of them |
| `KeysDown.DownAfterChord` | crates/telepad-platform/src/os/linux/mod.rs:100-109 | a chord leaves up whatever it touched |
| `KeysDown.TypingHoldsNothing` | crates/telepad-platform/src/os/linux/mod.rs:120-182 | typing a text leaves down no key that was not |
| `KeysDown.ReleaseUndoesPress` | crates/telepad-platform/src/os/linux/mod.rs:79-97 | exactly when a release with other modifiers lifts all that a press put down |
| `KeysDown.ModifierCodesAreDistinct` | crates/telepad-platform/src/keymap/linux.rs:74-130 | no other key has the code of a modifier |
| `KeysDown.ModifierUsagesHas` | crates/telepad-platform/src/keymap/mod.rs:45-49 | the modifiers of a bitmap are those of its bits |
| `KeysDown.ModifierBits` | crates/telepad-platform/src/keymap/mod.rs:45-49 | the bitmap is the sum of the values of its bits, 1 for the first to 128 for the eighth |
| `KernelKeys.KernelNamesTheKey` | crates/telepad-platform/src/keymap/linux.rs:74-130 | each key that types nothing has a code, and the kernel's list of keys by number gives its usage back |
| `KernelKeys.DistinctCodes` | crates/telepad-platform/src/keymap/linux.rs:74-130 | so no two of them share a code |
| `KernelKeys.NoOtherKeys` | crates/telepad-platform/src/keymap/linux.rs:74-130 | usages that are no keys have no code |
| `Utf8.DecodeUndoesEncode` | crates/telepad-protocol/src/lib.rs:300-482 | reading undoes writing, for every text (section 3 of RFC 3629) |
| `Utf8.EncodeUndoesDecode` | crates/telepad-protocol/src/lib.rs:352-482 | only the shortest form is read, so what reads is what would have been written |
| `Utf8.TruncatedIsLongest` | crates/telepad-server/src/clipboard.rs:101-111 | the cut text fits, and no longer start of the text does |
| `Utf8.BoundariesBelow` | crates/telepad-server/src/clipboard.rs:106-110 | walking back from the limit stops within three bytes, at the end of that longest start |
| `Utf8.TruncateToCharBoundary` | crates/telepad-server/src/clipboard.rs:102-111 | the cut is the longest start of whole characters within the limit |
| `Codec.EncodeClient` | crates/telepad-protocol/src/lib.rs:274-350 | appends the bytes of a message, or fails and leaves the buffer as the code does |
| `Codec.DecodeClient` | crates/telepad-protocol/src/lib.rs:352-482 | what a packet means, or which error it is |
| `Codec.EncodeServer` | crates/telepad-protocol/src/lib.rs:493-563 | appends the bytes of a reply, its strings cut |
| `Codec.DecodeServer` | crates/telepad-protocol/src/lib.rs:565-658 | what a reply means, or which error it is |
| `Codec.PutStr` | crates/telepad-protocol/src/lib.rs:509-546 | the loop that backs off to a character boundary ends and writes the longest start within 255 bytes |
| `Protocol.ClientRoundTrip` | crates/telepad-protocol/src/lib.rs:274-482 | every message that can be encoded decodes to itself, whatever follows it |
| `Protocol.EncodingFailsOnlyForLongText` | crates/telepad-protocol/src/lib.rs:300-345 | encoding fails if and only if a text is longer than 65535 bytes |
| `Protocol.CutPacketsAreRefused` | crates/telepad-protocol/src/lib.rs:352-482 | a packet cut short anywhere is refused as too short or empty and never taken for another message |
| `Protocol.ServerRoundTrip` | crates/telepad-protocol/src/lib.rs:493-658 | every reply decodes to what it carries: strings as their longest start of at most 255 bytes, negative times as none |
| `WireFormat.DecodedSays` | crates/telepad-protocol/src/lib.rs:29-482 | bytes decode to a message if and only if the first byte is its literal kind, each choice its literal number, and each field stands at its literal place |
| `WireFormat.EncodedSays` | crates/telepad-protocol/src/lib.rs:29-350 | a message is encoded as the one packet that says so, with nothing after it |
| `WireFormat.DecodedRefuses` | crates/telepad-protocol/src/lib.rs:352-482 | bytes are refused with an error if and only if that is what is wrong with them |
| `WireFormat.DecodedReplySays` | crates/telepad-protocol/src/lib.rs:45-658 | bytes decode to a reply if and only if kind, flag bits, times and strings stand at their literal places, in order |
| `WireFormat.EncodedReplySays` | crates/telepad-protocol/src/lib.rs:493-563 | a reply is encoded as bytes that say what it carries and nothing more, a time that is not known as -1 |
| `WireFormat.WhatArrives` | crates/telepad-protocol/src/lib.rs:509-546 | a string of at most 255 bytes arrives whole, and of a longer one the most that fits |
| `WindowsCommandLine.QuoteArgument` | crates/telepad-platform/src/autostart/windows.rs:29-60 | writes the quoted form, backslashes doubled exactly before quotes |
| `WindowsCommandLine.WrittenPlain` | crates/telepad-platform/src/autostart/windows.rs:29-40 | an argument is written as it is if and only if it is not empty and has no white space and no quote |
| `WindowsCommandLine.CommandLine` | crates/telepad-platform/src/autostart/windows.rs:12-20 | the program in quotes, then the arguments |
| `WindowsCommandLine.WindowsRoundTrip` | crates/telepad-platform/src/autostart/windows.rs:11-60 | the documented reader gives back exactly the program and arguments if and only if the program has no quote and there is no zero character |
| `DesktopEntry.Quote` | crates/telepad-platform/src/autostart/xdg.rs:56-78 | both layers of escaping and the doubled percent signs |
| `DesktopEntry.WrittenPlain` | crates/telepad-platform/src/autostart/xdg.rs:56-78 | a word is written as it is if and only if it is not empty and has no reserved character and no percent sign |
| `DesktopEntry.Entry` | crates/telepad-platform/src/autostart/xdg.rs:31-47 | the text of the entry |
| `DesktopEntry.DesktopRoundTrip` | crates/telepad-platform/src/autostart/xdg.rs:30-78 | reading the entry by the standard (its group, its type and name, no terminal, not switched off, then the Exec line: undoing the string layer, splitting by the quoting rules and undoing the percent signs) gives back the words if and only if no word has an ASCII control character and the program has no equals sign |
| `Updater.Updater.StartCheck` | crates/telepad-update/src/updater.rs:160-166 | a check starts exactly when nothing is going on |
| `Updater.Updater.CheckBlocking` | crates/telepad-update/src/updater.rs:159-182 | on an idle updater: an update is on offer exactly when the answer was that one, an error shows exactly when there was none, and it is idle again |
| `Updater.ResultStands` | crates/telepad-update/src/updater.rs:173-182 | in every run an update is on offer, nothing newer is known, or an error shows, if and only if that was the answer to the latest check and no job has begun since |
| `Updater.Updater.StartInstall` | crates/telepad-update/src/updater.rs:186-201 | installing takes up exactly an update that was found, or failed, and can be installed |
| `Updater.Updater.Download` | crates/telepad-update/src/updater.rs:228-234 | the last progress report shows |
| `Updater.Updater.InstallBlocking` | crates/telepad-update/src/updater.rs:185-268 | where an installation on its own ends for every course of events, and that the program is told to quit exactly when it ends in place |
| `Updater.InstallerAlone` | crates/telepad-update/src/updater.rs:185-268 | a thread taking turns with nobody does what the method does |
| `Updater.CheckRuns` | crates/telepad-update/src/updater.rs:159-182 | after any run that left no job under way, a check ends and shows its answer |
| `Updater.InstallRuns` | crates/telepad-update/src/updater.rs:185-268 | after any run that left an update on offer, or failed, with something to install: an installation that goes well ends in the restart, and any other with the first failure's message, to be tried again |
| `Updater.FoundIsInstalled` | crates/telepad-update/src/updater.rs:159-268 | after any run that left no job under way, a check that finds an installable update and an installation that goes well end in its restart, and in exactly one |
| `Updater.OneJobAtATime` | crates/telepad-update/src/updater.rs:47-57 | for any number of threads in any interleaving: at most one job is under way, the state is that job's, and the program is told to quit at most once |
| `Updater.ResultsAreNotOverwritten` | crates/telepad-update/src/updater.rs:159-268 | the state changes only by the job under way or when an idle updater starts one, and never once restarting |
| `Updater.WedgedOnlyByDeath` | crates/telepad-update/src/updater.rs:47-57 | a busy updater that is not restarting can become idle again if and only if no thread has died in the middle of a job |
| `Updater.DeathWedges` | crates/telepad-update/src/updater.rs:47-57 | once a thread has died in a job the state never changes again |
| `Updater.InstalledIsFound` | crates/telepad-update/src/updater.rs:185-268 | the update in hand was found by a check and has been the one in hand ever since |
| `Updater.FolderStaysItsOwn` | crates/telepad-update/src/updater.rs:225-250 | the folder keeps the file of the job from the opening for its checksum until the update is in place if and only if the step is not the unlocked clearing of old downloads (lines 270-273) in that span |
| `Updater.FolderIsItsOwn` | crates/telepad-update/src/updater.rs:225-250 | in every run an update is checked and applied from what its own job downloaded for exactly as long as there is no such clearing |
| `Updater.ClearedBeforeOpening` | crates/telepad-update/src/fetch.rs:153-155 | once the file is cleared before that opening, the job can only fail |
| `Identity.Disk.AtomicWrite` | crates/telepad-crypto/src/lib.rs:304-341 | on its own: the file has the new bytes, or was there and is untouched, or the temporary name was taken; nothing else changes |
| `Identity.Disk.WriteAll` | crates/telepad-crypto/src/lib.rs:319-323 | however little is written at a time, all of it is |
| `Identity.Disk.LoadOrGenerate` | crates/telepad-crypto/src/lib.rs:429-449 | on its own: an existing key is read and not touched, a missing one is written, and the key returned is the one on disk |
| `Identity.NeverHalfAKey` | crates/telepad-crypto/src/lib.rs:297-303 | for any number of processes, interleavings, partial writes, failures, deaths and refused links, the key file is absent or holds a whole key, as long as no temporary name is drawn that another process still has |
| `Identity.StepKeepsWhole` | crates/telepad-crypto/src/lib.rs:331-337 | each step keeps that, and keeps the key file as it is if and only if it is not a fallback rename over another key |
| `Identity.LinksKeepNamesDistinct` | crates/telepad-crypto/src/lib.rs:315-323 | where hard links work no such name is ever drawn |
| `Identity.AlwaysSound` | crates/telepad-crypto/src/lib.rs:304-341 | for any number of processes, interleavings, partial writes, failures and deaths, while hard links are not refused: the invariant of the protocol |
| `Identity.KeyNeverChanges` | crates/telepad-crypto/src/lib.rs:297-303 | once there it never changes |
| `Identity.OneIdentity` | crates/telepad-crypto/src/lib.rs:429-449 | every process that returns has the key on disk, and at most one of them made it |
| `Identity.IdentityAlone` | crates/telepad-crypto/src/lib.rs:429-449 | a process that nobody disturbs, with or without hard links and however little is written at a time, returns the key on disk if that is whole, and otherwise its own, which is then the one on disk |
| `Identity.GivesUpOnlyByFailure` | crates/telepad-crypto/src/lib.rs:304-341 | with hard links, in every run a process gives up only when an operation fails, its temporary name is in use, or it dies |
| `Identity.RenamingReplaces` | crates/telepad-crypto/src/lib.rs:336-336 | the fallback rename keeps the key file if and only if there is none yet or it holds that key |
| `Identity.WithoutLinksTwoIdentities` | crates/telepad-crypto/src/lib.rs:331-337 | where hard links are refused, for any two keys there is a run in which two processes return them and only one is on disk |
| `Versions.Print` | crates/telepad-update/src/version.rs:95-107 | writes the printed form |
| `Versions.Parse` | crates/telepad-update/src/version.rs:46-93 | reads a version, or fails where the code does |
| `Versions.PrintedParses` | crates/telepad-update/src/version.rs:46-107 | every version prints to text that reads back as it, with or without the v |
| `Versions.ParsedIsValid` | crates/telepad-update/src/version.rs:46-93 | what is read has 64-bit numbers and proper identifiers |
| `Versions.SemVerPrintsBack` | crates/telepad-update/src/version.rs:46-107 | a text prints back as it was read if and only if it is a version by the grammar of Semantic Versioning 2.0.0, without build metadata and with 64-bit numbers |
| `Versions.TagsArePrintedVersions` | crates/telepad-update/src/release.rs:73-83 | a tag counts as a version if and only if it is v and the printed form of that version |
| `Versions.TagsAreSemVer` | crates/telepad-update/src/release.rs:73-83 | the tags that count are exactly v and a text of that grammar |
| `VersionOrder.CompareIsPrecedence` | crates/telepad-update/src/version.rs:109-145 | the comparison is the precedence of section 11 of Semantic Versioning 2.0.0, equal only on identical versions, and antisymmetric |
| `VersionOrder.CompareIsTransitive` | crates/telepad-update/src/version.rs:109-145 | and transitive |
| `VersionOrder.OfferedExactly` | crates/telepad-update/src/version.rs:36-40 | a version is offered if and only if it is later by the standard and, for somebody on a final version, final |
| `VersionOrder.NewestFor` | crates/telepad-update/src/release.rs:150-155 | an offered release that no other offered one exceeds, the last of equals; none exactly when none is offered |
| `VersionOrder.UpdatingSettles` | crates/telepad-update/src/release.rs:150-155 | whoever updates to the newest is offered nothing more of the same list |
| `VersionOrder.UpdatesOnlyRise` | crates/telepad-update/src/version.rs:36-40 | along any run of updates versions strictly rise and a final one is never followed by a pre-release |
| `Feed.CutContent` | crates/telepad-update/src/release.rs:135-147 | the scan ends and leaves the text without its notes |
| `Feed.Parse` | crates/telepad-update/src/release.rs:113-132 | the releases of a feed, or none if it is not one |
| `Feed.CutInBoth` | crates/telepad-update/src/release.rs:135-147 | text whose sections are closed is cut on its own, whatever follows |
| `Feed.NotesDoNotMatter` | crates/telepad-update/src/release.rs:113-147 | replacing the notes of any section by any text that does not end it leaves the list as it was if and only if the feed mark is still found or still missing |
| `FeedOfTags.FeedReadsBack` | crates/telepad-update/src/release.rs:113-132 | a feed built from any entries reads as the releases of its tags that are versions, in order |
| `FeedOfTags.TagsReadBack` | crates/telepad-update/src/release.rs:113-132 | for any tags without a quote or an opening bracket and any notes that do not end their section, the literal text of a feed of nothing else reads as the tags that are versions, in order, each with its version and the address of its page |
| `FeedOfTags.BaredIsCut` | crates/telepad-update/src/release.rs:135-147 | cutting such a feed leaves exactly its entries without their notes |
| `MacText.PlanText` | crates/telepad-platform/src/os/macos_plan.rs:127-164 | the plan types the text (controls dropped, a line feed after a carriage return merged) in pieces that are not empty, well-formed alone, at most 20 units long and cut only where the next character would not fit |
| `MacText.OnePlanPerText` | crates/telepad-platform/src/os/macos_plan.rs:127-164 | there is only one such plan |
| `MacText.DecodeUndoesEncode` | crates/telepad-platform/src/os/macos_plan.rs:154-155 | reading UTF-16 undoes writing it (section 2 of RFC 2781) |
| `MacText.EncodeUndoesDecode` | crates/telepad-platform/src/os/macos_plan.rs:154-155 | and the other way round |

## Left out

- Server.ServerProcess.Forget: whether the list can be saved is a parameter, as is the failure to save a new device, which the code only reports.
- Identity.KeyNeverChanges: assumes that no hard link is refused, because otherwise it is false (Identity.StepKeepsWhole says exactly when); the migration of an unprotected key on Windows, which rewrites the same key in another form, is not part of this model.
- Identity.NeverHalfAKey: a process can end at any operation; the whole computer losing power, and what its disk had written by then, is not part of this model.
- Feed.NotesDoNotMatter: replaces one section at a time; several are replaced one after the other.
- FeedOfTags.FeedReadsBack: the texts around the tags are any that hold no mark of another part, rather than the exact ones GitHub writes.
- Typing.TypingIsFaithful: the keyboard is idle at the start, a layout says what each key types without and with Shift only, and the pause after a code point entry is only a flag.
- VersionOrder.CompareIsTransitive: texts are compared character by character, which for the ASCII of identifiers is the same as byte by byte.
- Updater.WedgedOnlyByDeath: that the world answers a waiting job some day is not stated.
- Updater.FolderStaysItsOwn: removing a file that is open is taken to succeed, as on Unix.
- DesktopEntry.DesktopRoundTrip: characters outside ASCII are taken as they are, though section 4 of the Desktop Entry Specification keeps values of type string to ASCII; field codes other than a doubled percent sign are refused rather than expanded.
- HeldInputs keeps its three buttons in a sequence of three flags, and the order in which a hash map is walked is any.
- Messages queued for an input thread that has stopped are dropped; an error or panic of the backend, and the throttling of log lines about it, are not part of this model.
- Linux mouse movement, buttons and scrolling, the Windows and macOS backends except the macOS text plan, and launching programs: lists of events or commands settled by reading a branch.
- macOS key and chord plans and click counting: their flags and counters are small state of their own and nothing else depends on them.
- Packet framing, discovery, announcing, the clipboard thread, replies other than their encoding, the tray, the local web page and the Android app: input and output without a deeper invariant.
- The Noise handshake, key generation, fingerprints, DPAPI and the JSON of the list of paired devices: foreign, or assumed ideal.
- Fetching, checksums, installers, install kinds and settings files: each sequences foreign programs or is settled by one branch; what they answer is a parameter of the updater.
