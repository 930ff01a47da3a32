# Goose in a Pond: verified models

Dafny models of the parts of Goose in a Pond whose correctness is an argument rather than a
glance, with the properties they are relied on for. What is modelled has the branches, edge cases
and constants of its source; what is not is listed under "Left out". Where the source changes
things step by step there is a class or a method with the same steps, proved against a
specification function; the theorems are about that function, or about every run of a transition
system whose steps it makes up. What the small functions underneath mean is stated once more
without them, on the operation or in a lemma beside it.

| files | models |
|---|---|
| `Proxy`, `ProxyProtocol` | the embedded CONNECT proxy: its critical sections, and every interleaving of any number of handlers with `SetTargets` and `Close` |
| `IdentityStore`, `IdentityProperties` | the crash-safe key/value store of a node's identity |
| `NodeOpening`, `OpenProtocol` | opening a node: one process's file operations, and any number of Opens, writes and crashes around one directory |
| `Multistatus`, `MultistatusReplies` | the WebDAV `multistatus` reader as a machine over XML events, and what it makes of written-out replies |
| `Calendar`, `CalendarProperties`, `CalendarEvents` | the iCalendar reader: folding, escaping, content lines, events, and what it makes of printed calendars |
| `Bits`, `Gguf`, `GgufReader`, `GgufProperties`, `GgufRoundTrip`, `GgufAccepted` | the bounds-checked GGUF header walk |
| `Sorting`, `PairingTable`, `PairingOrder`, `PairingLines`, `PairingNames` | the vision pairing table: directory names, who asks for and who gets which, and regeneration |
| `Encoding`, `Cpace` | the CPace pairing handshake, both ends |
| `StorageLock`, `StorageLockProtocol` | reclaiming stale storage locks across crashes, boots and reused pids |
| `SoundLevels` | raising the sound server's levels for a test and putting them back |
| `EditDistance` | the edit distance of the voice benchmark |
| `Results`, `Text`, `Sets` | shared datatypes, string operations and a fact about sets |

Some things the models make precise that the sources leave unsaid:

* The proxy's generation counter is a 64-bit word. The last look at `targets` before a tunnel is
  registered is implied by the epoch check only until the counter has wrapped once under a
  handler; `EpochAloneWouldWrap` gives a reachable state where it is what refuses the handler.
* The `multistatus` reader keeps one current response, so a response inside a response replaces
  it. The theorem therefore holds for all documents, with one record for each response that
  holds no further response.
* A content line whose parameters hold a colon outside quotes, or an unclosed quote, does not
  come back; `ContentLineRoundTrip` says that those are the only lines that do not.
* A reply cut off before its root element opens, say after the XML declaration, is accepted as a
  reply with no responses, although the source means a truncated one to be refused rather than
  look empty; `CutIsRefusedInsideTheRoot` says where a cut is refused and where not.
* A lock is left standing when its pid belongs to another live process that looks like a
  controller or cannot be looked at, and no boot record that can be compared speaks for it;
  `LockStands` says that this is the only way.
* Until the marker is written no crash strands a new node: `CrashesNeverStrandANewNode` gives the
  exact condition. After it a directory opens exactly when its file is a valid identity of the
  coordinator (`MarkedReopensExactly`), and the store itself takes writes after which it is none:
  `AWriteCanStrand` gives one, `WriteKeepsIdentity` and `ProfilesWriteKeepsIdentity` say which.
* A pairing of the table can lose its directory: `ASharedDirIsLost` gives such a table. It happens
  exactly when the table gives two of the pairings one directory (`AllKnownKeepExactly`).

## Model

| member | source | states |
|---|---|---|
| ConnectProxy.Proxy.constructor | native/pondnet/proxy.go:56 | a new proxy is open, with empty tables and every slot free |
| ConnectProxy.Proxy.SetTargets | native/pondnet/proxy.go:71-100 | an open proxy accepts exactly the lists of at most eight addresses that all parse and hold neither of the mesh's two service addresses; accepted, it becomes the allowlist exactly, closes every registered socket and cancels every pending dial; refused, it changes nothing |
| ConnectProxy.Proxy.Close | native/pondnet/proxy.go:103-115 | the proxy is closed, no registered socket is open and every pending dial is cancelled |
| ConnectProxy.Proxy.CancelPending | native/pondnet/proxy.go:92-94 | the cancelled contexts are those before and exactly the pending ones |
| ConnectProxy.Proxy.CloseActive | native/pondnet/proxy.go:96-98 | the open sockets are those before without the registered ones |
| ConnectProxy.Proxy.Admit | native/pondnet/proxy.go:118-134 | an epoch exactly for a CONNECT with the credential to a peer on the allowlist of an open proxy, and then the current one |
| ConnectProxy.Proxy.TryAcquire | native/pondnet/proxy.go:135-141 | a slot is taken exactly when fewer than 32 are |
| ConnectProxy.Proxy.BeginDial | native/pondnet/proxy.go:143-152 | a dial is entered under the next id, unless the proxy was closed or invalidated since |
| ConnectProxy.Proxy.EndDial | native/pondnet/proxy.go:154-157 | the dial's entry is gone and its context cancelled |
| ConnectProxy.Proxy.Register | native/pondnet/proxy.go:175-182 | both sockets are registered, exactly if the proxy is open, the epoch stands and the peer is still allowed |
| ConnectProxy.Proxy.Unregister | native/pondnet/proxy.go:183 | neither socket is registered any more, and no other changed |
| ProxyProtocol.StepKeepsInv | native/pondnet/proxy.go:71-196 | every step of every handler, `SetTargets` and `Close` keeps the invariant on slots, history, dials and sockets |
| ProxyProtocol.ReachableInv | native/pondnet/proxy.go:71-196 | every reachable state satisfies that invariant |
| ProxyProtocol.NoTunnelOutlivesItsEpoch | native/pondnet/proxy.go:70-99 | a registered socket that is open belongs to a tunnel of the current epoch, to a target still allowed, on an open proxy |
| ProxyProtocol.NoEpochWithoutCredential | native/pondnet/proxy.go:118-134 | over any run, a handler with an epoch, a tunnel included, came in by a CONNECT with the credential to its very peer |
| ProxyProtocol.InvalidationReachesEveryone | native/pondnet/proxy.go:86-113 | after an allowlist change or a close no registered socket is open, every pending dial is cancelled, and every handler's epoch is a past one |
| ProxyProtocol.PendingDialsAreCurrent | native/pondnet/proxy.go:143-157 | a dial entry names one handler in that dial, and is cancelled or of the current epoch of an open proxy |
| ProxyProtocol.SharedDialIds | native/pondnet/proxy.go:149-151 | two dials share an id only if 2^64 dials lie between them |
| ProxyProtocol.Bounds | native/pondnet/proxy.go:135-183 | the semaphore counts exactly the handlers between acquire and release, and bounds dials by 32 and sockets by 64 |
| ProxyProtocol.QuiescentIsClean | native/pondnet/proxy.go:135-196 | when every handler has returned all tables are empty, no socket is open and all slots are free |
| ProxyProtocol.OvertakenGetsNoTunnel | native/pondnet/proxy.go:144-176 | over any run, a handler overtaken by an invalidation before it registered gets no tunnel, until the generation has wrapped under it |
| ProxyProtocol.ClosedForGood | native/pondnet/proxy.go:103-115 | over any run a closed proxy stays closed, its tables only shrink, newcomers are turned away and no handler gets a tunnel |
| ProxyProtocol.FinishHandler | native/pondnet/proxy.go:117-196 | from any state any handler can run to its return on its own |
| ProxyProtocol.CanDrain | native/pondnet/proxy.go:117-196 | from any state there is a run in which every handler returns |
| ProxyProtocol.EpochImpliesTarget | native/pondnet/proxy.go:176 | before the counter wraps under a handler, registering on the epoch alone would be the same |
| ProxyProtocol.EpochAloneWouldWrap | native/pondnet/proxy.go:91 | a reachable state, after exactly 2^64 changes, where the epoch stands and only the look at the allowlist refuses |
| IdentityStore.ValidateIdentity | native/pondnet/identity_store.go:64-106 | accepts exactly the identities that are complete and of this coordinator in every entry, written out entry by entry |
| IdentityStore.FindSelected | native/pondnet/identity_store.go:84-95 | a selector is accepted exactly when some known profile has that entry |
| IdentityStore.TwoCoordinators | native/pondnet/identity_store.go:64-106 | an identity that passes for two coordinators names none anywhere, so adopting it moves no profile |
| IdentityStore.WriteTemp | native/pondnet/identity_store.go:163-177 | until the rename no crash changes the state file or any file but the temporary one |
| IdentityStore.Persist | native/pondnet/identity_store.go:154-187 | success exactly when every operation works; the file is new exactly from the rename on, and every crash before it leaves the old file and every crash after it the whole new one |
| IdentityStore.OldOrNew | native/pondnet/identity_store.go:154-187 | at every crash point the state file is the old one or exactly the new one |
| IdentityStore.OpenIdentityStore | native/pondnet/identity_store.go:32-62 | opens exactly a whole identity of this coordinator, saving first if it records none, or a new one with no file and no marker; the store and the file then hold the same entries with the coordinator recorded; crashes leave the old file or the new map |
| IdentityStore.OpenedIsAnIdentity | native/pondnet/identity_store.go:32-62 | what is opened is an identity under the caller's coordinator, with every other entry as the file had it |
| IdentityStore.MintedIsAnIdentity | native/pondnet/identity_store.go:36-37 | a newly minted map passes validation |
| IdentityStore.AdoptedIsAnIdentity | native/pondnet/identity_store.go:54-60 | an adopted identity still passes validation |
| IdentityStore.IdentityStore.constructor | native/pondnet/identity_store.go:25-33 | a new store holds the map that is in its file |
| IdentityStore.IdentityStore.ReadState | native/pondnet/identity_store.go:108-119 | the failure, or the entry, or that there is none |
| IdentityStore.IdentityStore.WriteState | native/pondnet/identity_store.go:121-146 | works exactly when it changes nothing, or changes neither the machine key nor the coordinator and the save works; the file switches at most once, and without a save no file operation happens |
| IdentityProperties.WritesRefineAMap | native/pondnet/identity_store.go:121-146 | after any writes a store that has not failed holds what a plain map would, in memory and on disk, with its machine key and coordinator unchanged |
| IdentityProperties.ReadsSeeTheMap | native/pondnet/identity_store.go:108-119 | a read returns what was written last, empty and absent being the same |
| IdentityProperties.FailureIsFinal | native/pondnet/identity_store.go:111-126 | a failed store answers no read and takes no write, and never touches its file again |
| IdentityProperties.OneWriteInDoubt | native/pondnet/identity_store.go:134-145 | when a store fails, the file holds everything written before, with or without exactly the failing write |
| IdentityProperties.ReplacementIsRefused | native/pondnet/identity_store.go:127-133 | a write to the machine key or coordinator succeeds only if it changes nothing, and never touches the file |
| IdentityProperties.WriteKeepsIdentity | native/pondnet/identity_store.go:78-104 | exactly which writes to a key other than the profile table leave a valid identity |
| IdentityProperties.ProfilesWriteKeepsIdentity | native/pondnet/identity_store.go:73-96 | exactly which writes of the profile table do |
| IdentityProperties.AWriteCanStrand | native/pondnet/identity_store.go:121-146 | a write that succeeds on a new identity and leaves a file no Open accepts |
| NodeOpening.MarkInitialized | native/pondnet/node.go:311-332 | the marker is there as soon as its creation works, success needs every sync, and the state file is untouched |
| NodeOpening.OpenNode | native/pondnet/node.go:164-182 | opens exactly when the directory holds an identity of the coordinator, or nothing and no marker, and every operation works; if the directory could be opened before, it still can after this Open and after a crash at any of its operations |
| OpenProtocol.StepKeepsInv | native/pondnet/node.go:161-182 | every step of every Open, write and crash keeps the invariant on the lock and on what each process holds |
| OpenProtocol.MachineKeySurvivesDeletion | native/pondnet/identity_store.go:130-133 | once a directory is marked and no Open is left that looked before, any file after any run, deletions included, has the same machine key and coordinator |
| OpenProtocol.MachineKeyNeverChanges | native/pondnet/identity_store.go:22-24 | over any undisturbed run the file keeps its machine key and coordinator, and an unreadable file is never replaced |
| OpenProtocol.OneCoordinator | native/pondnet/identity_store.go:70-72 | in any run in which nobody deletes the file, no process that has loaded the identity, failed stores included, is under another coordinator than the file recorded |
| OpenProtocol.OneCoordinatorWhenMarked | native/pondnet/identity_store.go:70-72 | the same with deletions, from a marked directory with no Open left that looked before |
| OpenProtocol.OneHolder | native/pondnet/node.go:171-174 | in any run from any directory two processes never have the store open or being opened at once |
| OpenProtocol.NoKeyAfterTheMarker | native/pondnet/node.go:164-165 | an Open that starts once the marker exists never mints, even if the state file was deleted |
| OpenProtocol.LossIsNoNewInstallation | native/pondnet/identity_store.go:22-24 | a marked directory without a state file stays without one, and no Open comes up on it |
| OpenProtocol.CrashesNeverStrandANewNode | native/pondnet/node.go:161-163 | wherever Opens crashed before the marker, an uninterrupted Open comes up exactly when no identity was made and a new one fits, or the one made is its coordinator's |
| OpenProtocol.MarkedReopensExactly | native/pondnet/identity_store.go:34-62 | after the marker an uninterrupted Open comes up exactly when the file is a valid identity of its coordinator and, where it records none yet, still fits once it does |
| OpenProtocol.MarkedMeansSaved | native/pondnet/node.go:175-178 | from an empty directory, undisturbed, the marker implies the state file |
| Multistatus.ParseMultistatus | crates/pond-adapters-caldav/src/xml.rs:29-135 | the loop computes the reading of the events; on any readable document that is what the recursive walk returns, which `ReplyIsRead` writes out |
| Multistatus.ReadingIsTheWalk | crates/pond-adapters-caldav/src/xml.rs:29-135 | on every readable document the records are those of the walk: first plain href, first other href, last name, tag and data, types in order |
| Multistatus.AcceptedExactlyWhenReadable | crates/pond-adapters-caldav/src/xml.rs:63-86 | a document is refused exactly when some text inside an element does not decode or resolve |
| Multistatus.TruncatedIsRefused | crates/pond-adapters-caldav/src/xml.rs:120-129 | a reply cut off inside an element is an error, whatever comes before that element |
| Multistatus.CutIsRefusedInsideTheRoot | crates/pond-adapters-caldav/src/xml.rs:120-129 | a cut is refused exactly inside the root element; before it the reply reads as empty, after it as whole |
| Multistatus.CutShortExactlyWhenUnclosed | crates/pond-adapters-caldav/src/xml.rs:120-129 | on matching tags the end is refused exactly when an element is open, with the number open |
| Multistatus.OpenResponseIsOnTheStack | crates/pond-adapters-caldav/src/xml.rs:113-118 | a current response means that a response element is open |
| Multistatus.StacksStayLevel | crates/pond-adapters-caldav/src/xml.rs:37-38 | the two stacks have equal height after any events |
| Multistatus.PrefixKeepsDepth | crates/pond-adapters-caldav/src/xml.rs:29-135 | no prefix of a document's events leaves the stack lower than it began |
| Multistatus.LocalOfPrefixed | crates/pond-adapters-caldav/src/xml.rs:23-26 | the local name of a prefixed name is what follows the prefix, in lower case |
| Multistatus.LocalOfPlain | crates/pond-adapters-caldav/src/xml.rs:23-26 | without a prefix it is the whole name, in lower case |
| MultistatusReplies.PrefixesDoNotMatter | crates/pond-adapters-caldav/src/xml.rs:23-26 | putting any prefixes before any of the names of any events changes nothing that is read |
| MultistatusReplies.ReplyIsRead | crates/pond-adapters-caldav/src/xml.rs:29-135 | a reply about any list of calendars reads as exactly their hrefs, types, names, data, tags and next hops, in order, elements the reader does not know skipped |
| MultistatusReplies.ReferencesAreRead | crates/pond-adapters-caldav/src/xml.rs:73-86 | a reference inside a text is the character it stands for, spaces around it kept, and an unknown one refuses the reply |
| MultistatusReplies.FirstHrefsCount | crates/pond-adapters-caldav/src/xml.rs:92-106 | of the hrefs of a response the first plain one is its own, and the first of all others the next hop |
| MultistatusReplies.LastOneCounts | crates/pond-adapters-caldav/src/xml.rs:107-111 | of the names, tags or data of a response the last counts |
| Calendar.Unfold | crates/pond-adapters-caldav/src/ics.rs:18-32 | the logical lines are those of the specification |
| Calendar.Unescape | crates/pond-adapters-caldav/src/ics.rs:35-53 | the text is that of the specification, trailing backslash included |
| Calendar.ParseLine | crates/pond-adapters-caldav/src/ics.rs:55-81 | the line is cut at its first colon outside quotes |
| Calendar.EventsFromIcs | crates/pond-adapters-caldav/src/ics.rs:119-194 | the items are those of the event machine's run over the unfolded lines |
| CalendarProperties.EventsAreTheWalk | crates/pond-adapters-caldav/src/ics.rs:131-194 | each item is made from the lines of its own event alone: last value of each field, people once each in order |
| CalendarProperties.NoUidOutsideAnEvent | crates/pond-adapters-caldav/src/ics.rs:133-148 | no UID is held while no event is open |
| CalendarProperties.ReadsPieceByPiece | crates/pond-adapters-caldav/src/ics.rs:18-32 | a document cut at a newline outside any event, before a line that is no continuation, reads as its two pieces do |
| CalendarProperties.UnescapeUndoesEscape | crates/pond-adapters-caldav/src/ics.rs:35-53 | every text escaped as section 3.3.11 of RFC 5545 says comes back |
| CalendarProperties.AnySpellingIsRead | crates/pond-adapters-caldav/src/ics.rs:35-53 | however each character is written, plain, behind a backslash or as either escaped line feed, the text comes back; a backslash left over stays |
| CalendarProperties.ContentLineRoundTrip | crates/pond-adapters-caldav/src/ics.rs:55-81 | a printed line comes back as its name, parameters and value exactly when every colon in the parameters is inside balanced quotes |
| CalendarProperties.FoldingRoundTrip | crates/pond-adapters-caldav/src/ics.rs:17-32 | lines folded at any positions (section 3.1 of RFC 5545), ended with a carriage return or without, unfold to exactly their texts |
| CalendarProperties.PrintedLinesComeBack | crates/pond-adapters-caldav/src/ics.rs:18-81 | escaped, folded lines come back through unfolding and parsing |
| CalendarProperties.QuotedNameIsRead | crates/pond-adapters-caldav/src/ics.rs:101-109 | a quoted common name is the participant's name, whatever the address |
| CalendarProperties.AddressIsRead | crates/pond-adapters-caldav/src/ics.rs:110-115 | without a common name it is the address, with or without its scheme |
| CalendarProperties.NameAmongParameters | crates/pond-adapters-caldav/src/ics.rs:101-109 | the first common name that is not empty is the participant's, quoted or not, wherever it stands among the parameters |
| CalendarProperties.AddressWithoutName | crates/pond-adapters-caldav/src/ics.rs:110-115 | where nobody is named it is the address without its scheme, and nobody for an empty address |
| CalendarEvents.CalendarIsRead | crates/pond-adapters-caldav/src/ics.rs:119-224 | a calendar of any printed events, folded anywhere, reads as one item for each event with a readable start: id, start, title, wording of place and description, and people once each |
| CalendarEvents.InstancesHaveTheirOwnIds | crates/pond-adapters-caldav/src/ics.rs:148-152 | two events with one UID get one id exactly when they have the same recurrence id or both none |
| Text.TrimTakesTheMiddle | crates/pond-adapters-caldav/src/ics.rs:132 | trimming takes all white space off both ends and nothing else |
| Text.TrimOfBlank | crates/pond-adapters-caldav/src/ics.rs:153 | nothing is left of white space alone |
| Text.CaseIsFolded | crates/pond-adapters-caldav/src/ics.rs:175 | folding case pairs the letters of the two alphabets and leaves every other character alone |
| Text.SpacesAreListed | crates/pond-adapters-caldav/src/ics.rs:132 | white space is the 25 code points with that property, one by one |
| Bits.PowerOfTwoTest | scripts/models/vision_pairings.py:404 | the bit test passes exactly for powers of two |
| Bits.AlignUpIsLeastMultiple | scripts/models/vision_pairings.py:429 | for a power of two the bit expression is the least multiple at or above the position |
| GgufRoundTrip.AcceptedAlignments | scripts/models/vision_pairings.py:404-405 | the walk accepts exactly the positive powers of two as alignment |
| GgufReader.Reader.Skip | scripts/models/vision_pairings.py:327-330 | moves past exactly that many bytes, or is short and stays |
| GgufReader.Reader.Take | scripts/models/vision_pairings.py:332-335 | returns exactly the next bytes and moves past them, or is short |
| GgufReader.Reader.Number | scripts/models/vision_pairings.py:337-338 | the little-endian number in the next bytes |
| GgufReader.Reader.Chars | scripts/models/vision_pairings.py:340-341 | the bytes of a length-prefixed string |
| GgufReader.Reader.Value | scripts/models/vision_pairings.py:383-399 | a value of a known type, arrays skipped exactly, unknown types refused |
| GgufReader.Reader.TensorEnd | scripts/models/vision_pairings.py:408-427 | the end of a tensor's data, or which check refuses it |
| GgufReader.Reader.DataEnd | scripts/models/vision_pairings.py:402-429 | the aligned end of the header plus the largest tensor end, or why there is none |
| GgufReader.ParseGguf | scripts/models/vision_pairings.py:432-466 | the walk over positions computes the head that the grammar of the format gives, on every input |
| GgufProperties.MoreBytesChangeNothing | scripts/models/vision_pairings.py:322-341 | a head that is not short stays the same when bytes are added, but for the byte count |
| GgufProperties.RepeatConsumes | scripts/models/vision_pairings.py:322-341 | a repeated read that takes some bytes at a time gets no more values than there are bytes for, however large the count |
| GgufProperties.TextsAreBounded | scripts/models/vision_pairings.py:389-391 | a walk over texts gets at most one text for every eight remaining bytes |
| GgufProperties.KeysAreBounded | scripts/models/vision_pairings.py:447-450 | each key takes at least 13 bytes |
| GgufProperties.TensorsAreBounded | scripts/models/vision_pairings.py:407-428 | each tensor takes at least 32 bytes |
| GgufRoundTrip.HeaderRoundTrip | scripts/models/vision_pairings.py:432-466 | every printable header, in the printer's own type codes, widths and block sizes, is read back: version, counts, keys, where the data ends, and as alignment the number under the last key of that name, else 32 |
| GgufAccepted.AcceptedWasPrinted | scripts/models/vision_pairings.py:432-466 | every buffer in which the walk finds the end of the data begins with a printed header |
| GgufAccepted.AcceptsExactlyThePrinted | scripts/models/vision_pairings.py:432-466 | it finds it in exactly the printed headers whose keys give a usable alignment |
| GgufRoundTrip.ArrayOfPut | scripts/models/vision_pairings.py:386-396 | a printed array is skipped exactly |
| GgufRoundTrip.LargestIsMaximum | scripts/models/vision_pairings.py:406-428 | the end that counts is the greatest of the tensors' ends |
| GgufRoundTrip.LastOfANameCounts | scripts/models/vision_pairings.py:450 | of keys with one name the last one counts |
| GgufRoundTrip.DistinctNamesAllStay | scripts/models/vision_pairings.py:450 | with distinct names every key stays, and nothing else is in the table |
| PairingTable.Pick | scripts/models/vision_pairings.py:770-776 | the retry loop ends, with the preferred name, the stem, or the first free numbered one |
| PairingTable.ReadDirs | scripts/models/vision_pairings.py:749-754 | the first usable directory of each key and of each repository |
| PairingTable.AssignDirs | scripts/models/vision_pairings.py:746-779 | every pairing and nothing else gets a directory, and no two the same |
| PairingTable.EveryPairingHasItsOwnDir | scripts/models/vision_pairings.py:746-779 | the allocation is total and injective, whatever the table holds |
| PairingTable.KnownPairingKeepsItsDir | scripts/models/vision_pairings.py:747-748 | a pairing in the table keeps its directory whatever others come or go, when no two of the pairings are given one |
| PairingTable.AllKnownKeepExactly | scripts/models/vision_pairings.py:747-748 | all pairings in the table keep their directories exactly when it gives no two of them the same |
| PairingTable.AheadShrinks | scripts/models/vision_pairings.py:772-775 | each retry leaves fewer taken names ahead, so the loop ends |
| PairingTable.OrderIsOfPairings | scripts/models/vision_pairings.py:767 | the allocation order holds each pairing once, with its own priority |
| PairingOrder.StandingIsPriority | scripts/models/vision_pairings.py:756-764 | the sort keys put one pairing strictly before another exactly when it stands before it in that order |
| PairingOrder.FirstIsServedFirst | scripts/models/vision_pairings.py:756-767 | pairings of the table are served first, then those of its repositories, then explicit ones in their order, then the rest by author, and by name where that leaves them level |
| PairingOrder.NameGoesToTheFirst | scripts/models/vision_pairings.py:747-748 | whoever stands behind a pairing never gets the name that pairing asks for |
| PairingOrder.NamesInTurn | scripts/models/vision_pairings.py:770-776 | a pairing gets the name it asks for, else the author's name in front, else the least free number, and each name it is refused belongs to one that does not stand behind it |
| PairingNames.WhatIsAskedFor | scripts/models/vision_pairings.py:749-771 | a pairing asks for the first usable directory of its lines, else of its repository's lines, else for the repository's name in lower case without its -GGUF, and its second choice has the author in front |
| PairingNames.NamesOfRepo | scripts/models/vision_pairings.py:536-537 | the bare name and the name with the author, however the repository is spelled |
| PairingNames.RankIsLastPlace | scripts/models/vision_pairings.py:805-806 | a listed name ranks by where it was listed last, whatever its letter case |
| PairingNames.NumberedIsPrinted | scripts/models/vision_pairings.py:772-774 | a numbered name is the stem, a dash and the number's decimal digits without a leading zero |
| PairingOrder.KnownKeepsExactly | scripts/models/vision_pairings.py:747-748 | who takes a directory from a pairing of the table stands before it, and asks for it or falls back on it |
| PairingOrder.KnownKeepsUnlessShared | scripts/models/vision_pairings.py:747-748 | when no other could fall back on it, exactly when no pairing before it asks for the same directory |
| PairingOrder.ASharedDirIsLost | scripts/models/vision_pairings.py:749-776 | a table of two lines with one directory, of which the second pairing loses it |
| PairingLines.TablePairingKeepsItsDir | scripts/models/vision_pairings.py:747-748 | a pairing whose line is in the table keeps that line's directory |
| PairingLines.EveryDirIsUsable | scripts/models/vision_pairings.py:723-724 | every directory handed out is one the next run reads back |
| PairingLines.BuildLines | scripts/models/vision_pairings.py:803-818 | one line for each pairing, with everything it says written out, sorted by repository and file; a line keeps its predecessor's date exactly when nothing else in it changed, else it has today's |
| PairingLines.DateIsRight | scripts/models/vision_pairings.py:812-816 | the date is the predecessor's if that is a date and all else agrees, and today's in every other case |
| PairingLines.TableSaysAll | scripts/models/vision_pairings.py:803-818 | the specified table holds exactly one such line for each pairing, in order |
| Sorting.StringLeExactly | scripts/models/vision_pairings.py:818 | strings are ordered by the first character in which they differ, a prefix first |
| PairingLines.TableHasOneDirPerKey | scripts/models/vision_pairings.py:746-748 | in a generated table keys and directories correspond one to one |
| PairingLines.RegenerationIsAFixedPoint | scripts/models/vision_pairings.py:803-818 | a run over its own output changes nothing, on any day: directories, dates and order |
| Encoding.PrependLen | scripts/pond_cpace.py:154-160 | the loop writes the length seven bits a byte before the data |
| Encoding.LebIsSelfDelimiting | scripts/pond_cpace.py:154-160 | a length can be read off whatever follows it |
| Encoding.PrefixedIsSelfDelimiting | scripts/pond_cpace.py:154-160 | a prefixed part can be read off whatever follows it |
| Encoding.LvCatIsInjective | scripts/pond_cpace.py:163-164 | equally many parts encoded alike, before any suffixes, are the same parts |
| Encoding.GeneratorStringIsInjective | scripts/pond_cpace.py:167-169 | the generator string determines the secret, the channel and the session |
| Encoding.SecretFillsABlock | scripts/pond_cpace.py:168-169 | the first three parts fill at least 128 bytes, and exactly 128 when the first two fit in 127 |
| Encoding.ChannelIdentifierIsInjective | scripts/pond_cpace.py:185-186 | a channel belongs to one kind of credential, one pin and one client |
| Cpace.Mul | scripts/pond_cpace.py:79-86 | double-and-add gives the scalar multiple in any commutative group, encoded as repeated addition is |
| Cpace.TimesCommutes | scripts/pond_cpace.py:79-86 | multiplying by two scalars does not depend on their order |
| Cpace.ScalarMultVfy | scripts/pond_cpace.py:176-182 | the encoded product, exactly when the share decodes and the product is not the identity |
| Cpace.SharedPointAgrees | scripts/pond_cpace.py:176-182 | both ends reach the same point from each other's shares, or both refuse, and that only at the identity |
| Cpace.Respond | scripts/pond_cpace.py:201-213 | the phone's share and keys from its code, or none for an invalid share; that the code matters is `OnlyTheCodePairs` |
| Cpace.Responder.Confirm | scripts/pond_cpace.py:215-219 | the phone's tag over both shares |
| Cpace.Responder.VerifyServer | scripts/pond_cpace.py:221-222 | accepts exactly the Pond's tag |
| Cpace.Initiator.constructor | crates/pond-infra/src/pairing_cpace.rs:302-305 | the Pond's share is the generator of its code times its scalar; that the code matters is `OnlyTheCodePairs` |
| Cpace.Initiator.Finish | crates/pond-infra/src/pairing_cpace.rs:313-324 | refuses an invalid share or a wrong tag, and otherwise derives the run |
| Cpace.HonestRunAgrees | crates/pond-infra/src/pairing_cpace.rs:313-324 | with the same secret, channel and session both ends derive the same keys and accept each other, unless the scalars hit the identity |
| Cpace.HonestRunSucceeds | scripts/pond_cpace.py:189-195 | in a group of prime order, with scalars in the sampled range, it fails only on a generator that is the zero element |
| Cpace.OnlyTheCodePairs | scripts/pond_cpace.py:172-222 | in a group of prime order the Pond accepts a phone only if both hold the same code, pin, client, kind of credential and session, or the hash, the map to the group or the MAC collides at inputs the two computed |
| Cpace.Pair | scripts/pond_cpace.py:198-222 | a whole run of both ends: with the same setup both accept, unless the generator is the zero element; with another code, pin, client, credential or session they do not pair without such a collision |
| Cpace.IskInputIsInjective | scripts/pond_cpace.py:210 | the session key's input determines session, shared point and both shares |
| Cpace.MacInputIsInjective | scripts/pond_cpace.py:212 | the MAC key's input determines session and session key, although the session has no length in front |
| Cpace.TagsBindTheRun | scripts/pond_cpace.py:210-222 | equal tags mean the same tag of the same run, or a collision of the hash or the MAC at inputs the runs computed |
| Cpace.NoReflection | scripts/pond_cpace.py:218-222 | the Pond's tag never passes for the phone's without a collision of the MAC |
| StorageLock.EveryNodeIsRespected | matter-server/src/storageLock.ts:99-111 | Node from any directory, under any versioned name and arguments, counts as a possible controller |
| StorageLock.LiveOwnerIsRespectedExactly | matter-server/src/storageLock.ts:104-141 | a live owner of an unrecorded lock is respected exactly when it runs Node or its command line names the store; any other is reclaimed as a reused pid |
| StorageLock.SpacesAreListed | matter-server/src/storageLock.ts:100 | what JavaScript trims and splits at, one by one |
| StorageLock.StorageDirectory.ReclaimStaleStorageLock | matter-server/src/storageLock.ts:242-275 | a lock that is to be reclaimed loses its pid file and then itself, as far as the unlinks work; without a lock nothing changes |
| StorageLock.StorageDirectory.RecordStorageLockBoot | matter-server/src/storageLock.ts:281-300 | a record is written only for this process's own lock, with its token and boot |
| StorageLockProtocol.StepKeepsInv | matter-server/src/storageLock.ts:242-300 | every start, look, take, record, exit, crash and power cut keeps the invariant on tokens, records and holders |
| StorageLockProtocol.ReclaimsOnlyStaleLocks | matter-server/src/storageLock.ts:108-141 | a lock is never reclaimed while a live controller has the store open |
| StorageLockProtocol.NeverTwoControllers | matter-server/src/storageLock.ts:10-12 | in any run from any files at most one live controller has the store open |
| StorageLockProtocol.RunKeepsRecord | matter-server/src/storageLock.ts:277-294 | a record lasts over any run in which the process that wrote it goes on |
| StorageLockProtocol.RecordedLockIsReclaimed | matter-server/src/storageLock.ts:121-131 | a lock that is recorded when the power fails is reclaimed by the first controller that looks, whatever has the pid, and that one can take it |
| StorageLockProtocol.PowerCutIsSurvived | matter-server/src/storageLock.ts:277-280 | so it is when the power fails any time after a controller recorded its boot, with the store open or just after it died |
| StorageLockProtocol.RespectedMeansHonoured | matter-server/src/storageLock.ts:238-241 | a lock that is respected is one that matter.js then refuses to take |
| StorageLockProtocol.LockStands | matter-server/src/storageLock.ts:114-141 | a lock is respected exactly when its pid is another live process not seen to be no controller, and no record is seen to be of an earlier boot |
| SoundLevels.FirstMeant | crates/pond-adapters-audio-devices/src/sound_server.rs:300-313 | the first node that the device means, or none if no node does |
| SoundLevels.SoundServer.RaiseSide | crates/pond-adapters-audio-devices/src/sound_server.rs:391-426 | the levels and the log of one side are those of the specification, whichever commands fail |
| SoundLevels.SoundServer.RaiseLevels | crates/pond-adapters-audio-devices/src/sound_server.rs:381-432 | the speaker's changes and then the microphone's, nothing without an answer |
| SoundLevels.SoundServer.RestoreLevels | crates/pond-adapters-audio-devices/src/sound_server.rs:434-441 | the log is replayed from its end, past failures |
| SoundLevels.RestoreUndoesRaise | crates/pond-adapters-audio-devices/src/sound_server.rs:434-441 | whatever commands failed while raising, a restore that works puts back every level of every node |
| SoundLevels.EachUndoStandsAlone | crates/pond-adapters-audio-devices/src/sound_server.rs:434-441 | a level whose undo works is back even if others fail, and every other level is as raising left it |
| SoundLevels.RaisingOnlyRaises | crates/pond-adapters-audio-devices/src/sound_server.rs:379-426 | raising only unmutes and only turns up, at most to the natural level and 100%, and touches no node but the first on its device's route, so never a monitor |
| SoundLevels.MeantNodesAreRaised | crates/pond-adapters-audio-devices/src/sound_server.rs:391-426 | the first node on each device's route is unmuted and at its natural level or above, each as far as its own command works |
| SoundLevels.LogTellsTheChanges | crates/pond-adapters-audio-devices/src/sound_server.rs:402-422 | the log tells of exactly the levels that changed, each as it was and as it became, volumes as the nearest percentage |
| SoundLevels.ChosenIsAt | crates/pond-adapters-audio-devices/src/sound_server.rs:392-397 | the node raised is a listed one that the device means and that the pond's sound passes through |
| EditDistance.Edits | scripts/voice-bench/score.py:31-38 | the rolling two rows end at the least cost of all edit scripts |
| EditDistance.DistanceIsLeastCost | scripts/voice-bench/score.py:31-38 | the recurrence is the cost of some script, and no script is cheaper |
| EditDistance.CheapestScript | scripts/voice-bench/score.py:31-38 | a script of that cost that turns one sequence into the other |
| EditDistance.NoCheaperScript | scripts/voice-bench/score.py:31-38 | every script costs at least that much |
| EditDistance.DistanceIsSymmetric | scripts/voice-bench/score.py:31-38 | the distance is the same both ways |
| EditDistance.ZeroExactlyOnEqual | scripts/voice-bench/score.py:31-38 | it is zero exactly on equal sequences |
| EditDistance.DistanceBounds | scripts/voice-bench/score.py:31-38 | it lies between the difference of the lengths and the longer length |
| EditDistance.TriangleInequality | scripts/voice-bench/score.py:31-38 | a detour is never shorter |

## Left out

- HTTP, TLS, sockets, subprocesses and file formats: a target address, a profile map, a key text,
  preferences, a pid file and what `pactl` prints are taken as already parsed, or their parsers
  are parameters.
- Curve arithmetic, the map to the curve, SHA-512 and HMAC: an abstract commutative group with one
  encoding for each element, and functions as parameters. Constant time is not modelled.
- ConnectProxy.Proxy.Admit: the credential comparison is one boolean, and the peer one parsed value.
- ConnectProxy.Proxy.SetTargets: parsing and loading the list happen before the lock and touch
  nothing shared, so the whole call is one step. The listener's cap on connections is not modelled.
- IdentityStore.Persist: an unsynced directory entry lost in a power cut is not modelled; crashes
  stop the process and completed operations stay visible. Invalid UTF-8 in a state key, which JSON
  would replace, is not modelled either.
- IdentityStore.ValidateIdentity: the names of the upstream state keys are those of the `ipn`
  package, which is not part of this model.
- OpenProtocol.OneCoordinator: stated for runs in which nobody deletes the state file; with
  deletions see `OneCoordinatorWhenMarked`.
- OpenProtocol.MachineKeyNeverChanges: stated for runs in which nobody deletes the state file;
  what a deletion can and cannot lead to is `MachineKeySurvivesDeletion`, `NoKeyAfterTheMarker`
  and `LossIsNoNewInstallation`.
- The checks of `Open` on its directory, host name and coordinator address, and everything after
  the identity is ready.
- Multistatus.ParseMultistatus: events are taken as the XML reader gives them; a reader error is
  one event, and decoding a text either works or does not.
- Calendar.EventsFromIcs: date parsing and the wording of a date are parameters.
- CalendarProperties.PrintedLinesComeBack: white space at the ends of a whole line, which the
  event loop trims before parsing, is outside this round trip.
- PairingTable.ReadDirs: lines are those a loaded table holds, with a repository name in each. A
  file name that is no string is a value like any other here, where Python would refuse to hash
  some; and lower case is ASCII, which is all a repository name holds.
- PairingLines.BuildLines: the label of a repository and what counts as a date are parameters, and
  pinning a revision, which asks the network, happens before. A repository id is an author, a slash
  and a name; the newline that the source's pattern lets end one is not modelled.
- GgufReader.ParseGguf: decoding of names is a parameter and scalars are kept as their bytes; the
  lookups by key suffix and the encoder checks around the walk are left out.
- Cpace.Responder.VerifyServer: tags are compared as bytes, without their hex form.
- Cpace.TagsBindTheRun: no hash is free of collisions, so the claim names the collision that a
  wrong acceptance would be.
- Cpace.OnlyTheCodePairs: likewise; the limit on wrong codes is not modelled.
- CalendarEvents.CalendarIsRead: printed values have no white space at their ends; what becomes of
  it is `TrimTakesTheMiddle`.
- PairingOrder.KnownKeepsExactly: names who takes a directory through what the allocator hands out;
  the condition that can be read off the table is `AllKnownKeepExactly`.
- StorageLockProtocol.NeverTwoControllers: looking at a lock and unlinking it is one step, and so
  is creating it with its pid file; live pids, tokens and boot ids are unique.
- SoundLevels.RestoreUndoesRaise: the server names the nodes of a side apart, a failed command has
  no effect, nobody else changes levels in between, and a node has one volume.
- Creating authorities and devices, the audio supervisor, virtual device names, suspending nodes,
  setting default devices, rendering of benchmarks and everything numerical in the audio code.
