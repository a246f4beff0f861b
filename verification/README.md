# Verified model of the WSLg application list, process monitor and font monitor

The remote application list protocol lets a Linux distribution publish its applications in the
Windows Start menu. The sender in `rdpapplist` encodes PDUs; the receiver in `WSLDVCPlugin`
decodes them, writes shell links and icons, and keeps a table of what it wrote. A *sync* bracket
makes it forget everything the sender no longer reports. Two smaller state machines live in
`WSLGd`: a monitor that launches exited processes again, and one that follows font directories.

The modules, bottom up:

| module | what it models |
|---|---|
| `Wire`, `Protocol` | bytes, the PDUs of the sender, the messages of the receiver, the format as field tables |
| `Codec` | what the sender's bytes mean to the receiver |
| `Sender`, `Reader` | the two-pass encoders and the cursor-advancing decoders, imperatively |
| `FileSystem`, `FileDB` | a tree of directories, links and files; the ordered file table and the recursive walk |
| `Receiver` | the effect of each message as functions on the whole receiver state |
| `Callback` | the channel callback as an object, proved to refine `Receiver` |
| `Runs`, `Sync`, `EndToEnd`, `SyncExamples` | properties of whole runs, of a sync bracket, of a bracket sent as bytes, and two smallest brackets |
| `CloseRace` | OnDataReceived against OnClose as interleaved atomic steps |
| `ServerLoop` | the server's receive loop with its repositioning |
| `ProcessMonitor` | the child table and the sliding window of exits |
| `FontTracking`, `FontOrphans`, `FontRuns` | the font monitor against a changing tree: what it never misses, when it loses a folder, runs without loss |
| `FontPath` | the font monitor against the X font path |

Outside calls (the registry, COM, the shell, the clock, fork, xset, inotify) are parameters that
may succeed or fail freely: `Receiver.Env`, `FileSystem.Faults`, `ProcessMonitor.Exit`,
`FontPath.Scan` and `FontPath.Op`, the actions of `FontTracking`.

Where the code does not meet an expectation, the code is kept and the exact condition is proved:

- A string of 511 or 512 bytes, an empty required one, or a missing required flag can be sent and
  is not received; the unique id is sent unchecked (`Codec.SendableButNotReceivable`).
- The body of DELETE_APPLIST_PROVIDER is never consumed (`Runs.DeleteProviderDesynchronises`).
- A provider name keeps the tail of a longer earlier one (`Runs.ProviderNameExact`).
- A bracket whose last update carries SYNC_END but not SYNC sweeps the old link it has just
  re-made (`SyncExamples.SilentUpdateLosesItsLink`; exactly when, `Sync.SurvivingLinks`).
- A second OnClose dereferences the nulled table (`CloseRace.CrashExactlyWithTwoClosers`).
- An accepted caps PDU that declares length 0 keeps the server loop running forever
  (`ServerLoop.ZeroLengthHangs`; exactly when, `ServerLoop.LoopTerminatesExactly`).
- A relaunched child whose pid is not fresh is lost (`ProcessMonitor.RelaunchKeepsCountExactly`).
- No existing directory below a watched folder is ever missed (`FontTracking.NothingIsMissed`), but
  a folder can stay tracked by a dead watch for good, and then nothing below it is followed
  (`FontRuns.EarlyReturnLosesAFolder`; exactly when, `FontOrphans.TrackingIsExact`).

`dafny verify dfyconfig.toml` checks the whole project.

## Model

| member | source | states |
|---|---|---|
| Codec.AcceptedLanguage | WSLDVCPlugin/WSLDVCCallback.cpp:40-342 | of everything the sender can emit, the receiver accepts exactly the PDUs whose required flags are set, whose required strings are nonempty and whose present strings are at most 510 bytes (plus, for an icon, a file size below 2^32); an accepted one yields the stated message and leaves what follows unread |
| Codec.StreamRoundTrip | rdpapplist/server/rdpapplist_main.c:309-610 | decoding the concatenated encodings of any list of well-formed CAPS (version 4 on), UPDATE, DELETE and ASSOCIATE PDUs gives the same list with nothing left over, although no length field is consulted |
| Codec.AcceptedReencodes | WSLDVCPlugin/rdpapplist.h:126-180 | whatever bytes were accepted, a received UPDATE, DELETE or ASSOCIATE with even string lengths encodes back to exactly the bytes consumed |
| Sender.SendUpdateApplist | rdpapplist/server/rdpapplist_main.c:344-455 | for every flag combination: refused exactly for an oversized selected string or a missing icon; otherwise the bytes are the encoding, and the measured size is header.length and the stream capacity, equal to the bytes written if and only if the sum does not wrap 2^32 |
| Sender.OnlyHugeIconsWrap | rdpapplist/server/rdpapplist_main.c:247-455 | the UINT32 length wraps for exactly one family: an UPDATE whose icon bits reach 2^32 - 40 less the strings |
| Callback.WSLDVCCallback.OnDataReceived | WSLDVCPlugin/WSLDVCCallback.cpp:993-1080 | the receive loop, on objects and in place, leaves the state and the result of the functional receiver on the whole buffer, and the same permanent table object |
| Runs.StepAdvances | WSLDVCPlugin/WSLDVCCallback.cpp:1011-1074 | a message that succeeds leaves a suffix of the buffer shorter by at least its 8-byte header; every readable header counts once |
| Runs.MessagesBound | WSLDVCPlugin/WSLDVCCallback.cpp:1011-1074 | a buffer of n bytes is taken for at most n / 8 messages |
| Runs.BatchingEquivalence | WSLDVCPlugin/WSLDVCCallback.cpp:993-1080 | if every call succeeds, one OnDataReceived on the joined buffers leaves exactly the state of one call per buffer |
| Runs.StreamEffect | WSLDVCPlugin/WSLDVCCallback.cpp:1011-1074 | a sender stream of framed PDUs has exactly the effect of its messages handled one by one in order, up to the first failure |
| Runs.NothingBeforeHandshake | WSLDVCPlugin/WSLDVCCallback.cpp:1022-1062 | over any run of arriving buffers and closes: until a caps reply was written, no handshake, empty table, no sync, no window update, and no file created, changed or deleted |
| Runs.SyncOverRuns | WSLDVCPlugin/WSLDVCCallback.cpp:344-382 | over any run of buffers and closes, with messages failing anywhere in between, the sync table exists exactly if it was started at some point at or after which no update completed an end and the channel was not closed |
| Runs.ClosedForGood | WSLDVCPlugin/WSLDVCCallback.cpp:1082-1100 | after OnClose no buffer that still arrives changes anything, so a sync cut short deletes no file |
| Runs.DeleteUndoesUpdate | WSLDVCPlugin/WSLDVCCallback.cpp:776-845 | DELETE of the same group and id undoes any successful UPDATE under a fresh key and fresh paths, in sync mode or not: the table and every field but sync mode are as before, and the files are those before less what the own sweep of an update that ends a sync took |
| Runs.DeleteProviderDesynchronises | WSLDVCPlugin/WSLDVCCallback.cpp:1054-1057 | for all flags: the body of DELETE_APPLIST_PROVIDER is received as the next message with the flags for its command id. With flags 1 to 5 that command is carried out on what follows; otherwise, as whenever they announce the name, the rest of the buffer is lost without effect |
| Runs.ProviderNameExact | WSLDVCPlugin/WSLDVCCallback.cpp:414-421 | the name copied over the previous one is stored as sent if and only if the old array already ends there (for an odd length: if the next old unit is below 256) |
| Runs.AssociateAfterUpdate | WSLDVCPlugin/WSLDVCCallback.cpp:874-987 | a window of an updated application gets the executable, a space, and that update's command line spelled from the message fields, and the spelled path of its icon; it is refused only for a zero id or a command of MAX_PATH or more |
| Runs.CapsOutcome | WSLDVCPlugin/WSLDVCCallback.cpp:414-525 | a successful caps exchange leaves a version 4 handshake, one more reply, the parsed GUID, the menu, icon and wslg.exe paths spelled from environment and provider name, both folders in place and a name without two dots, quote or space; the name is the one sent exactly if the old array ended there; one that fails before the reply leaves an earlier handshake standing |
| Sync.MarkAndSweep | WSLDVCPlugin/WSLDVCCallback.cpp:344-382 | for any bracket and any failures: the links afterwards are old plus written minus (snapshot minus reported minus undeletable), and no other file is gone |
| Sync.MarkAndSweepFolders | WSLDVCPlugin/WSLDVCFileDB.cpp:303-336 | of the folders there just before the sweep: one that held nothing but swept files is gone at the end of the bracket, one that is gone directly held a swept file |
| EndToEnd.ForgottenFolderGoes | WSLDVCPlugin/WSLDVCCallback.cpp:344-382 | a folder that at the start of a bracket held nothing but files nobody reports, and into which the updates put nothing, is gone at its end |
| Sync.SurvivingLinks | WSLDVCPlugin/WSLDVCCallback.cpp:757-771 | with working file operations the menu holds the reported links and the new ones, and it holds exactly the links of the successful updates if and only if none of them re-made an old link without reporting it |
| Sync.SyncKeepsExactlyReported | rdpapplist/rdpapplist_protocol.h:54-59 | the intent of the protocol: in a bracket whose successful updates carry HINT_SYNC, the links left below the menu are exactly those of its successful updates |
| Sync.NoDanglingIcons | WSLDVCPlugin/WSLDVCCallback.cpp:735-766 | after such a bracket every updated link exists and has no icon or an icon file that survived the sweep, with shared icons and failed icon writes |
| EndToEnd.StreamLeavesItsLinks | rdpapplist/rdpapplist_protocol.h:54-59 | from bytes to Start menu: a sync bracket encoded into one buffer and received without failure leaves exactly the links menu[\\group]\\description.lnk its PDUs name, whatever was there before, provided saves and deletions succeed and nothing on the disk or in the stream occupies a path of theirs |
| SyncExamples.SilentUpdateLosesItsLink | WSLDVCPlugin/WSLDVCCallback.cpp:757-771 | a bracket of one update that carries SYNC_START and SYNC_END but not SYNC, over a menu that holds its link: it succeeds and writes the link, and its own sweep deletes it |
| SyncExamples.HintedUpdateKeepsItsLink | WSLDVCPlugin/WSLDVCCallback.cpp:757-771 | the same update with SYNC keeps the link |
| SyncExamples.HintedStreamKeepsItsLink | rdpapplist/rdpapplist_protocol.h:54-59 | the same as bytes: all premises of the end-to-end result are met and the link is in the menu |
| FileDB.WSLDVCFileDB.AddAllSubFolderFiles | WSLDVCPlugin/WSLDVCFileDB.cpp:350-398 | the recursive walk terminates, adds exactly the .lnk files at any depth and the icons of those that can be read, and removes exactly the removable empty directories |
| FileSystem.SweepExact | WSLDVCPlugin/WSLDVCFileDB.cpp:303-336 | the sweep deletes exactly the listed deletable files, changes no other file, and a directory that is gone has nothing in it |
| FileSystem.EmptiedDirectoryGoes | WSLDVCPlugin/WSLDVCFileDB.cpp:318-329 | a removable directory whose children are one or more files, all swept, is gone after the sweep |
| FileSystem.GoneDirectoryHeldAFile | WSLDVCPlugin/WSLDVCFileDB.cpp:318-329 | a directory the sweep removed directly held a file it deleted |
| FileSystem.PruneExact | WSLDVCPlugin/WSLDVCFileDB.cpp:350-398 | the walk removes exactly the removable directories below the root that were empty |
| FileSystem.SnapshotExact | WSLDVCPlugin/WSLDVCFileDB.cpp:350-398 | listed are exactly the .lnk files below the root and the icons of the readable links among them |
| FileDB.InsertRefines | WSLDVCPlugin/WSLDVCFileDB.cpp:57-65 | insertion into the set ordered by file id alone refines a partial map: a new key is added, a known one changes nothing, order is kept |
| FileDB.EraseRefines | WSLDVCPlugin/WSLDVCFileDB.cpp:185-223 | erasing refines removal of the key, order is kept |
| CloseRace.CrashExactlyWithTwoClosers | WSLDVCPlugin/WSLDVCCallback.cpp:1003-1097 | over all interleavings of any number of receiving threads, a use of the nulled table is possible if and only if OnClose can run twice |
| CloseRace.CloseIsSafe | WSLDVCPlugin/WSLDVCCallback.cpp:1085-1097 | with at most one closing thread no interleaving uses the table after it was nulled |
| CloseRace.NoMessageStartsAfterClose | WSLDVCPlugin/WSLDVCCallback.cpp:1011-1077 | once the flag is set the count of messages begun never moves again on any thread; whoever is in a message later is in the very one, with no more of it to do, that it was in when the flag was set, and that is at most one thread |
| CloseRace.MessageOrigin | WSLDVCPlugin/WSLDVCCallback.cpp:1011-1071 | a thread is in a message after a step only because it was in that one before, nearer to its end if it acted, or because it just read the flag at the loop condition and found it clear |
| CloseRace.StartsOnlyWhenOpen | WSLDVCPlugin/WSLDVCCallback.cpp:1011-1071 | the count of messages begun goes up by one at most, and only while the flag is clear |
| ServerLoop.LoopTerminatesExactly | rdpapplist/server/rdpapplist_main.c:174-188 | told from the bytes alone: the message loop terminates unless the callback accepts and following the declared lengths from the start leads through complete caps PDUs to one that declares length 0 |
| ServerLoop.PositiveLengthsTerminate | rdpapplist/server/rdpapplist_main.c:174-188 | it terminates whenever every declared length it can come upon is positive |
| ServerLoop.ZeroLengthHangs | rdpapplist/server/rdpapplist_main.c:104-109 | one accepted 42-byte caps PDU with declared length 0 keeps it running for any number of rounds |
| ServerLoop.LoopSettles | rdpapplist/server/rdpapplist_main.c:174-188 | whether it terminates shows within as many rounds as the buffer has bytes |
| ServerLoop.RepliesRoundTrip | rdpapplist/server/rdpapplist_main.c:72-112 | any number of 42-byte client replies in one buffer is consumed exactly and delivered in order |
| ProcessMonitor.RestartRateBound | WSLGd/ProcessMonitor.cpp:87-124 | with a clock that does not run backwards, in every run, for every command, no closed interval of 60 seconds contains more than 10 relaunches |
| ProcessMonitor.WindowIsHistory | WSLGd/ProcessMonitor.cpp:115-118 | the stored vector is the part of all past exits of that command within 60 seconds of the last, in ascending order |
| ProcessMonitor.RelaunchExactly | WSLGd/ProcessMonitor.cpp:115-124 | an exit is followed by a relaunch if and only if at most 10 exits of the full history lie in the last 60 seconds |
| ProcessMonitor.CommandSpelled | WSLGd/ProcessMonitor.cpp:100-105 | in the key of the crash table every argument stands in full, up to its first NUL, at its own offset with one space behind it, and nothing else |
| ProcessMonitor.CommandInjective | WSLGd/ProcessMonitor.cpp:100-105 | argument lists without spaces and NULs share a restart budget only if they are equal |
| ProcessMonitor.RelaunchIsRecorded | WSLGd/ProcessMonitor.cpp:115-124 | a relaunch is counted exactly if the new child is in the table |
| ProcessMonitor.NotRelaunched | WSLGd/ProcessMonitor.cpp:97-130 | a child that is not launched again is dropped and all others stay; without arguments it is not counted either |
| ProcessMonitor.ChildrenConserved | WSLGd/ProcessMonitor.cpp:98-130 | for every description: children tracked now plus those retired are as many as at the start, in every run with fresh pids |
| ProcessMonitor.RelaunchKeepsCountExactly | WSLGd/ProcessMonitor.cpp:83-127 | because the new entry is inserted before the old one is erased, a relaunch keeps the number of children if and only if fork returned a pid not in the table |
| FontOrphans.TrackingIsExact | WSLGd/FontMonitor.cpp:132-200 | for every run that comes to rest with a root still watched: below it exactly the wanted existing directories are tracked, each by a live watch, if and only if every folder the run lost there was recovered later |
| FontTracking.NothingIsMissed | WSLGd/FontMonitor.cpp:132-200 | in every interleaving of directory creations and removals, scanning and event handling, without proviso: at rest every existing wanted directory below a watched folder is tracked |
| FontTracking.MountTracksOnlyX11 | WSLGd/FontMonitor.cpp:139-142 | at no time is anything but X11 tracked right below the mount |
| FontTracking.RestIsExact | WSLGd/FontMonitor.cpp:132-200 | at rest the tracking below a watched root is exact if and only if no folder there is tracked by a dead watch |
| FontOrphans.StepOrphansExactly | WSLGd/FontMonitor.cpp:162-200 | the exact rule of losing a folder: its directory goes while nobody watches the one above it, or the folder above it is taken away while it is stale; and of recovering it: a removal of it is read, or its directory goes below a watched one |
| FontOrphans.OrphanHistory | WSLGd/FontMonitor.cpp:132-200 | over every run a folder is lost at the end if and only if some action lost it and none after that recovered it |
| FontRuns.HarmlessIsExact | WSLGd/FontMonitor.cpp:162-200 | in runs that never remove a folder with something tracked below it the tracking at rest is exact |
| FontRuns.StepKeepsExactly | WSLGd/FontMonitor.cpp:162-200 | one action keeps the tracked folders joined to their roots if and only if it does not remove a folder above a tracked one (RemoveMonitorFolder erases one entry, not what is below it) |
| FontRuns.PatienceIsHarmless | WSLGd/FontMonitor.cpp:162-200 | no removal does harm in runs where no directory is created again before the event of its removal was read |
| FontRuns.EarlyReturnLosesAFolder | WSLGd/FontMonitor.cpp:132-200 | a concrete run of 17 steps that loses a folder: at rest a directory exists below a watched folder and nothing watches it |
| FontPath.FlagMeansOnFontPath | WSLGd/FontMonitor.cpp:94-115 | in every run a monitored path is on the X font path if and only if its folder is tracked and flagged, or was let go of with a failed removal |
| FontPath.ArrivalPutsOn | WSLGd/FontMonitor.cpp:208-212 | in every run a readable fonts.dir that arrives in a tracked folder puts its path on the font path if xset succeeds, and moves no other path |
| FontPath.DepartureTakesOff | WSLGd/FontMonitor.cpp:213-214 | one that goes takes the path off if xset succeeds, unless an earlier folder of that name left it there and this one never put it on |
| FontPath.UnreadableChangesNothing | WSLGd/FontMonitor.cpp:208-212 | an arrival that cannot be read changes nothing |
| FontPath.FoundPutsOn | WSLGd/FontMonitor.cpp:14-33 | a found folder is tracked exactly if it can be watched, and its path is put on exactly if a fonts.dir is readable and xset succeeds; an unwatchable one takes it off again |
| FontPath.GoneTakesOff | WSLGd/FontMonitor.cpp:162-171 | a folder that goes is tracked no more and takes its path with it |
| FontPath.EntriesAreTracked | WSLGd/FontMonitor.cpp:139-153 | every watchable directory a scan returns is tracked, below the mount X11 alone |
| FontPath.FolderEventTracks | WSLGd/FontMonitor.cpp:173-200 | a directory that comes is tracked under its full path, one that goes is not, and below the mount no name but X11 is added |
| FontPath.StopRestoresExactly | WSLGd/FontMonitor.cpp:310-331 | after Stop the font path is the original one, in its order, if and only if no removal failed for good |
| FontPath.StopRestores | WSLGd/FontMonitor.cpp:14-46 | it is the original one whenever every removal succeeds, including folders whose watch failed in the constructor |
| Wire.U16RoundTrip | rdpapplist/rdpapplist_common.c:37-60 | a 16-bit value written low byte first is read back in front of any bytes |
| Wire.U32RoundTrip | rdpapplist/rdpapplist_common.c:37-60 | the same for 32 bits |
| Wire.U32Rewrite | rdpapplist/rdpapplist_common.c:37-60 | reading 32 bits and writing them gives back the bytes read |
| Wire.WideRoundTrip | WSLDVCPlugin/rdpapplist.h:160-171 | an even-length byte string survives being stored as WCHARs |
| Protocol.ParseString | WSLDVCPlugin/rdpapplist.h:160-171 | a string read leaves a suffix and has room for its terminator; a required one is not empty |
| Codec.StringRoundTrip | WSLDVCPlugin/rdpapplist.h:160-171 | a sent string is read back exactly if it is at most 510 bytes and not an empty required one, and rejected otherwise |
| Codec.FieldsRoundTrip | WSLDVCPlugin/WSLDVCCallback.cpp:104-153 | the same for a whole table of flag-selected strings |
| Codec.IconRoundTrip | WSLDVCPlugin/WSLDVCCallback.cpp:155-255 | icon data is accepted exactly when the headers plus the bits stay below 2^32, and then word for word |
| Codec.CapsLanguage | WSLDVCPlugin/WSLDVCCallback.cpp:70-102 | caps are accepted exactly with a readable name and, from version 4, a readable unique id; before that the id stays unread |
| Codec.UpdateLanguage | WSLDVCPlugin/WSLDVCCallback.cpp:104-153 | the accepted UPDATEs, exactly |
| Codec.DeleteLanguage | WSLDVCPlugin/WSLDVCCallback.cpp:257-294 | the accepted DELETEs, exactly |
| Codec.AssociateLanguage | WSLDVCPlugin/WSLDVCCallback.cpp:296-342 | the accepted ASSOCIATEs, exactly |
| Codec.SendableButNotReceivable | rdpapplist/server/rdpapplist_main.c:309-610 | the whole gap between the sides: a sendable PDU is refused exactly for a missing required flag, a present string of 511 or 512 bytes, an empty required one, an icon file of 2^32 bytes, or a unique id that is empty or over 510 bytes, which the sender never checks |
| Codec.HeaderRoundTrip | WSLDVCPlugin/WSLDVCCallback.cpp:40-68 | the header of every PDU reads back as its command id and its wrapped length |
| Codec.HeaderOnTheWire | rdpapplist/rdpapplist_common.c:55-60 | four bytes of command id, four of length, the body |
| Codec.UpdateOnTheWire | rdpapplist/server/rdpapplist_main.c:410-452 | the body of an UPDATE spelled: flags, then id, group, exec path, working directory and description by their numbered bits, then the icon |
| Codec.AssociateOnTheWire | rdpapplist/server/rdpapplist_main.c:583-608 | the body of an ASSOCIATE spelled |
| Codec.OthersOnTheWire | rdpapplist/server/rdpapplist_main.c:309-532 | the bodies of DELETE, DELETE_APPLIST_PROVIDER and CAPS spelled |
| Codec.IconOnTheWire | rdpapplist/server/rdpapplist_main.c:441-452 | the icon: six words, the number of bytes, the bytes |
| Codec.FieldFlags | rdpapplist/rdpapplist_protocol.h:45-52 | each field flag is the bit the protocol numbers |
| Codec.LittleEndian | rdpapplist/rdpapplist_common.c:55-60 | words and double words go out low byte first |
| Codec.BodyExtend | WSLDVCPlugin/WSLDVCCallback.cpp:1011-1074 | an accepted body is accepted with the same value in front of any further bytes |
| Codec.UpdateReencode | rdpapplist/server/rdpapplist_main.c:410-452 | re-encoding a received UPDATE gives the bytes consumed |
| Codec.DeleteReencode | rdpapplist/server/rdpapplist_main.c:487-499 | re-encoding a received DELETE gives the bytes consumed |
| Codec.AssociateReencode | rdpapplist/server/rdpapplist_main.c:583-608 | re-encoding a received ASSOCIATE gives the bytes consumed |
| Sender.SinglePacketNew | rdpapplist/server/rdpapplist_main.c:247-272 | a stream of the given body length plus 8, with the header written |
| Sender.SendCaps | rdpapplist/server/rdpapplist_main.c:309-337 | the same promise as for updates; only the name is checked |
| Sender.MeasureUpdate | rdpapplist/server/rdpapplist_main.c:346-400 | the first pass refuses exactly the unsendable updates and otherwise computes the body length, wrapped |
| Sender.WriteUpdate | rdpapplist/server/rdpapplist_main.c:410-452 | the second pass appends the body |
| Sender.SendDeleteApplist | rdpapplist/server/rdpapplist_main.c:457-501 | refused, out of memory, or the encoding in a stream of the measured size |
| Sender.SendDeleteApplistProvider | rdpapplist/server/rdpapplist_main.c:503-532 | the same |
| Sender.SendAssociateWindowId | rdpapplist/server/rdpapplist_main.c:534-610 | the same |
| Sender.PacketSize | rdpapplist/server/rdpapplist_main.c:247-272 | body length plus 8 is header.length, and the encoded size exactly when it does not wrap |
| Reader.ReadUINT16 | WSLDVCPlugin/rdpapplist.h:126-135 | pointer and count advance together by 2, or both stay |
| Reader.ReadUINT32 | WSLDVCPlugin/rdpapplist.h:137-146 | pointer and count advance together by 4, or both stay |
| Reader.ReadSTRING | WSLDVCPlugin/rdpapplist.h:160-171 | agrees with the string parse; the caller is untouched on failure |
| Reader.ReadAppListHeader | WSLDVCPlugin/WSLDVCCallback.cpp:40-68 | succeeds exactly with 8 bytes left; otherwise pointer and count are untouched |
| Reader.ReadAppListServerCaps | WSLDVCPlugin/WSLDVCCallback.cpp:70-102 | agrees with the caps parse; the version word is stored even when a later field fails |
| Reader.ReadAppListUpdate | WSLDVCPlugin/WSLDVCCallback.cpp:104-153 | agrees with the parse of the update strings, cursor untouched on failure |
| Reader.ReadAppListIconData | WSLDVCPlugin/WSLDVCCallback.cpp:155-255 | agrees with the icon parse: checked size addition, allocation, bits |
| Reader.ReadAppListDelete | WSLDVCPlugin/WSLDVCCallback.cpp:257-294 | agrees with the delete parse |
| Reader.ReadAssociateWindowId | WSLDVCPlugin/WSLDVCCallback.cpp:296-342 | agrees with the associate parse |
| FileSystem.OperationsKeepTree | WSLDVCPlugin/WSLDVCFileDB.cpp:303-398 | creating, writing, deleting and removing keep every path in an existing directory |
| FileSystem.SweepFileExact | WSLDVCPlugin/WSLDVCFileDB.cpp:303-336 | one sweep step deletes that file at most, and its directory only if that became empty |
| FileSystem.PruneFiles | WSLDVCPlugin/WSLDVCFileDB.cpp:350-398 | the walk leaves every file as it is |
| FileDB.HeadIsLeast | WSLDVCPlugin/WSLDVCFileDB.cpp:57-65 | iterating the ordered set from its front is iterating the ids in ascending order |
| FileDB.WSLDVCFileDB.OnLnkFileAdded | WSLDVCPlugin/WSLDVCFileDB.cpp:93-114 | adds the link and, if it can be looked up, its icon |
| FileDB.WSLDVCFileDB.OnFileAdded | WSLDVCPlugin/WSLDVCFileDB.cpp:116-183 | identical data is a no-op that succeeds, conflicting data fails unchanged, a new key is added |
| FileDB.WSLDVCFileDB.OnFileRemoved | WSLDVCPlugin/WSLDVCFileDB.cpp:185-223 | succeeds exactly for a known key and removes it alone |
| FileDB.WSLDVCFileDB.FindFiles | WSLDVCPlugin/WSLDVCFileDB.cpp:225-294 | succeeds exactly when the key is known and each requested string fits its buffer with a terminator |
| FileDB.WSLDVCFileDB.DeleteAllFileIdFiles | WSLDVCPlugin/WSLDVCFileDB.cpp:303-336 | the iterator loop is the sweep of all ids in ascending order and empties the table |
| FileDB.WSLDVCFileDB.OnClose | WSLDVCPlugin/WSLDVCFileDB.cpp:338-346 | the table is empty |
| FileDB.VisitStep | WSLDVCPlugin/WSLDVCFileDB.cpp:350-398 | visiting one more entry adds it and everything below it, and nothing twice |
| FileDB.WalkShrinks | WSLDVCPlugin/WSLDVCFileDB.cpp:350-398 | a subfolder walk has strictly less below it, so the recursion ends |
| Receiver.Overlay | WSLDVCPlugin/WSLDVCCallback.cpp:414-421 | memcpy of the name keeps the length of the array; no terminator is written |
| Receiver.StepKeepsInv | WSLDVCPlugin/WSLDVCCallback.cpp:1011-1074 | every message keeps all stored strings below MAX_PATH and the tree a tree |
| Receiver.PlanKeeps | WSLDVCPlugin/WSLDVCCallback.cpp:625-733 | building the paths of an update only creates directories and stays within MAX_PATH |
| Receiver.FilePathBound | WSLDVCPlugin/WSLDVCCallback.cpp:625-699 | a built path lies under its base folder, ends in its extension and is shorter than MAX_PATH |
| Callback.WSLDVCCallback.constructor | WSLDVCPlugin/WSLDVCCallback.cpp:24-38 | a fresh callback is the initial state: empty table, no sync, zeroed names |
| Callback.WSLDVCCallback.OnSyncStart | WSLDVCPlugin/WSLDVCCallback.cpp:344-366 | fails if a sync is on or its table cannot be created; otherwise the sync table is the snapshot of the menu tree |
| Callback.WSLDVCCallback.OnSyncEnd | WSLDVCPlugin/WSLDVCCallback.cpp:368-382 | sweeps what is left if asked to, and drops the sync table |
| Callback.WSLDVCCallback.OnCaps | WSLDVCPlugin/WSLDVCCallback.cpp:384-526 | refines the caps function on the parsed message, with the partial effects of each failure |
| Callback.WSLDVCCallback.ApplyUpdate | WSLDVCPlugin/WSLDVCCallback.cpp:573-774 | refines the update function: sync flags, name checks, paths, table, files, end of sync |
| Callback.WSLDVCCallback.MakePlan | WSLDVCPlugin/WSLDVCCallback.cpp:625-733 | refines the path and key building, each concatenation bounded by MAX_PATH |
| Callback.WSLDVCCallback.WriteFiles | WSLDVCPlugin/WSLDVCCallback.cpp:735-766 | writes icon and link and ticks them off the running sync |
| Callback.WSLDVCCallback.OnUpdateAppList | WSLDVCPlugin/WSLDVCCallback.cpp:528-774 | parse and effect together, cursor included |
| Callback.WSLDVCCallback.OnDeleteAppList | WSLDVCPlugin/WSLDVCCallback.cpp:776-845 | refines the delete function; through MAX_PATH buffers the lookup fails only for an unknown key |
| Callback.WSLDVCCallback.OnAssociateWindowId | WSLDVCPlugin/WSLDVCCallback.cpp:874-987 | refines the associate function from version 4 on |
| Callback.WSLDVCCallback.Dispatch | WSLDVCPlugin/WSLDVCCallback.cpp:1022-1073 | one message: caps first, everything else behind the handshake |
| Callback.WSLDVCCallback.OnClose | WSLDVCPlugin/WSLDVCCallback.cpp:1082-1100 | closed, sync dropped without a sweep, table dropped |
| Callback.ClosedUnchanged | WSLDVCPlugin/WSLDVCCallback.cpp:1011-1077 | no message opens or closes the channel |
| Runs.ReceiveConcat | WSLDVCPlugin/WSLDVCCallback.cpp:993-1080 | a buffer received without failure is received the same with more behind it, which then starts where it ended |
| Runs.StepExtend | WSLDVCPlugin/WSLDVCCallback.cpp:1011-1074 | a message that succeeds is handled the same with more bytes behind it |
| Runs.StepGated | WSLDVCPlugin/WSLDVCCallback.cpp:1022-1062 | one message keeps the gate |
| Runs.SyncModeExact | WSLDVCPlugin/WSLDVCCallback.cpp:573-590 | an update ends in sync mode exactly when it was on or could be started and this update did not complete an end |
| Runs.StepMarked | WSLDVCPlugin/WSLDVCCallback.cpp:1011-1074 | the same for one step of the receive loop on any bytes |
| Runs.UpdateFiles | WSLDVCPlugin/WSLDVCCallback.cpp:716-771 | a successful update adds its link and icon to the files and takes away exactly what its own end of a sync swept |
| Runs.UpdateListed | WSLDVCPlugin/WSLDVCCallback.cpp:625-733 | after a successful update the table holds, under group, separator and id, the executable, the command line "-d name --cd "dir" -- exec" and the link and icon paths, all spelled from the message |
| Runs.EditorCommandLine | WSLDVCPlugin/WSLDVCCallback.cpp:707-710 | provider Ubuntu, /usr/bin/gedit, no working directory: the command line stored, letter by letter |
| Runs.UpdateSucceedsExactly | WSLDVCPlugin/WSLDVCCallback.cpp:573-733 | an update succeeds exactly if its hints fit the sync mode, no name holds two dots in a row or a quote, its paths can be built and the table holds no other data under its key |
| Runs.KeyInjective | WSLDVCPlugin/WSLDVCCallback.cpp:716-733 | two pairs of group and id share a key only if they are the same, as long as ids hold no separator |
| Runs.AssociateUnknown | WSLDVCPlugin/WSLDVCCallback.cpp:874-987 | a window of an unknown application gets the message's own command in the home directory, or none without one, and no icon |
| Runs.DeleteExactly | WSLDVCPlugin/WSLDVCCallback.cpp:776-845 | a delete succeeds exactly for a known key and takes that entry, its two files and nothing else |
| Runs.WindowsOnlyFromAssociate | WSLDVCPlugin/WSLDVCCallback.cpp:1058-1065 | no other message updates a window, and none does before a handshake or below version 4 |
| Runs.UpdateKeepsRest | WSLDVCPlugin/WSLDVCCallback.cpp:528-774 | an update touches files, sync set and table and nothing else |
| Runs.StaleProviderName | WSLDVCPlugin/WSLDVCCallback.cpp:414-421 | Ubuntu followed by Deb is stored as Debntu |
| Runs.UnknownCommandFails | WSLDVCPlugin/WSLDVCCallback.cpp:1066-1071 | a command id outside 1 to 5 ends the buffer without effect |
| Sync.UpdateContinues | WSLDVCPlugin/WSLDVCCallback.cpp:573-590 | an update is its sync start followed by the rest |
| Sync.ContinueFails | WSLDVCPlugin/WSLDVCCallback.cpp:592-733 | a failed update leaves files, table and sync set alone |
| Sync.ContinueSucceeds | WSLDVCPlugin/WSLDVCCallback.cpp:735-771 | a successful one stores its files, shrinks the sync set by exactly what it reports and ends the sync if it says so |
| Sync.StoredTree | WSLDVCPlugin/WSLDVCCallback.cpp:735-758 | what writing icon and link does to every file of the tree |
| Sync.RunInSync | WSLDVCPlugin/WSLDVCCallback.cpp:573-771 | over any stretch in sync mode the set shrinks by what is reported and the links grow by what is written |
| Sync.RunIcons | WSLDVCPlugin/WSLDVCCallback.cpp:735-766 | each updated link keeps an icon that exists and is out of the sweep, over any run |
| EndToEnd.HandledIsAfter | WSLDVCPlugin/WSLDVCCallback.cpp:1011-1074 | messages that all succeed leave the state of the updates one after the other |
| EndToEnd.SucceedingBracket | WSLDVCPlugin/WSLDVCCallback.cpp:573-590 | successful updates whose first starts and whose last alone ends a sync form a bracket |
| EndToEnd.BracketLinks | WSLDVCPlugin/WSLDVCCallback.cpp:663-699 | what a succeeding bracket updates are exactly the link paths its messages name |
| EndToEnd.BracketWritten | WSLDVCPlugin/WSLDVCCallback.cpp:663-699 | where nothing stands in the way of the links and saves succeed, a bracket writes every link it updates |
| EndToEnd.ContinueMade | WSLDVCPlugin/WSLDVCCallback.cpp:625-771 | an update makes no directory but its folders and no file but its link and icon |
| CloseRace.NextKeepsSafe | WSLDVCPlugin/WSLDVCCallback.cpp:1003-1097 | every step keeps: a null table means a set flag and nobody in a message |
| CloseRace.TwoClosersCrash | WSLDVCPlugin/WSLDVCCallback.cpp:1085-1097 | two closing threads have a run that uses the nulled table |
| ServerLoop.RecvCapsPdu | rdpapplist/server/rdpapplist_main.c:47-70 | reads version and language exactly, or stops where data ends |
| ServerLoop.ReceivePdu | rdpapplist/server/rdpapplist_main.c:72-112 | after a readable header the position is the declared end, whatever was read |
| ServerLoop.HandleMessages | rdpapplist/server/rdpapplist_main.c:119-191 | the loop as rounds of single PDUs, followed for a given number of them |
| ServerLoop.ReplyReadExactly | WSLDVCPlugin/WSLDVCCallback.cpp:491-517 | the 42-byte caps reply of the client is read to its last byte, so no repositioning happens |
| ServerLoop.StuckOrForward | rdpapplist/server/rdpapplist_main.c:72-112 | a PDU that succeeds moves the position forward unless it declares length 0 |
| ProcessMonitor.Monitor.LaunchProcess | WSLGd/ProcessMonitor.cpp:18-85 | the child is inserted under its pid exactly when fork succeeded |
| ProcessMonitor.Monitor.Run | WSLGd/ProcessMonitor.cpp:87-136 | the reaping loop computes the run function, and stops early only at a wanted fork that failed |
| ProcessMonitor.Monitor.CommandLine | WSLGd/ProcessMonitor.cpp:100-105 | the string the crash table is keyed by |
| ProcessMonitor.RelaunchesAreExits | WSLGd/ProcessMonitor.cpp:115-124 | relaunches in an interval are at most the exits in it |
| ProcessMonitor.ReplacedOneForOne | WSLGd/ProcessMonitor.cpp:83-127 | with a fresh pid the exited child is replaced by one with the same description, all others untouched |
| ProcessMonitor.OnlyOriginalChildren | WSLGd/ProcessMonitor.cpp:98-130 | every tracked child has the description of one launched at the start |
| FontTracking.StartSound | WSLGd/FontMonitor.cpp:262-308 | before anything is tracked the invariant holds |
| FontTracking.AddCompletes | WSLGd/FontMonitor.cpp:132-160 | because the watch is placed before the scan, nothing below a new folder is missed |
| FontTracking.MkdirKeeps | WSLGd/FontMonitor.cpp:223-254 | a new directory is announced to a watched parent; the invariant is kept |
| FontTracking.RmdirKeeps | WSLGd/FontMonitor.cpp:223-254 | a removed one is announced and loses its watch; the invariant is kept |
| FontTracking.CreateKeeps | WSLGd/FontMonitor.cpp:173-200 | handling a creation, or an event of no tracked folder, keeps the invariant |
| FontTracking.RemoveKeeps | WSLGd/FontMonitor.cpp:162-200 | handling a removal keeps it too: if the folder exists after all, the creation that says so is still to be read |
| FontRuns.RemoveBreaks | WSLGd/FontMonitor.cpp:162-171 | a removal above a tracked folder leaves that folder without a tracked parent |
| FontTracking.VisitKeeps | WSLGd/FontMonitor.cpp:143-153 | one entry of a running scan keeps the invariant |
| FontTracking.StepKeepsSound | WSLGd/FontMonitor.cpp:132-254 | every action, at any moment, keeps the invariant |
| FontTracking.RunKeepsSound | WSLGd/FontMonitor.cpp:132-254 | so does every run |
| FontTracking.ExistingIsTracked | WSLGd/FontMonitor.cpp:132-254 | at rest with no stale folder, every wanted directory down to any depth is tracked |
| FontPath.FontFolder.constructor | WSLGd/FontMonitor.cpp:14-33 | the path is put on if a fonts.dir is readable and xset succeeds |
| FontPath.FontFolder.ModifyX11FontPath | WSLGd/FontMonitor.cpp:94-115 | font path and flag change together, only if the flag differs and xset succeeds |
| FontPath.FontFolder.Destroy | WSLGd/FontMonitor.cpp:35-46 | the path is taken off if it was on and xset succeeds |
| FontPath.FontMonitor.AddMonitorFolder | WSLGd/FontMonitor.cpp:132-160 | the recursion over a scan computes the tracking function; an unwatchable folder is dropped and takes its path off |
| FontPath.FontMonitor.RemoveMonitorFolder | WSLGd/FontMonitor.cpp:162-171 | one folder goes, its path taken off if that succeeds |
| FontPath.FontMonitor.HandleFolderEvent | WSLGd/FontMonitor.cpp:173-200 | the event acts on a folder with its descriptor, or on none; below the mount only X11 is added |
| FontPath.FontMonitor.HandleFontsDirEvent | WSLGd/FontMonitor.cpp:202-221 | a fonts.dir that can be read puts its folder's path on, one that went takes it off |
| FontPath.FontMonitor.Stop | WSLGd/FontMonitor.cpp:310-331 | both roots, then the rest in any order: the result does not depend on the order |
| FontPath.ToggleBack | WSLGd/FontMonitor.cpp:94-115 | adding and removing a path restores the font path if and only if it was not on it before |
| FontPath.RunAgrees | WSLGd/FontMonitor.cpp:132-221 | over every run the font path is the added paths followed by the untouched original |
| FontPath.LeftBehind | WSLGd/FontMonitor.cpp:310-331 | what Stop leaves in front of the original paths are the leaked ones |

## Left out

- Sync.MarkAndSweep: a bracket holds updates only; a DELETE inside it would remove a file the bracket had written, and a CAPS message could move the menu folder
- Sync.MarkAndSweepFolders: says nothing sharper of a folder that also holds folders; whether it goes with them depends on the order of the swept ids
- ServerLoop.HandleMessages: is followed for a given number of rounds, because the loop it models need not terminate
- FontTracking.NothingIsMissed: a nested AddMonitorFolder call is a frame on a stack and each directory entry a step, since directory changes interleave with the scan; FontPath models the same recursion as a method
- FontRuns.PatienceIsHarmless: is one way, a sufficient condition on the environment; the exact one is FontOrphans.TrackingIsExact
- CloseRace.CloseIsSafe: the closed flag, a plain bool in the source, is taken to be read and written atomically
- Callback.WSLDVCCallback.OnDataReceived: runs on one thread; the lock and the flag are the subject of CloseRace
- Sender.SendUpdateApplist: the stream grows beyond its capacity where the length wrapped; writing past the allocation is shown as bytes longer than the capacity
- ProcessMonitor.Monitor.Run: a failing waitpid ends the list of exits
- FileDB.WSLDVCFileDB.AddAllSubFolderFiles: the icon of a link is returned whole, not cut to MAX_PATH
- wcscat_s, wcscpy_s and swprintf_s failures are the error returns the code expects, not invalid-parameter aborts
- Windows paths are exact strings: no case folding, no normalisation, no separators inside ids
- COM, the registry, locale and window lookups of OnCaps and OnAssociateWindowId beyond success, failure and result
- the ICO header fields filled in around the icon bits
- the title of a window update beyond name, command and icon, and IsFileTrusted
- the sender's thread, WTS channel calls and context allocation
- fork, exec, capabilities, setuid and the environment set up in LaunchProcess
- xset processes, the two-second sleep, font rehashing and thread cancellation in FontMonitor
- directory renames, inotify queue overflow and watches that fail while a directory exists (FontTracking)
- the moment a fonts.dir is first noticed: the constructor looks for it before the watch is placed
- main.cpp, dllmain.cpp, the plugin and listener wrappers, logging and build scripts
