# Netatalk Client, modelled and verified in Dafny

Netatalk Client is an AFP client: the library that talks to a server, the daemon
`afpsld` that shares one session between programs, a FUSE file system and the
`afpcmd` command line. This project models the parts of it that carry the most
state and proves what they promise.

- **Metadata files** (`AppleDouble`, `Sidecar`, `ForkOnTable`, `EaHeader`,
  `Attributes`, `NameList`, `MetadataNames`, `RemoteCalls`, `Transfer`). An AppleDouble sidecar refines a pair
  of a 32-byte FinderInfo and a resource fork. A Netatalk attribute store refines
  a finite map. A copy from a server leaves the local metadata equal to the
  remote one.
- **Servers** (`ServerLifetime`, `ServerRuns`, `ServerReconnects`,
  `ServerDisconnects`, `ServerLateMarks`). A state machine of 23 steps covers the
  server list, reference counts, descriptors, and the race of connects,
  reconnects, disconnects and removals. One invariant holds in every reachable
  state, and safety over whole runs follows from it, as do the exact conditions
  under which a reconnect succeeds and a disconnect leaves nothing open.
- **The daemon's messages** (`Logs`, `Framing`, `Requests`, `Listing`,
  `MetadataCall`). Encoders and decoders that live in different files undo each
  other, however a socket cuts the bytes.
- **Discovery** (`Discovery`, `DiscoveryEvents`, `Picker`, `Draining`). A table of advertised
  services agrees with the history of reports, and the picker on the command line
  agrees with the table.
- **File handles** (`Handles`, `HandleTable`). The daemon's handle table agrees
  with the history of opens and closes, and frees each record once.
- **Smaller cores** (`Quoting`, `DirectoryPages`, `Upload`). Argument quoting,
  listing pages and duplicate names, and the upload loop.

`Bytes` holds the shared types, big-endian integers and the POSIX file calls.

## How the model is built

Code that changes things step by step is imperative here too: objects whose
fields a method updates are classes, loops keep their invariants, and each method
is proved against a function of its inputs or of the state before it. A file is
its byte sequence, and a disk is a map from paths to files. What a peer or the
system chooses (how a socket or a server cuts its bytes, what the allocator or a
server answers) is a parameter or a nondeterministic choice, so each result holds
for every choice. Threads are modelled as sequentially consistent steps, one for
each critical section or atomic operation.

## Where the code does less than it is meant to

Some laws fail on some inputs. Each has an input that shows it, and the exact
condition under which the code meets the law.

- A resource-fork write of no bytes past the end of the fork writes a length the
  file does not have. The sidecar is then rejected, and both its parts are lost.
  `Sidecar.EmptyWriteLoses` loses a FinderInfo this way. `Sidecar.SetThenWrite`
  and `Sidecar.ForkWritten` say exactly when.
- A FinderInfo is stored under a descriptor of fewer than 32 bytes and never read
  back from there. `Sidecar.ShortLoses` and `Transfer.CopyOntoShort` do so.
  `Sidecar.AdFinderSet` gives the condition for every file whose FinderInfo lies
  after its table, and `Transfer.CopyRemoteToLocal` for a whole copy. A FinderInfo
  that lies on the table can make its own file unreadable
  (`Sidecar.TangledLoses`); for these files the condition goes one way only.
- A fork can start on the file's own table, and the reader accepts it there. Where
  it starts on its own length, a write puts that length over the bytes it has just
  written: `ForkOnTable.EdgeLoses`, and `Transfer.CopyOntoEdge` for a copy, which
  succeeds without a warning. Where it starts earlier, clearing the file wipes
  descriptors and can bring an older one to light: `Transfer.CopyUncovers`.
  `ForkOnTable.ClearedStays` says exactly which files are accepted again once they
  are cleared, and `Transfer.CopyRemoteToLocal` what a copy then leaves, but where
  what it brings goes to another place on the table (`Transfer.Strays`). All the
  other files are laid out anew, and the copy is right.
- The attribute store writes headers it cannot read back: one with a name of 255
  bytes (`EaHeader.TooLongName`), or with a 1025th attribute
  (`EaHeader.TooManyItems`). `EaHeader.LoadUndoesSave` and `Attributes.RunAttrs`
  say exactly when. The name of 255 bytes assumes a disk without the usual limit
  on the length of a file name, under which the file of the value fails to open
  first and no header is written.
- A comment promises that a disconnect that comes while a reconnect runs fails
  the reconnect (lib/afp.c:1130-1144). It does so exactly when it reads the
  generation after the reconnect has started its own, and takes the descriptor or
  marks the server after the reconnect has published its descriptor and before its
  login ends: `ServerReconnects.OverlappingDisconnect`.
  `ServerReconnects.ReconnectSucceeds` is the condition with every other step that
  ends a connection. `ServerDisconnects.EarlyDisconnect` is a run with a whole
  disconnect inside a reconnect that succeeds, because the disconnect reads the
  generation too early. In `ServerDisconnects.LateDisconnect` the disconnect takes
  too early and marks too late. It leaves a disconnected server with an open
  descriptor, which a run does exactly when a connect overtakes a disconnect:
  `ServerLateMarks.ExactlyOvertaken`.
- A service type is stripped of a final dot twice, once for the table and once
  for the queue, so that the queue can speak of another service than the table.
  `Draining.MisheardExample` is a history with one such report,
  `Draining.MisheardDrains` runs it, and `Draining.DrainedExactly` says after which histories the picker and the table
  disagree.
- A data fork that the server numbers 0 stays on its volume's list when its
  record is freed: `HandleTable.ForkZero`. `HandleTable.Daemon.ProcessClose` and
  `HandleTable.Daemon.ProcessOpen` say exactly when the table stays sound.
- A fork opened on a volume that is not attached is not freed when its server is
  disconnected: `HandleTable.ForkLeft`. `HandleTable.Daemon.ProcessDisconnect`
  says exactly when every record is freed.
- A volume without fixed directory IDs is detached when it is opened, and the
  records of its forks are freed without their handles. `HandleTable.ForkDangles`
  is a run that ends with a handle of a freed record.
  `HandleTable.Daemon.ConnectVolume` says exactly when the table stays sound, and
  `HandleTable.Run` for whole runs.

## Model

| member | source | states |
|---|---|---|
| AppleDouble.ReadAdInfo | daemon/metadata.c:539-609 | a sidecar is accepted if and only if its header and every entry lie within the file, whether or not it has the two entries; which of two errors it gives otherwise, and which of several entries with one id counts |
| Bytes.U32Ordered | daemon/metadata.c:539-609 | the integers of both kinds of file are written with the most significant byte first: smaller numbers have the smaller bytes |
| Bytes.U16Ordered | daemon/metadata.c:539-609 | and so are the short ones |
| AppleDouble.SampleAccepted | daemon/metadata.c:539-609 | a sidecar given byte by byte, with a fork of 66051 bytes, is accepted with the two entries it names, and both parts are read |
| AppleDouble.EmptyDescriptors | daemon/metadata.c:539-609 | a file of empty descriptors is accepted exactly when it has between 1 and 32 of them |
| AppleDouble.InitializeAd | daemon/metadata.c:623-679 | a new file, in either layout and whatever was there before, has the signature, the name of its home, the table and the sizes of its layout |
| AppleDouble.NewFileBytes | daemon/metadata.c:623-679 | the 82 bytes of a new file in the macOS layout |
| AppleDouble.LayoutApart | daemon/metadata.c:623-679 | the entries of the Netatalk layout lie one after the other between the table and the end of the file |
| AppleDouble.LaidOutSound | daemon/metadata.c:623-679 | a new file is accepted, and reads as no FinderInfo and an empty fork, with the fork at the end of the file |
| AppleDouble.ResizedAccepted | daemon/metadata.c:539-609 | a file whose fork is resized, with the new length in its table, is accepted if and only if the fork and every other entry lie within it, and keeps its entries otherwise |
| AppleDouble.ResizedSound | daemon/metadata.c:539-609 | a sound file whose fork is resized, with the new length in its table, is sound and keeps both entries' places |
| Sidecar.OpenForReading | daemon/metadata.c:696-735 | opens exactly the files that are there and accepted, and tells a missing one apart |
| Sidecar.OpenForWriting | daemon/metadata.c:696-735 | a missing or rejected file is laid out anew, an accepted one is untouched, and what the sidecar means is unchanged either way |
| Sidecar.AdFinderGet | daemon/metadata.c:737-758 | for every file, gives the FinderInfo of an accepted one, and no attribute exactly when there is none or it is all zeros |
| Sidecar.AdFinderSet | daemon/metadata.c:760-777 | replaces the FinderInfo, which is read back if and only if the descriptor has 32 bytes, for every file whose FinderInfo lies after its table; keeps the fork it does not touch and every other file, and fails if and only if an accepted file has no place for it |
| Sidecar.FinderLands | daemon/metadata.c:760-777 | on the bytes of the file: what is written after the table is read back exactly when the descriptor has room, under the same entries |
| Sidecar.AdResourceSize | daemon/metadata.c:779-790 | for every file, gives the length of the fork, and no attribute exactly when the fork is empty |
| Sidecar.AdResourceRead | daemon/metadata.c:792-821 | for every accepted file, gives the bytes of the range that the fork has |
| Sidecar.AdResourceWrite | daemon/metadata.c:823-867 | refuses exactly the ranges that are too big and the accepted files without a place for the fork; on a sound file overlays the fork, keeps the FinderInfo, and leaves a file that is accepted if and only if the write is not an empty one past the end; on any other orderly file does what `Stored` says, and on every accepted one leaves exactly the bytes of `ForkStored` |
| Sidecar.ForkWritten | daemon/metadata.c:823-867 | on the bytes of the file: the write leaves a sound file with the overlaid fork and the same FinderInfo, exactly unless it is an empty one past the end |
| Sidecar.ForkWrittenOrderly | daemon/metadata.c:823-867 | on a file whose other entries end before the fork, and which may have bytes after it: when the file stays accepted, that the FinderInfo stays, and exactly when the fork is the overlaid one |
| Sidecar.Clears | daemon/metadata.c:1910-1948 | clearing FinderInfo and fork of any file with places for both after its table leaves nothing to read, and a sound file or one a write lays out anew, unless the file keeps a descriptor of FinderInfo under 32 bytes |
| Sidecar.RunOps | daemon/metadata.c:737-867 | every run of FinderInfo and fork writes, in either layout and from any usable sidecar, refines the pair of FinderInfo and fork, and touches no other file |
| Sidecar.SetThenWrite | daemon/metadata.c:737-867 | a FinderInfo that is set, and read after a later fork write, is the one set if and only if the write is refused or is not an empty one past the end; otherwise both parts are gone |
| Sidecar.EmptyWriteLoses | daemon/metadata.c:823-867 | an input at which it is lost |
| Sidecar.ShortLoses | daemon/metadata.c:737-777 | an accepted file of 82 bytes from which no FinderInfo that is set is read back |
| Sidecar.TangledLoses | daemon/metadata.c:760-777 | an accepted file with room for a FinderInfo that setting one makes unreadable |
| ForkOnTable.ClearedStays | daemon/metadata.c:539-609 | of the files with FinderInfo after the table and the fork on it, exactly those are accepted again once they are cleared whose fork has the last descriptor, starts after the header, and whose descriptors, wiped from the fork's start on, end within the table |
| ForkOnTable.StaysEdge | daemon/metadata.c:823-867 | where the fork starts on its own length, this means that every other entry ends within the table |
| ForkOnTable.BlankInfo | daemon/metadata.c:737-758 | such a cleared file has no FinderInfo to read, and no room for one |
| ForkOnTable.EdgeWritten | daemon/metadata.c:823-867 | a write within or at the end of a fork that starts on its own length leaves such a file again, and the fork that is read is the overlaid one with the end of its length over its first bytes |
| ForkOnTable.EdgeLoses | daemon/metadata.c:792-867 | a file of 50 bytes from whose fork other bytes are read than were written |
| ForkOnTable.TwiceFileIs | daemon/metadata.c:539-609 | a file of 62 bytes whose clearing brings a fork of ten bytes to light |
| EaHeader.ListsUnique | daemon/metadata.c:900-1009 | a header holds one list of attributes at most |
| EaHeader.LoadItems | daemon/metadata.c:900-1009 | gives the list the header holds, and fails only when it holds none |
| EaHeader.LoadItem | daemon/metadata.c:947-1000 | reads the one item whose code is at the place, and fails only when no item with a new name has its code there |
| EaHeader.ScanName | daemon/metadata.c:960-976 | finds the terminator of a name among the bytes it may scan, if and only if there is one |
| EaHeader.EncodeHeader | daemon/metadata.c:1011-1082 | writes the header of exactly the lists whose names have at most 255 bytes |
| EaHeader.HeaderBytes | daemon/metadata.c:1011-1082 | the header of two attributes, byte by byte |
| EaHeader.LoadUndoesSave | daemon/metadata.c:900-1082 | a saved header holds the saved list if the list has at most 1024 distinct names of at most 254 bytes, and holds no list otherwise |
| EaHeader.TooManyItems | daemon/metadata.c:900-1082 | the header of 1024 attributes lists them, and that of 1025 lists nothing |
| EaHeader.TooLongName | daemon/metadata.c:900-1082 | the header of one attribute with any name of 255 bytes is saved and lists nothing |
| Attributes.LoadEaItems | daemon/metadata.c:900-1009 | gives the list on the disk, tells a missing header apart, and fails otherwise only when the header holds no list |
| Attributes.SaveEaItems | daemon/metadata.c:1011-1082 | writes the header, or removes it when the list is empty, or changes nothing |
| Attributes.StoredItems | daemon/metadata.c:1084-1291 | reads the store if and only if it is readable, and gives as many items as it has attributes |
| Attributes.NetatalkGet | daemon/metadata.c:1118-1166 | gives the map's value, which are the first bytes of its file and as many as the header says, and the error that belongs to a missing name, a missing file and a short one |
| Attributes.NetatalkSet | daemon/metadata.c:1168-1250 | updates the map at one name, leaves a readable store if and only if the name fits, and changes nothing when it fails |
| Attributes.NetatalkRemove | daemon/metadata.c:1252-1291 | removes one name from the map, succeeds if and only if it is there, and changes nothing when it fails |
| Attributes.NetatalkList | daemon/metadata.c:1084-1116 | lists each name of the map that is not filtered, once |
| Attributes.RunAttr | daemon/metadata.c:1168-1291 | one set or remove takes the map to its next value |
| Attributes.RunAttrs | daemon/metadata.c:900-1291 | every run of sets and removes refines the finite map, and the store stays readable if and only if every name put fits |
| NameList.AppendName | daemon/metadata.c:316-353 | appends a name to a list unless the list has it, and refuses exactly the names that are too long |
| NameList.NextName | daemon/metadata.c:1806-1824 | walks a list's names in order, and ends exactly at its end |
| MetadataNames.UserPrefix | daemon/metadata.c:156-176 | a prefix of "user." makes no difference to whether a name is copied |
| MetadataNames.OrdinaryName | daemon/metadata.c:156-176 | every name outside com.apple. and org.netatalk. is copied |
| MetadataNames.ReservedNames | daemon/metadata.c:1799-1804 | what the sidecar keeps, and what Netatalk and the Finder keep to themselves, is not |
| MetadataNames.StoredNames | daemon/metadata.c:172-183 | a name may be stored exactly when it has 1 to 255 bytes and no slash |
| RemoteCalls.RemoteList | daemon/metadata.c:1826-1857 | the names of the remote file, joined, in two calls: one for the length, refused above the limit, and one for the list; it succeeds, or finds that there is none, exactly when no call that is made fails otherwise and the list is within the limit |
| RemoteCalls.RemoteGet | daemon/metadata.c:1859-1894 | the value of a remote attribute, in two calls: one for the length, refused above the length of a message, and one for the value; it succeeds exactly when neither fails and the value is within the limit |
| RemoteCalls.CleanFork | daemon/metadata.c:2286-2313 | without a failure and without an empty read the whole fork arrives, whatever its length and however it is cut |
| RemoteCalls.BadRead | daemon/metadata.c:2286-2313 | a failing or an empty read that is made keeps it from arriving |
| Transfer.RemoveLocal | daemon/metadata.c:1425-1463 | removes a name from the local map, an absent one being no failure, and refuses a name it would not store |
| Transfer.ClearNames | daemon/metadata.c:1950-1965 | removes exactly the transferable names, and succeeds if and only if all of them may be removed |
| Transfer.ClearSidecar | daemon/metadata.c:1910-1948 | clears FinderInfo and fork of every file with FinderInfo after its table: one with the fork there too reads as empty, and one with the fork on the table is laid out anew at the next write or stays with its table wiped from the fork's start on; fails for a file without a place for either, and keeps the attributes |
| Transfer.ClearLocal | daemon/metadata.c:1910-1966 | clears FinderInfo, fork and transferable attributes and keeps the rest, succeeding exactly when the store is readable and its names may be removed, for every sidecar that is missing, rejected, or has FinderInfo after its table and a place for the fork |
| Transfer.CopyFork | daemon/metadata.c:2286-2325 | however the server cuts the fork, the local fork ends up equal to it, in every file that is sound, narrow or laid out anew, and the copy succeeds exactly when every read until then gives a byte; where the fork starts on its own length, it ends up with that length over its first bytes; where it has no place, only an empty fork is copied; and a server without forks is a warning |
| Transfer.CopyAttr | daemon/metadata.c:1389-1423 | sets one local attribute to the remote value, exactly when the value arrives, the name may be stored and the store is readable; a value that is too large is a warning |
| Transfer.CopyNames | daemon/metadata.c:2200-2230 | sets every transferable remote attribute, without a warning exactly when each arrives, has a name that may be stored, and finds the store readable |
| Transfer.CopyAttrs | daemon/metadata.c:2178-2230 | sets every transferable remote attribute, from the remote list; a list that is too large is a warning |
| Transfer.PutsAre | daemon/metadata.c:2178-2230 | setting them one by one gives their union with what was kept, and all fit exactly when the union is in bounds |
| Transfer.CopyRemoteToLocal | daemon/metadata.c:2232-2329 | a copy succeeds without a warning if and only if the store is readable with names that may be removed, FinderInfo arrives or there is none, and the fork, the list and every transferable attribute arrive and find room. It then leaves the whole fork and the transferable attributes equal to the source's, and the FinderInfo equal to it unless the file found keeps a descriptor of FinderInfo under 32 bytes, in which case there is none; nothing stale is left. This holds whatever was there before, of every file that is missing, rejected, or has places for both parts after its table. Where only the fork is on the table, the copy is right too unless the file stays when it is cleared, and `OntoTable` says what is read then. A copy onto a file without a place fails |
| Transfer.CleanCopy | daemon/metadata.c:2232-2329 | a copy from a source whose calls all answer, within the limits, succeeds without a warning: FinderInfo, fork and every transferable attribute are the source's, no other transferable one is left, and the rest is untouched |
| Transfer.CopyOntoShort | daemon/metadata.c:2232-2329 | an input at which the copy loses the FinderInfo |
| Transfer.CopyOntoEdge | daemon/metadata.c:2232-2329 | an input at which the copy leaves another fork than the source's |
| Transfer.CopyUncovers | daemon/metadata.c:2232-2329 | an input at which the copy of a file without a fork leaves one |
| ServerLifetime.CountedKept | lib/afp.c:459-552 | every step keeps the count equal to the holds and the creation's reference, and frees a server when it reaches 0 |
| ServerLifetime.TargetGentle | lib/afp.c:1145-1457 | no step revives a destroyed server, takes another thread's reconnect or removal, or starts a generation under another thread |
| ServerLifetime.OneConnector | lib/afp.c:1309-1457 | two threads never connect one server at once |
| ServerLifetime.OwnedKept | lib/afp.c:1398-1429 | every step keeps each open descriptor with one owner, and each descriptor that has an owner open |
| ServerLifetime.InvKept | lib/afp.c:353-1457 | every enabled step keeps the whole invariant |
| ServerRuns.RunInv | lib/afp.c:353-1457 | every state of every run satisfies the invariant |
| ServerRuns.OneReconnect | lib/afp_internal.h:334-346 | at most one thread is inside a reconnect of a server, and the flag is set exactly while one is |
| ServerRuns.FreedOnce | lib/afp.c:459-469 | a server's count is its holds and the creation's reference, and it is freed exactly when that is 0, once, and never while listed, held or worked on |
| ServerRuns.NoUseAfterFree | lib/afp.c:353-552 | no step reaches a freed server, but for the creator's end of a login, which does if and only if the creation's reference is gone and nobody holds the server |
| ServerRuns.DestroyedForever | lib/afp.c:729-769 | a destroyed server stays destroyed and unlisted, and never gets a descriptor again |
| ServerRuns.SecondRemove | lib/afp.c:729-769 | a first removal answers 0, and a second answers -ENOENT and changes nothing |
| ServerRuns.ConnectedFrom | lib/server.c:136-153 | a server becomes connected only from connecting, and with a descriptor |
| ServerRuns.NothingLeaks | lib/loop.c:249-290 | at rest, the open descriptors are exactly the listed servers', no reconnect is left, and a destroyed server is freed exactly when nobody holds it |
| ServerRuns.ConnectedAtRest | lib/afp.c:1398-1429 | at rest, a connected or connecting server has a descriptor |
| ServerReconnects.ReconnectSucceeds | lib/afp.c:1145-1291 | a reconnect ends connected if and only if its login succeeds and, since it published its descriptor, no removal, no disconnect of the current generation and no other completion came; otherwise the step changes nothing and the reconnect goes on to disconnect |
| ServerReconnects.EarlyFailure | lib/afp.c:1145-1242 | a reconnect whose probe, dial or publication fails takes, dials and publishes nothing at that step, and goes on to disconnect |
| ServerReconnects.FailedForGood | lib/afp.c:1287-1291 | once a reconnect has failed, its thread makes no server connected until the reconnect has ended |
| ServerReconnects.CurrentExactly | lib/loop.c:249-290 | a generation read during a reconnect is the one of its connection if and only if it is read after the reconnect has started its own |
| ServerReconnects.DisconnectFails | lib/loop.c:249-290 | a disconnect's take or mark between the publication and the end of the login ends the connection if and only if its generation was read after the reconnect has started its own |
| ServerReconnects.OverlappingDisconnect | lib/afp.c:1130-1144 | a disconnect fails a reconnect whose login succeeds, and that nothing else ends, if and only if it reads the generation after the reconnect has started its own, and takes or marks between the publication and the end of the login |
| ServerDisconnects.DisconnectedHasNone | lib/afp.c:1130-1144 | while no plain disconnect starts in a connect's gap, a disconnected server has no descriptor |
| ServerDisconnects.LateDisconnect | lib/afp.c:1130-1144 | a run in which a disconnect during a reconnect does not fail it, and leaves a disconnected server with an open descriptor |
| ServerDisconnects.EarlyDisconnect | lib/afp.c:1130-1144 | a run with a whole disconnect inside a reconnect, before its generation, which ends connected |
| ServerLateMarks.LateMarkOvertaken | lib/loop.c:249-290 | every late mark is that of a disconnect that read the generation in a connect's gap and took before the connect published, whose connection nothing ended since |
| ServerLateMarks.OvertakenMarksLate | lib/loop.c:249-290 | the mark of every such disconnect is late |
| ServerLateMarks.ExactlyOvertaken | lib/loop.c:249-290 | a run keeps disconnected servers without descriptors if and only if no connect overtakes a disconnect in it |
| Logs.DecodeEncode | daemon/stateless.c:238-280 | decoding the code of some log records gives them back |
| Logs.EncodeDecode | daemon/stateless.c:238-280 | bytes that decode are the code of what they decode to |
| Logs.LogBuffer.Clear | daemon/commands.c:3362-3366 | empties the buffer |
| Logs.LogBuffer.Log | daemon/daemon.c:76-108 | with room for a record and a byte, appends a record of this level with this message, or with as much of it as fills the buffer, and keeps those before; a full buffer is emptied first; without room nothing changes |
| Logs.LogRun | daemon/daemon.c:76-108 | after any calls the buffer holds well-formed records within 4096 bytes |
| Logs.NothingLost | daemon/daemon.c:76-108 | every message is there in full and in order if and only if all records fit |
| Logs.FullForgets | daemon/daemon.c:76-108 | after a full buffer, the records are those of the calls that follow, as if there had been none before |
| Framing.SendCommand | daemon/daemon_client.c:260-329 | sends the frame of a response whole, however the writes are cut, or a part of it, only when a write fails, and sends nothing if and only if its length cannot be told |
| Framing.WriteAll | daemon/daemon_client.c:302-325 | the loop that writes a response writes all of it, or a part only when a write fails |
| Framing.TailTells | daemon/stateless.c:282-307 | reading any prefix of the content first leaves the tail parser with exactly the rest, and with the log |
| Framing.FramedWell | daemon/stateless.c:458-567 | what the daemon frames, the client's reader accepts |
| Framing.ReadFramed | daemon/stateless.c:458-567 | takes exactly one response from the stream and not a byte after it, however the socket cuts it |
| Framing.DispatchLogs | daemon/stateless.c:238-280 | delivers the records the trailer holds, in order, or reports a malformed trailer |
| Framing.Exchange | daemon/stateless.c:458-567 | from the daemon's log calls to the client: the content arrives with only its length rewritten, with exactly the logged records, unless a write fails or the reads stop short |
| Framing.ReadBytes | daemon/stateless.c:654-686 | takes exactly the bytes asked for, unless the stream stops short or a signal interrupts a wait |
| Framing.ReadResponseTail | daemon/stateless.c:282-307 | takes the rest of a response and gives its content and its records, and fails exactly on a length without room for the footer, a malformed tail, a stream that stops or an interrupted wait |
| Framing.ExchangeInParts | daemon/stateless.c:282-307 | a caller that reads any prefix of a response and then its tail gets the content and exactly the logged records, and not a byte of the next response, unless a write fails, the reads stop short or a signal interrupts a wait |
| Requests.Client.Reset | daemon/daemon_client.c:44-54 | forgets the request |
| Requests.Client.ProcessCommand | daemon/commands.c:3532-3608 | moves bytes from the socket to the request, never one past its end, and completes only whole requests |
| Requests.SameRequest | daemon/commands.c:3532-3608 | two requests that begin the same bytes are one |
| Requests.Serve | daemon/commands.c:3532-3608 | for any stream of valid requests, cut and interrupted anywhere, the daemon gets exactly the requests in order |
| Listing.ProcessReaddir | daemon/commands.c:2413-2511 | packs as many of the entries asked for as the response holds, at least one when there is one, and flags the end exactly when it reaches it |
| Listing.UnpackPack | daemon/stateless.c:2453-2472 | unpacking undoes packing |
| Listing.PackUnpack | daemon/stateless.c:2397-2422 | only a code unpacks |
| Listing.CheckEntries | daemon/stateless.c:2397-2422 | accepts exactly the bytes that unpack |
| Listing.UnpackEntries | daemon/stateless.c:2453-2472 | gives the entries packed |
| Listing.FetchBatch | daemon/stateless.c:2350-2486 | one request gives the next run of entries, and none only at the end |
| Listing.Readdir | daemon/stateless.c:2281-2502 | a page is exactly the entries from its start on: as many as asked for and at least 256, or as there are, and all of them for a negative count, with the end flagged exactly at the end |
| Listing.ReaddirAll | cmdline/cmdline_afp.c:771-832 | every entry of the listing, once and in order |
| MetadataCall.BuildRequest | daemon/stateless.c:1139-1213 | builds a request for exactly the calls within the limits, with every field in its place |
| MetadataCall.Limits | daemon/stateless.c:1139-1213 | the limits of every call, by its number |
| MetadataCall.FixedFields | daemon/commands.c:2099-2147 | the daemon's reads of the fixed part give the call's fields |
| MetadataCall.CheckRequest | daemon/commands.c:2099-2190 | a request the client builds passes the checks if and only if the daemon admits the call, and decodes to the same call; what passes is a call within the limits of the length it claims |
| MetadataCall.Deliver | daemon/stateless.c:1139-1213 | a call reaches the daemon as it is if and only if it is within the limits of both ends |
| Discovery.CopyNetworkText | discovery/discovery.c:51-73 | a text with its control characters replaced, when it fits |
| Discovery.CopyService | discovery/discovery.c:75-109 | a service under its table name, when each part fits |
| Discovery.CopiedTwice | discovery/discovery.c:75-109 | a second copy changes nothing if and only if the type did not end in two dots |
| Discovery.HeldMeans | discovery/discovery.c:238-290 | an ADD gives a service its bits, a REMOVE takes its own and no others, and nothing else changes any |
| Discovery.Table.FindEntry | discovery/discovery.c:120-130 | finds an entry if and only if there is one |
| Discovery.Table.QueueEvent | discovery/discovery.c:154-196 | queues an event at the end, and never fails for a service from the table |
| Discovery.Table.QueueError | discovery/discovery.c:154-196 | queues an error whose message fits |
| Discovery.Table.Emit | discovery/discovery.c:218-296 | keeps the table in agreement with the history of reports, with distinct printable names and the bits last added and not removed since, keeps each service's events alternating, and announces exactly the changes: the events are a function of the reports |
| Discovery.Table.Process | discovery/discovery.c:218-296 | what one report does to the entries and announces, and its outcome |
| Discovery.Table.PopEvent | discovery/discovery.c:198-216 | takes the oldest event |
| Discovery.ReportVanishes | discovery/discovery.c:271-296 | removing the last bit removes exactly one entry and keeps the agreement |
| Discovery.HasLive | discovery/discovery.c:218-296 | the table has an entry exactly for the services the reports leave with a bit |
| Discovery.AnnounceKeeps | discovery/discovery.c:218-296 | announcing a change of the table keeps the events alternating and in step with it |
| DiscoveryEvents.EventsAccount | discovery/discovery.c:218-296 | the events are the reports that speak, in order: an ADD of a service no source holds, an UPDATE of one that some source does, a REMOVE that takes the last bit, and an ERROR whose message fits |
| DiscoveryEvents.UpdatesTold | discovery/discovery.c:263-269 | a service has as many UPDATE events as UPDATE reports made while some source holds it |
| DiscoveryEvents.ErrorsTold | discovery/discovery.c:233-236 | the ERROR events are the ERROR reports whose message fits, in order, with their numbers |
| Picker.PickerState.FindGroup | cmdline/discover.c:66-76 | finds the group of a service if and only if there is one |
| Picker.FindMember | cmdline/discover.c:91-103 | finds the member of an interface if and only if there is one |
| Picker.PickerState.FindSlot | cmdline/discover.c:78-89 | finds the group with a number if and only if it is active |
| Picker.PickerState.Update | cmdline/discover.c:130-185 | the active members are those the events announce, no group changes its name or slot, and a redraw is asked for exactly when the list changed or an update came |
| Picker.AfpCases | cmdline/discover.c:225-259 | which types are AFP |
| Draining.Next | discovery/discovery.c:336-382 | takes the next event, or finds the queue empty |
| Draining.Drain | cmdline/discover.c:225-259 | gives the picker exactly the AFP events taken, in order, keeps every slot, and ends with an empty queue or an error |
| Draining.OnlyAfp | cmdline/discover.c:225-259 | the picker shows no service of another type |
| Draining.DrainedAgrees | cmdline/discover.c:225-259 | after any drained history in which no AFP service is reported with a type that ends in two dots, the active members are exactly the table's AFP entries, and the events taken alternate |
| Draining.DrainedExactly | cmdline/discover.c:225-259 | after any drained history at all, the active members are exactly the table's AFP entries if and only if there is no AFP service of which the last event, about it or the same type with a dot more, is about the latter and says of it what the reports do not |
| Draining.MisheardExample | discovery/discovery.c:85-98 | any AFP type with two dots, reported once, is such a history |
| Draining.MisheardDrains | cmdline/discover.c:225-259 | a run that emits and drains such a report and ends with the picker and the table in disagreement |
| Handles.DeadUntilReissued | daemon/commands.c:356-382 | a handle that is closed, or released with its volume, names nothing until an open issues it again |
| Handles.OpenKeeps | daemon/commands.c:263-279 | a new record in a free slot keeps slots and lists in agreement |
| Handles.CloseKeeps | daemon/commands.c:329-354 | taking a slot and its record away keeps slots and lists in agreement |
| Handles.ReleaseOwns | daemon/commands.c:364-382 | which records are left without a slot when the slots of some volumes go |
| HandleTable.Daemon.RegisterFileHandle | daemon/commands.c:263-279 | takes the lowest free slot, and fails only when all 1023 are taken |
| HandleTable.Daemon.ForkIsListed | daemon/commands.c:300-316 | whether the volume's list has the record |
| HandleTable.Daemon.GetFileHandle | daemon/commands.c:329-354 | gives the record whose open issued the handle on this volume, or nothing, and takes it away when asked |
| HandleTable.Daemon.RemoveOpenedFork | lib/forklist.c:54-75 | takes one record off the list and keeps the others |
| HandleTable.Daemon.MlClose | lib/midlevel.c:1038-1073 | takes the record off its list exactly when it is no data fork numbered 0 |
| HandleTable.Daemon.ProcessOpen | daemon/commands.c:992-1076 | issues a free handle for the new record, fails for slots only when all are taken, and leaves a sound table exactly unless it then closes a data fork numbered 0 |
| HandleTable.Daemon.ProcessClose | daemon/commands.c:1951-1994 | closes exactly the handles issued on the volume, frees the record once, and leaves a sound table if and only if it is no data fork numbered 0 |
| HandleTable.Daemon.ReleaseVolumeHandles | daemon/commands.c:364-382 | clears exactly the volume's slots and frees exactly its pseudo-files' records |
| HandleTable.Daemon.RemoveForkList | lib/forklist.c:197-212 | frees each listed record once and empties the list |
| HandleTable.Daemon.ProcessDetach | daemon/commands.c:564-604 | leaves no handle of the volume and no record without a slot |
| HandleTable.Daemon.ProcessDisconnect | daemon/commands.c:689-733 | leaves no handle of the server's volumes, and no record without a slot if and only if no volume that was not attached has an open fork |
| HandleTable.Daemon.Connect | lib/proto_server.c:153-177 | a server's volumes appear detached and without forks, and the table stays sound |
| HandleTable.Daemon.ConnectVolume | lib/afp.c:1045-1128 | opens a volume, and leaves the table sound if and only if the volume has fixed directory IDs, is refused, or has no open fork; otherwise the forks' records are freed and their slots stay |
| HandleTable.Daemon.Attach | daemon/commands.c:3643-3718 | attaches a volume that is not attached, with the same condition, and leaves one that is as it was |
| HandleTable.Perform | daemon/commands.c:263-1994 | any command, an attach or a resume that fails among them, keeps the table sound and in agreement with the history if and only if it opens no volume without fixed directory IDs that has open forks, and leaves a record without a slot if and only if it disconnects a volume that is not attached and has an open fork; what it makes of the volumes |
| HandleTable.Run | daemon/commands.c:263-1994 | every run of commands, of a server that numbers its data forks, is performed and ends sound if and only if no command breaks the table as above, stops at the first that does, and leaves a record without a slot only if some command did so, by the volumes before each command |
| HandleTable.ForkZero | lib/midlevel.c:1038-1073 | a run with a data fork numbered 0 that ends in a table that is not sound |
| HandleTable.ForkLeft | daemon/commands.c:689-733 | a run that leaves a record without a slot |
| HandleTable.ForkDangles | lib/afp.c:1097-1103 | a run that ends with a handle of a freed record |
| Quoting.EscapeSpaces | cmdline/cmdline_afp.c:4945-5001 | puts a backslash before each space of a text within the limit, in a buffer of exactly that size |
| Quoting.EscapesSpaces | cmdline/cmdline_afp.c:4945-5001 | only a space gets a backslash, and every space does |
| Quoting.UnescapeSpaces | cmdline/cmdline_afp.c:5004-5050 | takes away each backslash before a space |
| Quoting.UnescapedEscaped | cmdline/cmdline_afp.c:4945-5050 | unescaping undoes escaping, whatever backslashes the text has |
| Quoting.EscapeThenUnescape | cmdline/cmdline_afp.c:4945-5050 | a text comes back if and only if its escaped form fits the limit |
| Quoting.EscapePaths | cmdline/cmdline_afp.c:463-555 | splits a line as a reader of one argument after the other does, and fails on an open quote or a missing argument |
| Quoting.EscapeThenSplitOne | cmdline/cmdline_afp.c:463-555 | one escaped argument comes back when it has no quote or backslash |
| Quoting.QuoteThenSplit | cmdline/cmdline_afp.c:463-555 | two quoted arguments come back, spaces and all, when they have no quote or backslash |
| Quoting.Incomplete | cmdline/cmdline_afp.c:463-555 | a quote left open and a missing second argument are refused |
| Quoting.ReadingLoses | cmdline/cmdline_afp.c:463-555 | reading a line of escaped arguments never gains quotes or backslashes, and keeps all of them and all spaces only when there are none |
| Quoting.EscapeThenSplit | cmdline/cmdline_afp.c:463-555 | splitting two escaped arguments gives them back if and only if neither has a quote or a backslash |
| DirectoryPages.SortByName | fuse/fuse_fs.c:465-469 | the records of a listing in the order of their names, each once |
| DirectoryPages.RepeatedNames | fuse/fuse_fs.c:481-508 | flags an entry if and only if another one has its name |
| DirectoryPages.FillPage | fuse/fuse_fs.c:555-578 | a page is the entries from its offset on, as many as fit or as there are, each with the offset after it, and attributes on exactly the entries whose lookup finds them |
| DirectoryPages.DirStream.Readdir | fuse/fuse_fs.c:525-582 | takes a listing at offset 0 or when it has none, serves later pages from it, and gives attributes only on the page that took it |
| DirectoryPages.ReadStream | fuse/fuse_fs.c:525-582 | pages resumed at the last offset give the dot entries and each name of the first listing once, in order, whatever becomes of the directory |
| Upload.WriteOver | cmdline/cmdline_afp.c:1834-1850 | chunks written one after the other are the whole prefix written at once |
| Upload.AllMoves | cmdline/cmdline_afp.c:1834-1850 | without a failure and with a server that takes all it is given, the whole file moves |
| Upload.Remote.OpenCreated | cmdline/cmdline_afp.c:1724-1735 | a file the upload made is removed when its open fails with an answer |
| Upload.UploadFile | cmdline/cmdline_afp.c:1723-1877 | an upload succeeds exactly when it starts, no read or write fails or falls short, and the close and a needed truncation succeed; it then leaves the remote file equal to the local one, whatever was there and however the reads are cut; one that fails leaves a prefix of it over what was there; and one that does not start leaves the path as it was, but for an empty file it made, which stays exactly when the create or the open has no answer or the unlink fails |

## Left out

- The AFP and DSI protocols and the library's calls to a server: a remote file is its bytes and a remote file's metadata a map, with any answer the contract allows.
- Kernel extended attributes and the native macOS path: only the sidecar files and the Netatalk attribute store are modelled.
- The copies from local to remote, from local to local and between servers: they repeat the loops of the copy that is modelled.
- Allocation failure and failing local file calls: they add branches that leave the loop early.
- Weak memory ordering, and steps finer than a critical section or an atomic operation.
- The probe that frees a server it made itself without listing it, and session recovery after a reconnect.
- The disconnect a creator starts itself while it works on the creation's reference alone (`afp_server_full_connect` in lib/connect.c), and the connect of a server that is listed already (cmdline/getstatus.c:258-260).
- The command loop, its locks and its timeouts, and the payload of a write request.
- The Avahi and DNS-SD backends, name resolution and the choice of an endpoint: the backend is any sequence of reports.
- The picker's drawing of its list, its input, and the wrap of its slot counter after 2^32 groups.
- Snapshots of the discovery table: they return its entries as they are.
- The bits of a source mask are a set of bit positions.
- Byte order: the messages between client and daemon are in the host's order, which the model takes to be big-endian on both sides.
- The reading of records through handles, once one is found, and the answers of the server to a close.
- Printing, prompts, completion, option parsing, status text and mount arguments.
- Transfer.CopyRemoteToLocal: does not say what a copy that fails leaves, nor all that one that warns does; says nothing of the FinderInfo and the fork where an accepted file has its FinderInfo on its own header or table; nor where clearing leaves a fork that starts before its own length, or a FinderInfo, with another place on the table and the copy brings it (`Strays`); assumes that the source does not change while the copy runs, that no call calls something absent that is there, and that the fork is at most INT_MAX bytes long.
- Transfer.CopyFork: does not say what is left of a fork whose read fails.
- Sidecar.AdFinderSet: gives the bytes alone, and not what is read back, of an accepted file whose FinderInfo lies on its own header or table.
- Sidecar.AdResourceWrite: gives the bytes alone of an accepted file with a part on its own table, or with another entry that reaches past the fork's place; what they mean is in `ForkOnTable` for a fork that starts on its own length or is cleared, and is not stated otherwise.
- Transfer.ClearSidecar: says nothing of an accepted file whose FinderInfo lies on its own header or table.
- Transfer.ClearLocal: says nothing of the sidecar of such a file.
- Listing.ProcessReaddir: starts from the sorted listing, whose names are shorter than the limit, and takes the response's fixed fields as a record.
- MetadataCall.BuildRequest: ends before the send, whose answer is not modelled, and takes the flags and offsets as the callers pass them.
- HandleTable.Daemon.ConnectVolume: a reconnect that runs inside another command, which may hold a record that the reconnect frees, is a command of its own here.
- HandleTable.Daemon.MlClose: the flush before the close, and the server's answer to it, are not modelled.
- HandleTable.Daemon.ProcessOpen: the checks of the request's lengths, and the error codes of a failed open, are one outcome.
- DirectoryPages.SortByName: the library's sort may order equal names in any way, and this one keeps them, which the flags do not depend on.
- Upload.UploadFile: ends before the copy of metadata, and assumes that the local file is not the remote one.
