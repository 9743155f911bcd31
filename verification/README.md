# Elysia, modelled in Dafny

Elysia is a panel for hosting game servers: a NestJS backend over PostgreSQL, a
Go daemon on every node, a dashboard in the browser. This project models the
parts of it that are more than plumbing and proves what they promise:

- **Nodes, servers and ports** (`Resources`, `Placement`, `Allocator`,
  `AllocatorSafety`, `AllocatorTheorems`, `PortTheorems`, `Overcommit`,
  `ServersService`). A
  step machine whose steps are the pieces of requests between two awaits; one
  transaction is one step that may roll back, the unique index and the foreign
  keys are its commit guards. Any interleaving is a sequence of steps.
- **Paths and files** (`GoPaths`, `PathResolution`, `FileSystem`, `FileManager`,
  `TreeIsolation`). Go's lexical path cleaning as a stack of components; the file
  tree as a map from component sequences to nodes; the daemon's file manager and
  SFTP handlers as objects that change it.
- **Backups** (`Backups`, `BackupRestore`). The walk that archives a server's
  directory and the loop that replays an archive over whatever is there.
- **Docker logs** (`LogDemux`) and the **environment text** of the settings panel
  (`Environment`), both against reference definitions on whole inputs.
- **Scheduled tasks** (`Scheduler`, `SchedulerTheorems`,
  `ScheduledTasksService`), **console and stats streams** (`ConsoleStreams`),
  **refresh tokens** (`RefreshTokens`, `RefreshTheorems`, `AuthService`), **roles
  and API keys** (`ApiKeys`, `ApiKeyTheorems`, `AccessServices`) and **invoice
  numbers** (`InvoiceNumbers`, `Invoices`), as step machines too.

What the source does in place is a class whose methods have the source's
branches and loops. Each method's contract equates the object's new state with
the step function of its machine applied to the old one (`Db() == AfterX(old(Db()),
...)`), and the theorems are about runs of those step functions. Every row has an
identifier from one counter, as a stand-in for fresh UUIDs and random tokens; a
smaller one is an earlier event.

## Findings

Some promises one would expect do not hold of the code as it is. For each, the
project has a run or an input from the empty state that breaks it, and the exact
condition under which it holds.

- Creates that overlap between node selection and commit can push a node past its
  capacity: with at most k of them by at most (k-1) times the largest request, and
  by exactly that (`OvercommitBound`, `BoundIsReached`). It never happens iff they
  do not overlap, or no request is small enough to be let through
  (`OvercommitExact`).
- A node's primary ports are never given back: the row outlives its server and
  cannot be removed, so that a node takes at most 101 creates and outstanding extra
  allocations in its whole life, and refuses a create exactly when they are used up
  (`PortCeiling`, `ExhaustedNode`, `NodeCanBeExhausted`).
- `resolve` never refuses a path when the data directory is absolute (`ResolveStaysBelow`);
  its test compares text, and refuses a harmless path exactly when the root cleans to
  `.` and the first name has no leading dot (`ResolveFailsIff`, `RelativeRootRefuses`).
- Frames that cut a line in two make two lines of it (`CutLineIsTwo`): per stream,
  the lines are those of the concatenated payloads iff no line is cut
  (`DemuxIsPlainSplitting`).
- A tick that starts while another one still reaches a due task can execute it
  twice for one cron occurrence (`OverlappingTicksRepeat`); starting is safe exactly
  when none does (`ClearIsExact`). A row update that fails for another reason makes
  one repeat.
- A subscribe that is still awaiting its access check when the socket goes away
  opens a stream that nothing cancels (`SubscribeOutlivesSocket`, `LeakStays`); a
  disconnect is final iff none is awaiting (`DisconnectIsFinal`).
- A refresh or sign-in that is under way when all of a user's tokens are revoked
  still yields a valid token (`SignInAcross`); revoking cuts every old session off
  iff none is (`RevokeAllIsFinal`). Two overlapping refreshes of one token make two
  sessions of one (`SessionDoubles`); each adds one exactly when it revokes a token
  that is revoked already (`RotationBalance`).
- A key minted through a key of an administrator can later do what its parent
  cannot, once the owner is demoted (`AdminKeyIsRisky`); minting is safe exactly when
  the parent lacks the wildcard at that time or its scopes name the whole catalogue
  (`MintingSafety`).
- A year that passes while an invoice number is being made can put the same suffix
  on two invoices (`YearOutOfOrder`). Webhooks that do not overlap are always in
  order (`SequentialInOrder`); of overlapping ones, exactly those whose steps are
  careful (`CarefulIsExact`).
- Restoring an empty archive over a removed root does not bring the root back, and
  archiving again then fails (`EmptyServerStaysRemoved`); in all other cases it gives
  the same archive (`WipedThenRestored`).

The lookup in `refresh` does not look at the user's status, and neither does the
model: a suspended user's token is only stopped by the revocation.

## Model

| member | source | states |
|---|---|---|
| Placement.PlacementIsBestFit | backend/src/nodes/nodes.service.ts:122-150 | the chosen node has status online, is not in maintenance, in each of CPU, memory and disk has room for the request within its size plus its own over-allocation percentage, and no such node has a smaller memory ratio, nor an equal one and an earlier place; the call fails iff every listed node is not online, in maintenance or short of something |
| Placement.BestFitIsUnique | backend/src/nodes/nodes.service.ts:145-149 | that description leaves one node only |
| Placement.LoadCrossMultiplied | backend/src/nodes/nodes.service.ts:145-148 | comparing the ratios is comparing cross products of integers |
| Placement.SortPermutes | backend/src/nodes/nodes.service.ts:145-148 | sorting keeps the candidates, each as often as before |
| Placement.SortOrders | backend/src/nodes/nodes.service.ts:145-148 | sorting orders them by ratio |
| Allocator.AllocatePort | backend/src/servers/servers.service.ts:481-495 | the loop returns the least port of 25565-25665 that is not in use, or fails when all are |
| AllocatorSafety.InvStep | backend/src/servers/servers.service.ts:96-146 | every step of every request keeps: counters equal sums of limits, hosts exist, ports are distinct, primary rows stay, requests in flight refer to what was there |
| AllocatorSafety.ConservedByInsert | backend/src/servers/servers.service.ts:125-132 | committing a create adds its limits to one node's counters and to the sum of its servers alike |
| AllocatorSafety.ConservedByRemoval | backend/src/servers/servers.service.ts:314-324 | committing a delete takes them off both, once, even when two deletes of the server race |
| AllocatorTheorems.Conservation | backend/src/servers/servers.service.ts:102-146 | in every reachable state of every interleaving each node's CPU, memory and disk counters are the sums of the limits of its servers, and non-negative |
| AllocatorTheorems.SumByNode | backend/src/monitoring/monitoring.service.ts:54-61 | summing counters over nodes is summing limits over servers |
| AllocatorTheorems.SummaryIsTotal | backend/src/monitoring/monitoring.service.ts:54-61 | the reductions, in any listing order, are that sum |
| AllocatorTheorems.SummaryTotals | backend/src/monitoring/monitoring.service.ts:50-63 | so in every reachable state the summary's allocated totals are the sums over all servers |
| AllocatorTheorems.OvercommitBound | backend/src/servers/servers.service.ts:96-146 | with at most k creates in flight, each asking at most R, a node's counters stay below its capacity plus (k-1) R, in every interleaving with deletes and aborts |
| AllocatorTheorems.SequentialNeverOvercommits | backend/src/nodes/nodes.service.ts:126-136 | one create at a time never exceeds capacity |
| Overcommit.BoundIsReached | backend/src/servers/servers.service.ts:96-132 | for every k up to the number of ports and every request, k creates that select an empty node before any commits exceed its memory by exactly k-1 requests |
| Overcommit.OvercommitExact | backend/src/servers/servers.service.ts:96-132 | no run with at most k creates in flight and requests of at most R ever exceeds a capacity iff k is 1, or R is below 10 percent of a core, 256 MB of memory or 512 MB of disk, the least the validators let through |
| Overcommit.SmallestRequest | backend/src/servers/dto/create-server.dto.ts:14-24 | a request the validators let through lies within R iff R allows 10 percent of a core, 256 MB and 512 MB |
| PortTheorems.NoPortTwice | backend/prisma/schema.prisma:213 | in every run, no two allocation rows of a node share a port |
| PortTheorems.FullRange | backend/src/servers/servers.service.ts:490-494 | no port is left iff 101 distinct ones are in use |
| PortTheorems.AdmittedCounts | backend/prisma/migrations/20260702084739_init/migration.sql:554 | a node's primary rows are as many as the creates ever committed on it |
| PortTheorems.PortCeiling | backend/src/servers/servers.service.ts:430-436 | over a node's whole life, committed creates and outstanding extra allocations together are at most 101 |
| PortTheorems.ExhaustedNode | backend/src/servers/servers.service.ts:134-144 | a create finds no port iff they are exactly 101 |
| Overcommit.NodeCanBeExhausted | backend/src/servers/servers.service.ts:490-494 | a run after which 101 creates have committed on a node and the next one finds no port |
| PortTheorems.GoneForGood | backend/src/nodes/nodes.service.ts:76-84 | a removed node never comes back |
| ServersService.Panel.SelectNode | backend/src/servers/servers.service.ts:96-100 | an online node out of maintenance with room in all three dimensions is chosen, none such being emptier; refused iff there is none; the choice is recorded outside the transaction |
| ServersService.Panel.ReadPort | backend/src/servers/servers.service.ts:134-134 | the port is read before the insert |
| ServersService.Panel.CommitCreate | backend/src/servers/servers.service.ts:102-146 | server, counters and primary row change together, or not at all when the node is gone or the port taken |
| ServersService.Panel.Create | backend/src/servers/servers.service.ts:73-146 | an undisturbed create is selection, port and commit in a row, and says which of them refused |
| ServersService.Panel.BeginDelete | backend/src/servers/servers.service.ts:298-312 | the row is read before the remote call, so that two deletes can hold the same one |
| ServersService.Panel.CommitDelete | backend/src/servers/servers.service.ts:314-324 | it succeeds iff the server and its node are both still there; then the server is gone and every other kept, the counters of that node are less by its limits and every other node is as before, its allocation rows belong to no server and every other row is as before; otherwise nothing changes |
| AllocatorTheorems.DeleteCommits | backend/src/servers/servers.service.ts:314-324 | the same of the step of the machine, field by field |
| AllocatorTheorems.OneDeleteWins | backend/src/servers/servers.service.ts:298-324 | of two deletes begun on one live server exactly the first to commit takes effect, whichever that is |
| ServersService.Panel.BeginAdd | backend/src/servers/servers.service.ts:397-400 | not found iff the server is gone, no port iff all are in use, otherwise the least free port is held for the insert |
| ServersService.Panel.CommitAdd | backend/src/servers/servers.service.ts:401-410 | refused iff the server or node is gone or the port was taken since, and then nothing changes; otherwise one new row, with ports still distinct and every node's primary rows as before |
| ServersService.Panel.BeginRemove | backend/src/servers/servers.service.ts:421-435 | only an extra allocation of this very server may be removed |
| ServersService.Panel.CommitRemove | backend/src/servers/servers.service.ts:436-436 | the row is gone, every other row as before, and no node loses a primary row; it throws iff the row was gone already |
| ServersService.Panel.DeleteNode | backend/src/nodes/nodes.service.ts:76-84 | a node goes with its allocation rows iff it hosts no server |
| ServersService.Panel.CreateNode | backend/src/nodes/nodes.service.ts:32-44 | a node begins offline with nothing allocated; the validators refuse less than 1 core, 256 MB of memory or 1024 MB of disk |
| ServersService.Panel.SetMaintenance | backend/src/nodes/nodes.service.ts:58-65 | the flag and the status change together, and nothing else of any node |
| ServersService.Panel.HealthCheck | backend/src/nodes/nodes.service.ts:94-112 | the status follows the answer whatever it was, the maintenance flag stays |
| ServersService.Panel.AbortCreate | backend/src/servers/servers.service.ts:96-146 | a create that throws before it commits leaves no row and no counter behind |
| GoPaths.CleanIdempotent | daemon/internal/filemgr/filemgr.go:37-37 | cleaning a clean path changes nothing, whatever the path |
| GoPaths.FoldAppend | daemon/internal/filemgr/filemgr.go:37-38 | cleaning is a left-to-right fold over components |
| GoPaths.ComponentsSettled | daemon/internal/filemgr/filemgr.go:37-37 | a rooted path's components are never empty, `.` or `..` |
| GoPaths.DirDropsLast | daemon/internal/filemgr/filemgr.go:92-92 | the directory of a clean path is the path without its last component |
| GoPaths.SingleElement | daemon/internal/filemgr/filemgr.go:37-37 | the components of a path of one element, and of the root |
| GoPaths.NothingMore | daemon/internal/filemgr/filemgr.go:37-37 | a slash or `/.` at the end adds nothing |
| GoPaths.OneDeeper | daemon/internal/filemgr/filemgr.go:37-37 | a plain name at the end is one more component |
| GoPaths.OneUp | daemon/internal/filemgr/filemgr.go:37-37 | `..` at the end takes the last name back; at the root it does nothing, and a path that is not rooted keeps it when there is no name |
| GoPaths.InAndUp | daemon/internal/filemgr/filemgr.go:37-37 | a plain name followed by `..` can be left out: same components, same clean path |
| GoPaths.LeadingUps | daemon/internal/filemgr/filemgr.go:37-37 | any number of leading `..` is kept in full by a path that is not rooted, and vanishes in one that is |
| PathResolution.ResolveStaysBelow | daemon/internal/filemgr/filemgr.go:35-43 | with an absolute data directory, for every relative path, resolve succeeds and gives the root's components followed by components that are not empty, `.` or `..` and contain no slash |
| PathResolution.ResolveFailsIff | daemon/internal/filemgr/filemgr.go:35-43 | for every data directory: the prefix test refuses a path iff the root is the working directory itself and the first component does not begin with a dot |
| PathResolution.RelativeRootRefuses | daemon/internal/filemgr/filemgr.go:39-41 | a relative data directory and an identifier with which it refuses the file `a` |
| PathResolution.RootOfPlainId | daemon/internal/filemgr/filemgr.go:29-31 | a plain identifier's root is the data directory, `servers`, the identifier |
| PathResolution.SpellingsAgree | backend/src/files/files.controller.ts:62 | the uploader's and the file browser's spellings of a child resolve alike |
| PathResolution.ChildIsOneDeeper | dashboard/src/components/panel/file-manager-panel.tsx:48-50 | and a plain name lands exactly one component deeper |
| PathResolution.OnlySlashesGo | backend/src/files/files.controller.ts:62 | the uploader takes all slashes off the end of the directory, and nothing else |
| PathResolution.PlainPathResolves | daemon/internal/filemgr/filemgr.go:35-43 | plain names joined by slashes resolve to those names below the root |
| PathResolution.UpIsParent | daemon/internal/filemgr/filemgr.go:37-37 | `..` after a path resolves to its directory, and at the root to the root |
| PathResolution.InAndUpAgain | daemon/internal/filemgr/filemgr.go:35-43 | a name followed by `..` in mid-path makes no difference to what it resolves to |
| PathResolution.UpsStayAtRoot | daemon/internal/filemgr/filemgr.go:37-38 | any number of leading `..` resolves to the server's root itself |
| FileSystem.MkdirAllAdds | daemon/internal/filemgr/filemgr.go:103-103 | making a path succeeds iff no component is a file, adds the missing directories and nothing else, and changes nothing when it fails |
| FileSystem.RenameKeeps | daemon/internal/filemgr/filemgr.go:126-126 | a rename leaves every entry in an existing directory under a plain name |
| FileSystem.AfterMove | daemon/internal/filemgr/filemgr.go:126-126 | after a move to a free name: the subtree is at the new name, nothing at the old, all else as before |
| FileSystem.RenameExact | daemon/internal/filemgr/filemgr.go:126-126 | a rename succeeds iff the old name is there, the new one's directory is there, the new name is no directory and not below the old one, and a directory does not replace a file; then what is where, path by path, and otherwise no change |
| FileSystem.WriteFileExact | daemon/internal/filemgr/filemgr.go:95-95 | a write succeeds iff the directory is there and the target is not one, changes that one file, and tells its three errors apart |
| FileSystem.RemoveAllExact | daemon/internal/filemgr/filemgr.go:111-111 | removing takes the path and all below it, also when there is nothing; only a file on the way is an error |
| FileSystem.PatchedAt | daemon/internal/sftpserver/handlers.go:52-52 | a packet at an offset, byte by byte: the new bytes, the old ones around them, zeros in a gap |
| FileSystem.RenameAndBack | daemon/internal/filemgr/filemgr.go:126-126 | renaming to a free name and back restores the tree exactly |
| FileManager.Resolved | daemon/internal/filemgr/filemgr.go:35-43 | what resolve returns, and its directory, as components |
| FileManager.Manager.Write | daemon/internal/filemgr/filemgr.go:87-96 | parents are made, then the file, with the first error; what was written reads back, and every tree stays well-formed |
| FileManager.WriteExact | daemon/internal/filemgr/filemgr.go:87-96 | a write fails iff a file stands above the target or the target is a directory, and then changes nothing; otherwise the file holds the bytes, missing directories above it are there, and every other path is as before |
| FileManager.ReadExact | daemon/internal/filemgr/filemgr.go:79-85 | a read gives the bytes iff the target is a file holding them, and otherwise tells a directory, a file on the way and nothing there apart |
| FileManager.Manager.Mkdir | daemon/internal/filemgr/filemgr.go:98-104 | the tree and error of a mkdir |
| FileManager.MkdirExact | daemon/internal/filemgr/filemgr.go:98-104 | a mkdir fails iff a file is at or above the target, and then changes nothing; otherwise the missing directories are there and nothing else |
| FileManager.Manager.Delete | daemon/internal/filemgr/filemgr.go:106-112 | the tree and error of a delete |
| FileManager.DeleteExact | daemon/internal/filemgr/filemgr.go:106-112 | a delete takes exactly the target and what is below it, and fails only behind a file |
| FileManager.Manager.Rename | daemon/internal/filemgr/filemgr.go:114-127 | the tree and error of a rename: the target's parents are made first and stay even if the rename fails |
| FileManager.RenameExactly | daemon/internal/filemgr/filemgr.go:114-127 | it succeeds iff the old name is there, no file is above the new one, which is no directory and not below the old one, and a directory does not replace a file; then what is where, path by path |
| FileManager.RenameThereAndBack | daemon/internal/filemgr/filemgr.go:114-127 | renaming to a free name and back through the manager succeeds both ways and leaves the tree with only the directories made for the target added |
| FileManager.Session.Filewrite | daemon/internal/sftpserver/handlers.go:44-53 | opening for an upload: refused when read-only, no parents made, and until packets arrive the file reads as empty |
| FileManager.UploadReadsBack | daemon/internal/sftpserver/handlers.go:51-52 | after any number of packets of an upload the file reads as exactly those packets and no other path has changed |
| FileManager.Session.Filecmd | daemon/internal/sftpserver/handlers.go:55-82 | the SFTP commands: refused when read-only, rename without making parents, the rest as dispatched |
| FileManager.ReadOnlyIsRefused | daemon/internal/sftpserver/handlers.go:45-58 | a read-only session is refused every command that writes |
| FileManager.SftpRenameExact | daemon/internal/sftpserver/handlers.go:67-72 | the SFTP rename moves the first path to the second, and needs the second's directory to be there |
| FileManager.SftpOpenExact | daemon/internal/sftpserver/handlers.go:44-53 | opening succeeds iff the directory is there and the target is not one; then the file is empty and no other path has changed |
| FileManager.SftpWriteExact | daemon/internal/sftpserver/handlers.go:51-52 | a packet changes the open file only, and is lost when that is gone |
| FileManager.SftpDispatch | daemon/internal/sftpserver/handlers.go:64-81 | removing and making directories are the manager's, attributes are left alone, links are unsupported |
| FileManager.ReadAfterWrite | daemon/internal/filemgr/filemgr.go:79-96 | what a successful write wrote is what the next read of the path returns |
| FileManager.ApplyKeeps | daemon/internal/filemgr/filemgr.go:87-127 | every command keeps the tree well-formed |
| TreeIsolation.ApplyElsewhere | daemon/internal/filemgr/filemgr.go:87-127 | a command on one plain identifier leaves another's whole subtree as it was |
| TreeIsolation.OthersLeaveItAlone | daemon/internal/sftpserver/handlers.go:44-82 | so does any sequence of file-manager and SFTP commands on other identifiers |
| TreeIsolation.OwnCallsDecide | daemon/internal/filemgr/filemgr.go:87-127 | and dropping all commands on other servers from a run changes nothing in one's own subtree |
| TreeIsolation.OwnAnswersDecide | daemon/internal/filemgr/filemgr.go:79-127 | nor in what its next call is answered, or in what it reads |
| TreeIsolation.OneCallMore | daemon/internal/filemgr/filemgr.go:87-127 | a run is its calls one after the other |
| TreeIsolation.OwnCalls | daemon/internal/filemgr/filemgr.go:29-31 | a server's own calls are those that name it, in order |
| Backups.ListDir | daemon/internal/backupmgr/backupmgr.go:64-64 | a directory is listed with its children's names, each once, in byte order |
| Backups.ReadDirUnique | daemon/internal/backupmgr/backupmgr.go:64-64 | there is only one such list |
| Backups.WalkVisits | daemon/internal/backupmgr/backupmgr.go:64-93 | the walk visits exactly what is at or below its start, once each, parents before children |
| Backups.WalkSorted | daemon/internal/backupmgr/backupmgr.go:64-93 | of two visited paths the one above the other comes first, or the one with the smaller name where they part |
| Backups.NameOrderSpelled | daemon/internal/backupmgr/backupmgr.go:64-64 | smaller names: a beginning of the other, or the smaller character where they first differ |
| BackupRestore.Manager.Create | daemon/internal/backupmgr/backupmgr.go:45-120 | the archive becomes the walk's entries without the root; on an error any old archive is gone |
| BackupRestore.Manager.Append | daemon/internal/backupmgr/backupmgr.go:64-93 | the callback appends one entry for everything visited but the root |
| BackupRestore.Manager.Restore | daemon/internal/backupmgr/backupmgr.go:122-174 | entries are replayed in order up to the first error; a missing archive changes nothing |
| BackupRestore.EntryLands | daemon/internal/backupmgr/backupmgr.go:148-151 | joining an entry's name to the root gives back the path it came from, inside the root |
| BackupRestore.EntryInside | daemon/internal/backupmgr/backupmgr.go:148-171 | any entry, however its name is spelled, that leads to the root or below it is put where it leads |
| BackupRestore.EntryAbove | daemon/internal/backupmgr/backupmgr.go:148-151 | an entry that leads above the root is an error and writes nothing |
| BackupRestore.ReplayIsOverlay | daemon/internal/backupmgr/backupmgr.go:139-172 | a replay succeeds iff no archived path has the other kind and the root is not below a file, and leaves exactly the overlay |
| BackupRestore.RestoreExact | daemon/internal/backupmgr/backupmgr.go:122-174 | for all trees: restoring the archive of one over another succeeds iff the kinds agree; then every archived path is as archived and every other path is as before |
| BackupRestore.RestoreTwice | daemon/internal/backupmgr/backupmgr.go:139-172 | restoring twice is restoring once |
| BackupRestore.WipedThenRestored | daemon/internal/backupmgr/backupmgr.go:45-174 | restoring onto a wiped server and archiving again gives the same entries, except that an empty archive does not recreate a missing root |
| BackupRestore.EmptyServerStaysRemoved | daemon/internal/backupmgr/backupmgr.go:139-174 | an empty server, archived, removed and restored, cannot be archived again |
| LogDemux.DemuxLogs | daemon/internal/dockermgr/dockermgr.go:268-292 | the loop, with one header buffer and a reader position, emits the lines and returns the error of the recursive reference; every pass consumes at least eight bytes |
| LogDemux.Reader.ReadFull | daemon/internal/dockermgr/dockermgr.go:272-285 | a buffer is filled, or nothing left and cut short are told apart |
| LogDemux.DemuxDecodes | daemon/internal/dockermgr/dockermgr.go:271-291 | complete frames and an incomplete tail give the frames' lines and the tail's error |
| LogDemux.FrameInFront | daemon/internal/dockermgr/dockermgr.go:271-291 | a frame byte by byte: stream 2 is the error stream, the length is big-endian, the payload's lines come out tagged, then whatever the rest gives |
| LogDemux.LinesBetweenNewlines | daemon/internal/dockermgr/dockermgr.go:286-290 | a payload's lines are the non-empty pieces between its bytes 10 |
| LogDemux.FrameRoundTrip | daemon/internal/dockermgr/dockermgr.go:268-292 | an encoded sequence of frames gives exactly the non-empty lines of each payload, tagged, in order, and no error |
| LogDemux.Truncation | daemon/internal/dockermgr/dockermgr.go:272-285 | cut anywhere, the stream gives exactly the lines of the frames that are whole; no error on a frame boundary, end of file right after a header, unexpected end of file anywhere else |
| LogDemux.EveryStreamIsFrames | daemon/internal/dockermgr/dockermgr.go:278-282 | every byte string is complete frames followed by an incomplete tail |
| LogDemux.FramesUnique | daemon/internal/dockermgr/dockermgr.go:278-282 | in one way only |
| LogDemux.DemuxOfAnything | daemon/internal/dockermgr/dockermgr.go:268-292 | hence the outcome on any bytes at all |
| LogDemux.TrimTakesNewlines | daemon/internal/dockermgr/dockermgr.go:286-286 | trimming takes all newlines off the end and nothing else |
| LogDemux.TrimIsHarmless | daemon/internal/dockermgr/dockermgr.go:286-287 | trimming newlines before splitting drops only empty pieces |
| LogDemux.ApartIsPlainIffNoLineCut | daemon/internal/dockermgr/dockermgr.go:286-290 | payload by payload and all at once give the same lines iff no line is spread over two payloads |
| LogDemux.DemuxIsPlainSplitting | daemon/internal/dockermgr/dockermgr.go:286-290 | per stream, the emitted lines are the non-empty lines of the concatenated payloads iff the frames cut no line |
| LogDemux.CutLineIsTwo | daemon/internal/dockermgr/dockermgr.go:286-290 | two frames that cut the line `ab`: the lines `a` and `b` come out |
| LogDemux.WholeLinesSurvive | daemon/internal/dockermgr/dockermgr.go:286-290 | in particular when every payload ends in a newline, however the bytes were cut into frames |
| Environment.TextToEnvironment | dashboard/src/components/panel/settings-panel.tsx:27-36 | the loop over lines computes the parse of the text |
| Environment.LineSays | dashboard/src/components/panel/settings-panel.tsx:30-33 | the text before the first `=` of a line, trimmed, is the key, the text after it, trimmed, the value; a line without `=` says nothing |
| Environment.TrimIs | dashboard/src/components/panel/settings-panel.tsx:30-33 | trimming takes white space off both ends and nothing else |
| Environment.SpacesListed | dashboard/src/components/panel/settings-panel.tsx:30-30 | white space is 25 code points, one by one |
| Environment.PrintedText | dashboard/src/components/panel/settings-panel.tsx:21-25 | the printed text: an entry is its key, `=`, its value; entries are on lines of their own |
| Environment.ParseIsNormal | dashboard/src/components/panel/settings-panel.tsx:29-34 | a parsed map has trimmed keys without `=` or newline and trimmed values without newline, and never the key `__proto__` |
| Environment.RoundTripIffNormal | dashboard/src/components/panel/settings-panel.tsx:21-36 | printing a map in any order and parsing it gives the map back iff it is of that form |
| Environment.ParsePrintParse | dashboard/src/components/panel/settings-panel.tsx:21-36 | parse, print, parse is parse, for every text |
| Environment.ParseOfTwo | dashboard/src/components/panel/settings-panel.tsx:29-34 | the parse of two texts on consecutive lines is the one overridden by the other |
| Environment.LastLineWins | dashboard/src/components/panel/settings-panel.tsx:33-33 | a key is set iff some line sets it, to what the last such line says |
| ScheduledTasksService.ScheduledTasksService.Create | backend/src/scheduled-tasks/scheduled-tasks.service.ts:34-53 | the row stands at the first occurrence after the moment it was computed |
| ScheduledTasksService.ScheduledTasksService.SetEnabled | backend/src/scheduled-tasks/scheduled-tasks.service.ts:72-81 | only the flag changes, a past next run stays |
| ScheduledTasksService.ScheduledTasksService.RunDueTasks | backend/src/scheduled-tasks/scheduled-tasks.service.ts:110-136 | the loop over the rows it read, with anything at all happening during its awaits; it ends early iff a row update throws |
| ScheduledTasksService.ScheduledTasksService.FindDue | backend/src/scheduled-tasks/scheduled-tasks.service.ts:111-113 | the rows read are exactly those enabled with a next run not after now, each once |
| Scheduler.TickReads | backend/src/scheduled-tasks/scheduled-tasks.service.ts:111-113 | the same of the step of the machine, with each row's expression and next run as read |
| Scheduler.DisabledNeverRuns | backend/src/scheduled-tasks/scheduled-tasks.service.ts:111-122 | a task that is disabled and held by no tick is not executed in any run that does not enable it |
| Scheduler.StoppedForGood | backend/src/scheduled-tasks/scheduled-tasks.service.ts:72-105 | a task that is disabled or deleted while no tick holds it is not executed in any run that does not enable it |
| ScheduledTasksService.ScheduledTasksService.WriteBack | backend/src/scheduled-tasks/scheduled-tasks.service.ts:126-134 | the row moves to its next occurrence, or the update throws when it is gone |
| Scheduler.StepKeeps | backend/src/scheduled-tasks/scheduled-tasks.service.ts:110-136 | every step keeps: rows stand where their histories say, ticks hold them unchanged, no task is reached by two ticks |
| SchedulerTheorems.ChargesIncrease | backend/src/scheduled-tasks/scheduled-tasks.service.ts:126-134 | of two executions of a task the later is charged to a later occurrence iff a row write came between; otherwise the first one's write was lost |
| SchedulerTheorems.NoneSkipped | backend/src/scheduled-tasks/scheduled-tasks.service.ts:170-172 | after a write, the next execution is for the first occurrence since |
| SchedulerTheorems.OccurrencesIncrease | backend/src/scheduled-tasks/scheduled-tasks.service.ts:109-136 | in every run, whatever fails, later executions are for strictly later occurrences, all after the creation, except that one whose write was lost is repeated |
| SchedulerTheorems.NoneSkippedInRun | backend/src/scheduled-tasks/scheduled-tasks.service.ts:126-134 | in every run, the execution after a write is for the first occurrence after it |
| SchedulerTheorems.RunsCounted | backend/src/scheduled-tasks/scheduled-tasks.service.ts:115-134 | executions are the distinct occurrences charged plus the lost writes |
| SchedulerTheorems.RunsAtMostFirings | backend/src/scheduled-tasks/scheduled-tasks.service.ts:109-136 | in every run, whatever fails, a task is executed at most as often as its cron fires after its creation, plus once per lost write |
| SchedulerTheorems.NoDueTaskLost | backend/src/scheduled-tasks/scheduled-tasks.service.ts:111-113 | an enabled task whose next run is not after now is later deleted, disabled, still so, or was executed for that occurrence |
| SchedulerTheorems.TickServes | backend/src/scheduled-tasks/scheduled-tasks.service.ts:115-135 | a tick has executed every row it has left behind, for the occurrence it read |
| SchedulerTheorems.ContendedTickRepeats | backend/src/scheduled-tasks/scheduled-tasks.service.ts:109-122 | a tick started while another still reaches a due task can execute it twice for one occurrence |
| SchedulerTheorems.ClearIsExact | backend/src/scheduled-tasks/scheduled-tasks.service.ts:109-136 | a tick may start exactly when no tick in flight still reaches a due task |
| SchedulerTheorems.OneTickIsClear | backend/src/scheduled-tasks/scheduled-tasks.service.ts:109-113 | runs whose ticks do not overlap are among those the theorems speak of |
| SchedulerTheorems.OverlappingTicksRepeat | backend/src/scheduled-tasks/scheduled-tasks.service.ts:109-122 | from the empty table, for every cron expression: two overlapping ticks execute one occurrence twice |
| ConsoleStreams.Socket.BeginSubscribe | backend/src/websocket/console.gateway.ts:72-81 | the view stops being quiet, every other view is as quiet as it was, and no stream is touched |
| ConsoleStreams.Socket.EndSubscribe | backend/src/websocket/console.gateway.ts:83-102 | past it: the view's old stream ends and no other; the new one is live and stored, unless streamCall throws, which leaves the map as it was |
| ConsoleStreams.Socket.Unsubscribe | backend/src/websocket/console.gateway.ts:105-113 | no stream of the view is live any more, the streams of all other views are; the view is quiet iff no subscribe to it is awaiting |
| ConsoleStreams.Socket.HandleDisconnect | backend/src/websocket/console.gateway.ts:67-70 | the loop over the map cancels every entry, then the map is empty, and nothing is live |
| ConsoleStreams.KeyInjective | backend/src/websocket/console.gateway.ts:83-135 | console and stats keys of any servers never collide |
| ConsoleStreams.OneStreamPerView | backend/src/websocket/console.gateway.ts:72-165 | in every interleaving a socket has at most one live stream per kind and server, the one its map entry cancels |
| ConsoleStreams.QuietStays | backend/src/websocket/console.gateway.ts:105-113 | a view without live stream and awaiting subscribe stays silent until it is subscribed to |
| ConsoleStreams.UnsubscribeIsQuiet | backend/src/websocket/console.gateway.ts:159-165 | unsubscribing makes it so iff no subscribe to it is awaiting, and touches no other view |
| ConsoleStreams.RefusedIsOver | backend/src/websocket/console.gateway.ts:72-81 | a subscribe whose access check fails no longer awaits: its view is quiet iff it has no live stream and no other subscribe to it awaits |
| ConsoleStreams.OnlyAwaitingSurvive | backend/src/websocket/console.gateway.ts:67-103 | after a disconnect, any live stream was opened by a subscribe that was awaiting then |
| ConsoleStreams.LeakStays | backend/src/grpc-client/node-client.service.ts:135-139 | such a stream lives until its node ends it or the same view is opened once more |
| ConsoleStreams.DisconnectIsFinal | backend/src/websocket/console.gateway.ts:67-70 | nothing is ever live after a disconnect iff no subscribe was awaiting |
| ConsoleStreams.SubscribeOutlivesSocket | backend/src/websocket/console.gateway.ts:72-103 | a first subscribe that resumes after the disconnect leaves its stream live |
| AuthService.AuthService.LookUp | backend/src/auth/auth.service.ts:141-149 | accepted iff the row is stored, not revoked and not past its date; then a request holding the token's user is under way, otherwise nothing changes |
| AuthService.AuthService.RevokeOld | backend/src/auth/auth.service.ts:152-155 | the looked-up row is revoked whatever it says by now, and no other; the update throws iff it is gone |
| AuthService.AuthService.IssueTokenPair | backend/src/auth/auth.service.ts:386-416 | a fresh unrevoked row for the user with its parent and date, unless the user is gone |
| AuthService.AuthService.Refresh | backend/src/auth/auth.service.ts:141-158 | an undisturbed refresh succeeds iff the token is stored, not revoked and not past its date; then that row is revoked, a fresh one with the old token as its parent is there, and no other row changes |
| AuthService.AuthService.Logout | backend/src/auth/auth.service.ts:160-166 | the token is not accepted any more, every other token is as before; no error for an unknown one |
| AuthService.AuthService.RevokeAll | backend/src/users/users.service.ts:80-134 | no unrevoked token of the user is left, every other user's are as before, and exactly the tokens of others are still accepted |
| RefreshTokens.RunKeeps | backend/src/auth/auth.service.ts:141-166 | every run keeps: tokens follow their requests, requests follow the tokens they looked up, with one owner along a chain |
| RefreshTheorems.OnlyLaterTokensAccepted | backend/src/auth/auth.service.ts:192-195 | in any interleaving, what a lookup accepts after a revoke-all was issued after it |
| RefreshTheorems.RefreshLineage | backend/src/auth/auth.service.ts:141-158 | it descends from a sign-in begun after the revoke-all exactly when no token of its chain was issued by a request of the user's under way at that moment |
| RefreshTheorems.RevokeAllIsFinal | backend/src/users/users.service.ts:80-134 | everything accepted afterwards descends from a later sign-in iff no request of the user's was under way |
| RefreshTheorems.SignInAcross | backend/src/auth/auth.service.ts:105-139 | from the empty tables: a sign-in checked before the revoke-all issues an accepted token after it |
| RefreshTheorems.AcceptedAgain | backend/src/auth/auth.service.ts:147-155 | a token is accepted again only while every earlier lookup of it has yet to revoke it, or has failed |
| RefreshTheorems.RotationBalance | backend/src/auth/auth.service.ts:141-158 | in any interleaving a refresh's steps neither add nor remove sessions, except that revoking a token a second time adds one |
| RefreshTheorems.RefreshKeepsCount | backend/src/auth/auth.service.ts:141-158 | an undisturbed refresh replaces the token by one of the same owner and keeps every user's number of unrevoked tokens |
| RefreshTheorems.RefreshSpendsToken | backend/src/auth/auth.service.ts:151-157 | after an undisturbed refresh the old token is never accepted again, whatever follows |
| RefreshTheorems.FailedIsOver | backend/src/auth/auth.service.ts:151-157 | a refresh or sign-in that throws between its awaits neither revokes nor issues anything after it |
| RefreshTheorems.ExpiredForGood | backend/src/auth/auth.service.ts:147-149 | once a token is past its date, no lookup of it succeeds in any run |
| RefreshTheorems.OverlappingRefreshes | backend/src/auth/auth.service.ts:143-157 | two overlapping refreshes of an accepted token leave one more unrevoked token |
| RefreshTheorems.SessionDoubles | backend/src/auth/auth.service.ts:141-158 | from the empty tables: a user's one session becomes two |
| AccessServices.Access.Authenticate | backend/src/auth/guards/jwt-auth.guard.ts:40-49 | a request with a key is authenticated iff the key is stored, not past its date and its owner active, and then by that alone; a request without one iff its user is active |
| AccessServices.Access.Create | backend/src/api-keys/api-keys.service.ts:43-74 | a key is minted with the asked scopes, unless there are none or the actor lacks one and the wildcard |
| AccessServices.Access.RevokeKey | backend/src/api-keys/api-keys.service.ts:90-96 | one's own key, or any with the wildcard, is removed |
| AccessServices.Access.SetRolePermissions | backend/src/roles/roles.service.ts:36-50 | the role has exactly the asked permissions that are in the catalogue |
| AccessServices.Access.DeleteRole | backend/src/roles/roles.service.ts:66-73 | a role that is not a system role goes; no user has it any more and no other user changes |
| AccessServices.Access.CreateUser | backend/src/users/users.service.ts:49-66 | a new active user with the given role, refused iff there is no such role |
| AccessServices.Access.UpdateRole | backend/src/users/users.service.ts:68-78 | one user has the new role, keeping the status, iff both are there |
| AccessServices.Access.UpdateStatus | backend/src/users/users.service.ts:96-148 | one user has the new status, keeping the role; an unknown user is an error |
| AccessServices.Access.DeleteUser | backend/src/users/users.service.ts:150-160 | the user and exactly the user's keys are gone |
| ApiKeyTheorems.KeyAdmission | backend/src/auth/guards/permissions.guard.ts:23-37 | through a key the guard admits iff the key is stored and not past its date, the owner is active, and each demanded permission is a scope of the key that the owner has by now; the wildcard scope counts only while the owner has it |
| ApiKeys.KeySpelled | backend/src/api-keys/api-keys.service.ts:111-141 | who a key is good for and with which permissions, field by field |
| ApiKeys.SessionSpelled | backend/src/auth/strategies/jwt.strategy.ts:26-56 | a session is good for a user who is neither banned nor suspended |
| ApiKeys.PermissionsSpelled | backend/src/auth/strategies/jwt.strategy.ts:41-45 | a user has what the role has, or the wildcard as an administrator by system role |
| ApiKeys.GuardSpelled | backend/src/auth/guards/permissions.guard.ts:23-37 | the guard admits holders of the wildcard or of every demanded permission |
| ApiKeyTheorems.ExpiredForGood | backend/src/api-keys/api-keys.service.ts:126-128 | once a key is past its date nothing is admitted through it in any run |
| ApiKeyTheorems.KeyRunsOut | backend/src/api-keys/api-keys.service.ts:126-128 | a key admits nothing once the clock is past its date |
| ApiKeyTheorems.SuspendedIsShutOut | backend/src/users/users.service.ts:96-160 | after a user is suspended, banned or deleted, no run that does not reactivate the user lets a session or any key of the user do anything |
| ApiKeyTheorems.ReactivatedIsBack | backend/src/users/users.service.ts:136-148 | a reactivated user's session can do what the role allows |
| ApiKeyTheorems.ChainNeverExceeds | backend/src/api-keys/api-keys.service.ts:49-59 | in every reachable state, a key minted through any number of keys without the wildcard is never admitted where the first of them, kept and unexpired, is not |
| ApiKeyTheorems.MintingExtendsChain | backend/src/api-keys/api-keys.service.ts:43-74 | such a chain grows by every key minted through its last one without the wildcard |
| ApiKeyTheorems.MintingSafety | backend/src/api-keys/api-keys.service.ts:134-141 | nothing minted through a key ever outdoes it iff the key lacks the wildcard now or its scopes name the whole catalogue |
| ApiKeyTheorems.RiskyMinting | backend/src/roles/roles.service.ts:45-50 | otherwise: one scope, one new role for the owner, and the child is admitted where the parent is not |
| ApiKeyTheorems.AdminKeyIsRisky | backend/src/api-keys/api-keys.service.ts:52-59 | from the empty tables: an administrator's key with the wildcard scope is not safe to mint through |
| ApiKeyTheorems.PermissionsInCatalog | backend/src/auth/strategies/jwt.strategy.ts:41-45 | users hold the wildcard or permissions of the catalogue |
| InvoiceNumbers.SuffixReadsBack | backend/src/billing/billing.service.ts:133 | the suffix of the k-th number reads back as k for every k; from 1000000 on there is no padding |
| InvoiceNumbers.NumberSpelled | backend/src/billing/billing.service.ts:133 | below 1000000 the number ends in exactly the six decimal digits of the count |
| InvoiceNumbers.SeventhOf2025 | backend/src/billing/billing.service.ts:133 | the seventh invoice, made in 2025, is ELY-2025-000007 |
| InvoiceNumbers.NumberInjective | backend/src/billing/billing.service.ts:133 | different years or counts give different numbers |
| Invoices.Billing.CreateInvoiceNumber | backend/src/billing/billing.service.ts:130-134 | the number is made of the year by now and the count by then |
| Invoices.Billing.InsertInvoice | backend/src/billing/stripe.service.ts:129-146 | the row is appended, as paid, iff no row has its number |
| Invoices.Billing.OnInvoicePaid | backend/src/billing/stripe.service.ts:116-147 | an undisturbed webhook always inserts, with the next number of this year |
| Invoices.Billing.RefundInvoice | backend/src/billing/billing.service.ts:115-119 | a refund voids one row, which keeps its number and its place, and no other |
| Invoices.FailedInsertsNothing | backend/src/billing/stripe.service.ts:116-147 | a webhook that throws before its insert never inserts, and touches no other webhook |
| Invoices.SequentialInOrder | backend/src/billing/billing.service.ts:115-134 | over any run in which webhooks do not overlap, with refunds, failures and years passing at any moment: the k-th invoice reads back as k, no number repeats, no insert is refused |
| Invoices.InvoicesInOrder | backend/src/billing/billing.service.ts:130-134 | so it is over any run, however webhooks overlap, in which none starts counting while another holds an earlier year's number and no year passes beside a stale count or between two numbers for one place |
| Invoices.DistinctAlways | backend/prisma/schema.prisma:534 | numbers never repeat, in any interleaving |
| Invoices.CarefulIsExact | backend/src/billing/billing.service.ts:131-133 | step by step that condition is exact: after a step the invoices stay in order, whatever follows carefully, iff the step met it |
| Invoices.YearOutOfOrder | backend/src/billing/billing.service.ts:131-133 | from the empty table: a number is made, a year passes, a second webhook starts, and two invoices are numbered 1 |

## Left out

- gRPC, HTTP, Docker and S3 calls, the audit log, e-mail and logging: a call's outcome is a step or a parameter.
- The permission and template checks at the start of the server requests: they read and refuse, and change nothing that is modelled.
- The count of remaining servers before a node is deleted is folded into the foreign key that refuses the same cases.
- `ServersService.update` never touches a server's limits or node, so that it is no step.
- ServersService.Panel.CreateNode: no endpoint sets the over-allocation percentages, which default to 0; they are parameters here, so that the results hold for any.
- Server, backup and node status labels are overwritten without guards; only a node's status and maintenance flag are modelled, as they decide placement.
- The summary's capacity totals and its counts of nodes, users and unpaid invoices: reductions with nothing to prove.
- The capacity test and the load ratio are exact over integers and reals; rounding of floating-point numbers is not modelled.
- Allocation rows have one address only (`0.0.0.0`, the only one the service inserts), so that the unique index is over node and port.
- LogDemux.DemuxLogs: the sizes put together with shifts and bitwise or are sums here, as the bytes do not overlap; lines are bytes, not decoded text.
- Environment.TextToEnvironment: strings are sequences of characters, and white space is what `trim` removes; UTF-16 surrogates are not told apart.
- The file system has no symbolic links, modes, owners or times; walks and restores of anything but directories and regular files are not modelled.
- FileManager.Session.Filewrite: what is open follows its path, not the file that was opened: writing on after the file was renamed, or after another took its place, is not modelled.
- FileManager.Manager.Rename: which of two errors is returned when both names are bad.
- FileManager.Manager.Delete: removing the file system's own root answers with an error here; no server's root is that.
- Directory listings over HTTP and SFTP, with their paging into a caller's buffer, and `EnsureServerRoot`, which is a mkdir of the root.
- BackupRestore.Manager.Create: gzip, the tar byte format, the checksum and I/O errors in mid-walk; archives are kept under the pair of server and backup identifier instead of a path made of them.
- The cron grammar: an expression is given by when it fires and its next occurrence, which is the first firing after a time; expressions that stop firing are not modelled.
- ScheduledTasksService.ScheduledTasksService.RunDueTasks: what an action does, and whether it fails, does not matter to the loop, so that executing is one step.
- ConsoleStreams.Socket.EndSubscribe: the data a stream carries and the messages emitted for it.
- Access tokens: a JWT stays valid until it expires, whatever is revoked; password hashes, two-factor codes and OAuth are behind the step that checks credentials.
- RefreshTokens.RunKeeps: token values are identifiers, that is hashing is taken as injective and random tokens as fresh; the lifetime of a token is a parameter.
- AccessServices.Access.DeleteUser: the database refuses to delete a user who still owns servers or invoices; here it goes through.
- AccessServices.Access.Create: scopes and permissions are sets, as the code only ever searches those lists; the key's text and hash are its identifier.
- ApiKeyTheorems.MintingSafety: the key is minted in the state in which its request was authenticated; `ChainNeverExceeds` has any steps in between.
- InvoiceNumbers.SuffixReadsBack: numbers are unbounded, where JavaScript prints integers exactly only up to 2^53.
- Webhooks for subscriptions that do not exist insert nothing, so that they are no step.
- `backend/src/auth/auth.service.ts` impersonation, Modrinth and CurseForge catalogues, the marketplace, support tickets, coupons and plans.
