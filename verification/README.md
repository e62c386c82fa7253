# A shared, deduplicating file store: model and proofs

The server keeps each user's directories under `userfs`, stores every file body once under
`filestore`, and puts symbolic links to the stored bodies into the users' trees. Three more pieces of
state must agree with the links: the `filedata` table (stored name, digest, number of owners), the
`sharedata` table (sharer, sharee, the owner's path, the sharee's path, permission) and the counter
that names stored files. Reference counts cover only owner links; a sharee's link survives only
because the handlers unlink and relink in the right order.

This project models that store, the RPC runtime that serialises its handlers, the check that admits a
handler, the current-directory protocol between client and server, and the client's recursive
deletion, and proves what users and maintainers rely on - and, where the code does not keep a promise,
exactly when it does.

The layers:

- `FileServer.dfy` is the server in the source's own form: a class whose methods update fields, make
  file-system calls and table statements one at a time, loop over sharees, and compare path text with
  string prefixes. Each handler is proved to do exactly what its step function says.
- `Store.dfy` holds the state and its invariant, `Handlers.dfy` the step functions and runs;
  `Invariants.dfy` and `Steps.dfy` prove that every request inside the user's root keeps the invariant.
- `PlainStore.dfy` is what users are promised: a map from owner path to bytes, directories, and a
  share relation. `Refinement.dfy` proves that the server behaves as that map over every
  run that keeps the invariant.
- `Confinement.dfy` says exactly which steps, and which runs, keep the invariant where `checkpath` lets a
  request out of the user's root, and what such requests do.
- `NameSearch.dfy` follows the name search of a share into the states such requests lead to.
- `Requests.dfy` says, from a valid state, exactly what every request answers, which shares it ends or changes
  and under what names links and files are put, in terms of the entries, the rows and the request's own text.
- `Accounting.dfy`, `UserLaws.dfy`, `Observation.dfy`, `Provenance.dfy`, `ReadOnly.dfy` and `ShareUndo.dfy`
  are the consequences.
- `Dispatch.dfy` is the lock protocol for any handlers made of micro-steps; `Microsteps.dfy` runs the
  handlers' single file and table statements under it, over any number of sessions of the server.
- `TypeGraph.dfy`, `Navigation.dfy`, `RemoveAll.dfy`, `Listings.dfy`, `Paths.dfy` and `Decimal.dfy` cover
  handler admission, `cd`, recursive deletion, sorted listings, path text and the printed counter.

Paths are the components of a clean absolute path, relative to `userfs`. That nothing else gets past
`checkpath` is `Navigation.CheckPathText`, which works on raw request text.

Where the code and its own documentation part, the model follows the code:

- `checkpath` is documented to accept exactly the user's root and what is below it
  (server/server.go:118-119). It also accepts a path whose first component properly extends the user
  name: "bob" gets through to the root of "bobby". `FileServer.CheckPathDecides` says exactly which paths
  pass. What that costs is stated for every request from a valid state, each time with a condition on that
  state that is met exactly when the promise is kept: `Confinement.StepValidExactly` and `RunValidExactly`
  for the invariant; `Provenance.StepProvenanceExactly` for who writes, `ReadExactly` for who reads, and
  `StepGrantsExactly` for whose grant a new right is - bob can share bobby's file with alice;
  `Observation.AsPlainExactly`, with `UserLaws.UploadSeenExactly` and `RemovalSeenExactly`, for what others
  then find; `ReadOnly.HiddenExactly` for whether sharing shows; `Steps.UploadExitsExactly` for the exit that
  ends the server; `Navigation.HomeExactlyWithoutSiblings` for `cd`. `Provenance.BobOverwritesBobby`,
  `AliceReadsBobbys`, `ReadOnly.BobRemovesBobbysShares` and `Confinement.ExitReached` are concrete runs.
  Theorems about runs ask that every step that succeeds keeps the invariant (`KeepsThroughout`), as all
  requests inside the user's root do (`Confinement.ConfinedKeepsThroughout`); `Provenance.RightWasGiven` is
  about every run.
- The name search of shareHandler (server/server.go:688-704) goes on until Stat fails with an error that
  os.IsNotExist accepts, and two others are not accepted, so that in two cases it does not end and the lock
  of the dispatcher is never released. A NUL character in the file name or in the sharee's name: every
  file-system call refuses such a path. And a file in the place of the sharee's Shared_with_me: Stat goes
  through a link to a file and finds no directory. Such a file gets there by an upload that `checkpath` lets
  through (:136), that removes the empty directory (:1066-1070) and links in its place (:324).
  `Handlers.SearchEndsExactly` and `Steps.HangsExactly` say in any state that these are the only two cases,
  `Steps.ValidHangsExactly` that from a valid state only the first occurs; `Microsteps.CallReturnsExactly` and
  `HungForGood` what follows; `NameSearch.FileHangs` and `NulHangs` are concrete runs. Where a dangling link
  has the name, the search does end there, and the share fails: `NameSearch.ShareOkExactly`.
- cdHandler (server/server.go:1218-1220) answers a path with a NUL as if it were there, for the same reason:
  `Navigation.NulLeavesHome`.
- RegisterHandler is documented to refuse pointers (lib/support/rpc/server.go:35-42); the table of
  valid kinds admits `unsafe.Pointer` (lib/support/rpc/reflect.go:111). `TypeGraph.MeetsTable` is what the
  code checks, `TypeGraph.Documented` what is written; `TypeGraph.TableAgainstDocumentation` says exactly
  where they part.
- signupHandler means to bound the length of user names, but its test asks for a length below 5 and
  above 16 at once (server/server.go:467) and never refuses anything. So "", "." and "..", and names
  with a NUL, get a userdata row before the process ends on the failing mkdir; `Navigation.CheckPathUnnamed`
  says what `checkpath` would accept from a user with one of the first three names.

## Model

| member | source | states |
|---|---|---|
| FileServer.Server.UploadHandler | server/server.go:837-901 | from a valid state does what the upload step says; the invariant holds afterwards exactly under the stated condition on the state before; and the process exits exactly on an existing share in the Shared_with_me of a user whose name extends the uploader's |
| FileServer.Server.UploadHelper | server/server.go:272-400 | deduplicating upload: refuse under Shared_with_me, clear the place, then link to the blob with this digest or to a fresh one |
| FileServer.Server.StoreBody | server/server.go:286-399 | the two branches of deduplication, the second updating the count by digest; a failed symlink leaves only the blob |
| FileServer.Server.SharerUpload | server/server.go:167-212 | for the sharer of a place, and for an uploader let through to somebody else's shared file, both loops run to completion, no exit is taken, and the result is the shared upload of the step function |
| FileServer.Server.UnlinkSharees | server/server.go:179-197 | the first loop removes every sharee's link, whatever order the rows come in, and never fails |
| FileServer.Server.Relink | server/server.go:201-210 | the second loop puts the owner's new link at every sharee's place, each of them free when its turn comes |
| FileServer.Server.RemovePath | server/server.go:987-1083 | unlink and lower the count, reclaim blob and row at zero, remove an empty directory, keep the user's Shared_with_me |
| FileServer.Server.RemoveHandler | server/server.go:1088-1186 | from a valid state does what the remove step says, no unlink inside it fails, and the invariant holds afterwards exactly under the stated condition |
| FileServer.Server.RemoveShare | server/server.go:1111-1125 | a share's link goes, and its row where it is the user's own, from any state |
| FileServer.Server.ListSharees | server/server.go:1127-1149 | the first loop on a shared file lists every sharee's place once, whatever order the rows come in |
| FileServer.Server.UnshareAll | server/server.go:1151-1174 | the second loop unlinks every sharee and deletes every row of the file, and runs to completion |
| FileServer.Server.ShareHandler | server/server.go:606-744 | from any state does what the share step says; where the name search would not end the answer is Hangs; from a valid state the symlink at the found name never fails, and the invariant holds afterwards exactly under the stated condition |
| FileServer.Server.PlaceShare | server/server.go:673-738 | from any state in which the name search ends, the link and the row of a share go to the name it ends on, or nothing changes |
| FileServer.Server.FindName | server/server.go:688-704 | from any state, where no NUL is in the names and Stat finds a directory or nothing at the sharee's Shared_with_me, the name search terminates, on the first candidate Stat finds nothing at |
| FileServer.Server.UnshareHandler | server/server.go:749-831 | does what the unshare step says, keeps the invariant, and the unlink never fails |
| FileServer.Server.ChpermHandler | server/server.go:522-596 | does what the chperm step says and keeps the invariant |
| FileServer.Server.MkdirHandler | server/server.go:968-982 | does what the mkdir step says, and the invariant holds afterwards exactly under the stated condition |
| FileServer.Server.SignupHandler | server/server.go:448-514 | a new user gets a row, a root and a Shared_with_me and neither mkdir fails; the process exits, leaving the row, exactly for the names "", "." and ".." and those with a NUL that have no row yet |
| FileServer.Server.DownloadHandler | server/server.go:905-939 | the bytes behind the link at the path, or nothing |
| FileServer.Server.ListHandler | server/server.go:945-965 | the entries of a directory with their kind, in ascending order of their names, character by character, or nothing |
| Listings.SortedUnique | server/server.go:952 | the entries of a directory have only one sorted listing |
| Listings.LessExactly | server/server.go:952 | the order is ascending: at the first place where two names differ the greater character comes later, and a prefix comes first |
| FileServer.Server.constructor | server/server.go:47-56 | the server starts with the tables and directories on disk and the counter, of either sign, read from its file |
| FileServer.Server.Finalizer | server/server.go:1245-1248 | the text written is the decimal counter, and reading it back gives the counter |
| FileServer.Restart | server/server.go:47-56 | the counter, which lives in memory, comes back at the next start through the finalizer's text; tables, directories and blobs are handed over as they are on disk |
| FileServer.CheckPathDecides | server/server.go:118-141 | checkpath accepts a path exactly when it is in the user's root or its first component properly extends the user name |
| FileServer.CheckPathAcceptsSibling | server/server.go:118-141 | a concrete path that passes although the documentation excludes it |
| FileServer.UnderSharedDirDecides | server/server.go:273-280 | the Shared_with_me prefix test refuses exactly the user's paths whose second component starts with that name |
| Paths.PrefixDecides | server/server.go:136 | HasPrefix on two clean absolute paths: component-wise containment, or a sibling whose component extends the last one |
| Handlers.CandidatesDistinct | server/server.go:695-703 | the candidate names of a share are pairwise distinct |
| Handlers.PendingShrinks | server/server.go:695-703 | the pigeonhole step: passing an occupied candidate leaves strictly fewer occupied ones |
| Handlers.FirstFree | server/server.go:688-704 | a first free candidate exists and every earlier one is in use |
| Invariants.LookupExactly | server/server.go:993-1004 | what a lookup finds at a path: a directory at the end of directories, a file there, a first component that is missing, or a file in the way |
| Invariants.StatMissingExactly | server/server.go:288-300 | Stat finds nothing exactly where the first component that is no directory is missing or a dangling link |
| Invariants.UnlinkRows | server/server.go:1011-1061 | unlinking an owner link leaves every count exact, and the row goes exactly when that was the last owner link |
| Invariants.UnlinkKeepsCore | server/server.go:1011-1061 | with no live share on the link, reclaiming its blob leaves no link dangling |
| Invariants.FreshKeepsFiles | server/server.go:309-348 | a fresh blob gets a row with one owner and a new name, and digests stay unique |
| Invariants.DedupKeepsFiles | server/server.go:350-398 | a deduplicated upload makes the found row's count exact again and touches no other row |
| Invariants.UploadWorks | server/server.go:272-400 | uploadHelper writes the body exactly when the place can be written, changing nobody else's entry or bytes, and otherwise changes only the stray blob |
| Invariants.SharerUploadWorks | server/server.go:167-212 | after a shared upload the invariant holds and the owner's and every sharee's link lead to the new body |
| Steps.UploadExitsExactly | server/server.go:229-233 | from a valid state getPerms ends the process if and only if the upload goes to an existing share in the Shared_with_me of a user whose name properly extends the uploader's |
| Steps.RemoveNeverStuck | server/server.go:1100-1174 | from a valid state no unlink of a removal fails, whoever asks for it |
| Steps.ShareNeverStuck | server/server.go:688-724 | from a valid state the symlink of a share never fails, whoever asks for it |
| Handlers.SearchEndsExactly | server/server.go:688-704 | from any state, some candidate name is one Stat finds nothing at if and only if neither name holds a NUL and Stat finds a directory or nothing, and no file, at the sharee's Shared_with_me |
| Steps.HangsExactly | server/server.go:606-704 | from any state, a call never returns if and only if it is a share not refused before the name search, and a NUL is in the last component of its path or in the sharee's name, or a file is in the place of the sharee's Shared_with_me |
| Steps.ValidHangsExactly | server/server.go:606-704 | from a valid state it never returns if and only if it is a share, not refused before the name search, of a path whose last component holds a NUL or with a sharee whose name does |
| Steps.UnshareKeepsValid | server/server.go:749-831 | every unshare keeps the invariant, and its unlink does not fail |
| Steps.ChpermKeepsValid | server/server.go:522-596 | every change of permission keeps the invariant |
| Steps.SignupKeepsValid | server/server.go:448-514 | every signup keeps the invariant, and ends the process if and only if the password is long enough and the name is "", "." or ".." or holds a NUL, without a slash and without a row |
| Steps.RunKeepsValid | server/server.go:60-72 | the invariant holds after every run of confined requests |
| Steps.InitialValid | server/REINITIALIZE_ALL.sh:1-12 | the freshly initialized server satisfies the invariant |
| Requests.AnswerExactly | server/server.go:448-1186 | from a valid state, exactly what each of the seven state-changing requests answers, in terms of the entries, the rows and the request's own text |
| Requests.UploadSucceeds | server/server.go:837-901 | from a valid state an upload succeeds if and only if it goes to a share of the user's own with permission 1, or elsewhere to a place a file can be put at that does not look like the user's Shared_with_me |
| Requests.RemoveSucceeds | server/server.go:1088-1186 | a removal succeeds if and only if the path is a link, or a directory with nothing in it other than the user's own Shared_with_me |
| Requests.ShareSucceeds | server/server.go:606-744 | a share succeeds if and only if the permission is "r" or "rw" and the path is a link that this user does not share with the sharee yet |
| Requests.UnshareSucceeds | server/server.go:749-831 | an unshare succeeds if and only if the user shares the path with the sharee |
| Requests.ChpermSucceeds | server/server.go:522-596 | a change of permission succeeds if and only if the user shares the path with the sharee and the text is "r" or "rw"; otherwise nothing changes |
| Requests.OtherPermissionsRefused | server/server.go:572-578 | from any state, a share or chperm with another permission text is refused and changes nothing |
| Requests.MkdirSucceeds | server/server.go:968-982 | a directory is made if and only if nothing is there, no component holds a NUL, and the parent is a directory |
| Requests.SignupSucceeds | server/server.go:448-514 | exactly which signups succeed, and that the new user's root then lists the directory "Shared_with_me" and nothing else |
| Requests.SecondSignupRefused | server/server.go:448-463 | a name is given out once, and is gone also where the signup ended the process |
| Requests.DownloadGives | server/server.go:905-939 | from a valid state a download gives the bytes behind the link at the path, and nothing anywhere else |
| Requests.ListGives | server/server.go:945-965 | a listing holds exactly the entries of the directory, each by its name and whether it is a directory |
| Requests.SharePlaced | server/server.go:688-732 | from any state, a successful share adds one link and one row, under the sharee's Shared_with_me by the file's own name or that name with a number in front, the least at which Stat finds nothing |
| Requests.SecondNameIsNumberedOne | server/server.go:695-703 | the second file of a name gets the number 1 in front |
| Requests.StoredUnder | server/server.go:309-398 | a body no row has is stored under "file" and the counter, which goes up by one; one that a row has is linked to that row's file |
| Requests.FirstFile | server/REINITIALIZE_ALL.sh:1-12 | the first file stored after initialization is "file1" |
| Requests.MkdirMakes | server/server.go:968-982 | a directory that was made is listed, empty, and no other entry appears or changes |
| Requests.RemovalTakes | server/server.go:1088-1186 | a successful removal takes away the entry and, where it is the sharer's, the sharees' links, and no other entry |
| Requests.ShareEndsExactly | server/server.go:749-831 | a share ends by its sharer's unshare, its sharer's removal of the file or its sharee's removal of the share, and by no other request |
| Requests.ShareChangesExactly | server/server.go:522-596 | a share that stays changes only by its sharer's chperm, to what the text says |
| Confinement.StepValidExactly | server/server.go:120-141 | exactly which successful steps keep the invariant when checkpath lets a request out of the user's root, by a condition on the state before |
| Confinement.FailedStepKeepsValid | server/server.go:120-141 | a step that fails keeps the invariant, confined or not |
| Confinement.UploadValidExactly | server/server.go:272-400 | a successful upload keeps the invariant if and only if it is confined, or the place is unshared and below a root outside every Shared_with_me, or it is shared and the upload changes nothing |
| Confinement.RemoveValidExactly | server/server.go:1088-1186 | a successful removal keeps the invariant if and only if it is confined, or the path is neither shared nor somebody's Shared_with_me |
| Confinement.ShareValidExactlyConfined | server/server.go:610-611 | a successful share keeps the invariant if and only if the shared path is in the sharer's root |
| Confinement.MkdirValidExactly | server/server.go:972-974 | a successful mkdir keeps the invariant if and only if it is not made beside the users' roots |
| Confinement.SiblingUploadBreaks | server/server.go:273-280 | an accepted upload into the Shared_with_me of a user with an extending name always loses the invariant |
| Confinement.ConfinementNeeded | server/server.go:120-141 | a concrete run that ends outside the invariant |
| Confinement.RunValidExactly | server/server.go:60-72 | the state is valid after every step of a run if and only if every step that succeeds is one that keeps the invariant |
| Confinement.UnconfinedUploadOkExactly | server/server.go:272-400 | an upload outside the user's root with no share in the way succeeds if and only if the place can be written, or is free beside the users' roots |
| Confinement.UnconfinedWrites | server/server.go:272-400 | what such an upload writes: the body at the place, every other entry unchanged, and the bytes behind every other owner link unchanged |
| Confinement.ExitReached | server/server.go:229-233 | a concrete run after which an accepted upload ends the process |
| NameSearch.SharedDirOverwritten | server/server.go:282-328 | an upload onto the empty Shared_with_me of a user whose name extends the uploader's puts a file in its place, and every other link still leads to its bytes |
| NameSearch.SharesHang | server/server.go:688-704 | from then on every share with that user that is not refused before the name search hangs |
| NameSearch.FileHangs | server/server.go:688-704 | a concrete run of four accepted requests, without a NUL, after which a share never returns |
| NameSearch.NulHangs | server/server.go:688-704 | a concrete run of two signups after which the share of a name with a NUL never returns |
| NameSearch.ShareOkExactly | server/server.go:688-724 | from any state, a share of a file whose name search ends succeeds if and only if the sharee's Shared_with_me is there and the name found is no dangling link, and otherwise changes nothing |
| NameSearch.RemovalLeavesDangling | server/server.go:1100-1174 | the removal of a shared file nobody else owns, by a user whose name its owner's extends, leaves the sharees' links dangling |
| NameSearch.RemovalRefusesShares | server/server.go:696-722 | from then on no file of such a link's name can be shared with that sharee: the search ends on the link and the symlink fails |
| Refinement.UploadRefines | server/server.go:837-901 | users see an upload that keeps the invariant, shared or not, deduplicated or not, as one write to the plain map, with the same answer |
| Refinement.RemoveRefines | server/server.go:1088-1186 | users see a removal that keeps the invariant as deleting the file with its shares, one share, or an empty directory |
| Refinement.ShareRefines | server/server.go:606-744 | users see a share, whoever makes it, as one new row of the share relation, unless what is shared is itself a share |
| Refinement.UnshareRefines | server/server.go:749-831 | users see an unshare as one row fewer |
| Refinement.StepRefines | server/server.go:448-1186 | the effect and answer of every handler that keeps the invariant are those of the plain map |
| Refinement.RunRefines | server/server.go:448-1186 | every run that keeps the invariant throughout simulates the plain map |
| Refinement.DownloadRefines | server/server.go:905-939 | a download gives the plain map's bytes, for owner and sharee paths alike |
| Refinement.ServerIsPlain | README:25 | every run from the freshly initialized server that keeps the invariant throughout, and every download after it, is that of the plain map |
| Accounting.DedupComplete | server/server.go:287-400 | as many rows as distinct contents among owner links, and the counts add up to the number of owner links |
| Accounting.ReclaimedExactly | server/server.go:1011-1061 | no link dangles, a row exists exactly while somebody owns the file, the file store holds nothing else but one stray, and no two rows have equal bodies |
| Accounting.NextBlobUnreferenced | server/server.go:311-347 | the next fresh name belongs to no row and no link, and every row's name was handed out earlier |
| Accounting.RunCounter | server/server.go:347 | the counter never decreases over a run |
| Accounting.SharesOneLevelDeep | server/server.go:242-280 | links under Shared_with_me are exactly the shareepaths, nothing received is shared on, and sharer, sharee and path name at most one row, so the order of isSharedFile's tests does not matter |
| Accounting.SharesCoherent | server/server.go:179-212 | between handlers every row's two links point to the same stored file, with its blob and row |
| Accounting.EveryRunAccounts | server/server.go:282-388 | in every reachable state each count is the number of owner links, and rows, contents and counts agree |
| UserLaws.UploadSeenExactly | README:23 | after an upload exactly the owner and everyone the file is shared with read the new bytes and every other path reads as before, if and only if the path is in the writer's root, or is not shared, or the write changes nothing |
| UserLaws.ShareeWritesExactly | server/server.go:862-885 | a sharee's upload succeeds exactly when its permission is read-write, and otherwise changes nothing |
| UserLaws.OwnerWritesExactly | server/server.go:282-328 | an owner's upload fails exactly when the path holds a NUL, the parent is no directory, or the place is a directory that is not empty |
| UserLaws.FailedUploadAtomic | server/server.go:309-371 | a failed upload changes no link, row, counter or download, only a blob no row names |
| UserLaws.RemovalSeenExactly | server/server.go:1088-1186 | after a removal the path and every share of it read as nothing and nothing else changes, if and only if the path is in the remover's root, or is not shared, or its file has no other owner |
| UserLaws.ShareThenRead | server/server.go:606-744 | a share, whoever makes it, gives the sharee at one new place the bytes the sharer reads, and every other path reads as before |
| UserLaws.ChpermSetsExactly | server/server.go:566-588 | chperm changes the permission of exactly the one row asked for |
| UserLaws.ListRefines | server/server.go:945-965 | a listing is that of the plain store |
| Observation.AsPlainExactly | server/server.go:448-1186 | from a valid state the answer of every request and all downloads after it are the plain map's, if and only if the request makes nothing beside the roots, leaves no sharee behind, and shares no share |
| Provenance.StepProvenanceExactly | server/server.go:865-884 | a step changes an owner's bytes only as the owner's upload or removal there or as the upload of a sharee with permission 1, if and only if it does not overreach: other bytes uploaded to, or a file removed from, a place checkpath wrongly let the user reach |
| Provenance.RunProvenance | server/server.go:865-884 | over any run that keeps the invariant a change of an owner's bytes has a step that was allowed to make it, or one that overreached |
| Provenance.StepGrantsExactly | server/server.go:610-622 | every right to read or write that a step adds is the owner's grant, if and only if the step is not a share, let through by checkpath, of somebody else's file |
| Provenance.RightWasGiven | server/server.go:566-622 | in every run from the initial state, whatever its requests, a row that holds a right was given it by its sharer, and has held it in every state since; past a step that loses the invariant, with the rows as the model keeps them (see Left out) |
| Provenance.UsurpedRead | server/server.go:718-726 | after a share of somebody else's file the sharee reads in its own root what the sharer reads, though no owner granted it |
| Provenance.AliceReadsBobbys | server/server.go:136 | a concrete run in which a third user reads a file whose owner granted nothing |
| Provenance.EveryWriterAuthorised | server/server.go:572-588 | after a run that keeps the invariant, whoever changes an owner's bytes by a step that does not overreach is the owner or a sharee holding the owner's grant for that path |
| Provenance.ReadExactly | server/server.go:905-939 | a download gives the bytes of the owner's place behind the path, to a user entitled to them if and only if the path is in the user's root |
| Provenance.EveryReaderAuthorised | server/server.go:905-939 | after a run that keeps the invariant, whoever reads an owner's bytes from its own root is the owner, or somebody with whom the owner shared that path, not revoked since |
| Provenance.SiblingOverwrites | server/server.go:136 | every unshared file of a user whose name extends another's can be read and overwritten by that other, with the invariant kept |
| Provenance.BobOverwritesBobby | server/server.go:136 | a concrete run in which one user reads and overwrites another's file |
| ReadOnly.SharerUploadedOwned | server/server.go:167-212 | outside Shared_with_me a shared upload is an ordinary upload |
| ReadOnly.HiddenExactly | README:23 | from a valid state in which all shares are read-only, a request inside Shared_with_me changes nothing outside and any other has the same effect and answer with all shares erased, if and only if it is not one that shows: an upload that stores something or leaves a stray blob inside another user's Shared_with_me, or an upload onto, or the removal of, one that is not empty |
| ReadOnly.ReadOnlySharingInvisible | README:23 | in a run granting only read access, none of whose steps shows, links outside Shared_with_me, blobs, rows, counter and the answers of all requests that are not erased are those of the run with all sharing erased |
| ReadOnly.BobRemovesBobbysShares | server/server.go:1066-1076 | a concrete removal refused with a share there and done without it |
| ReadOnly.BobUploadsOntoBobbysShares | server/server.go:282-328 | a concrete upload onto a Shared_with_me that ends differently without its share |
| ReadOnly.StrayShows | server/server.go:309-328 | a concrete failing upload inside another user's Shared_with_me that leaves a stray blob |
| ShareUndo.ShareAddsOne | server/server.go:718-732 | a share adds exactly one link and one row at a free place |
| ShareUndo.UnshareUndoesShare | server/server.go:799-818 | unshare after share restores the exact prior state, whoever shares |
| Decimal.AtoiInvertsItoa | server/server.go:52 | parsing the printed counter gives it back |
| Decimal.ItoaInjective | server/server.go:311 | different counters print differently |
| Decimal.AtoiExactly | server/server.go:52 | a text is a number if and only if it is a sign at most and then digits, at least one |
| Decimal.AtoiPlaceValue | server/server.go:52 | and which number: each digit counts its distance from '0', ten times as much for every digit after it |
| Decimal.FirstCounter | server/REINITIALIZE_ALL.sh:1-12 | the text of the initialization script is the number 1 |
| Decimal.CounterSurvivesRestart | server/server.go:47-56 | the counter file is read back exactly, with and without the final newline |
| Dispatch.Serialisable | lib/support/rpc/server.go:67-78 | with any number of clients and any interleaving, two handlers never run at once, and with the lock not held the store is that of a serial execution |
| Dispatch.NothingAfterShutdown | lib/support/rpc/server.go:101-119 | once the shutdown has the lock no handler steps, and what the finalizer wrote stays the final store's |
| Dispatch.LogArrived | lib/support/rpc/server.go:110-119 | only requests that arrived are executed |
| Dispatch.NeverReleased | lib/support/rpc/server.go:110-119 | a call that never returns keeps the lock: no other request takes it, no shutdown does, and the store stays |
| Dispatch.ArrivalWaits | lib/support/rpc/server.go:110-111 | a request that arrives waits for the lock, and nothing else changes |
| Dispatch.Served | lib/support/rpc/server.go:110-119 | with the lock free, a waiting request whose handler returns is executed: it takes the lock, goes to the log, leaves the store its handler alone would make, is answered, and the lock is free again |
| Dispatch.UnknownAnswered | lib/support/rpc/server.go:114-117 | a request that names no handler is answered, and nothing runs |
| Dispatch.HolderReturns | lib/support/rpc/server.go:110-119 | the call that has the lock, if it returns, gives it back with the store its handler alone would have made |
| Dispatch.ShutsDown | lib/support/rpc/server.go:101-106 | with the lock free the server shuts down for good, and the finalizer's text of the store as it is goes to the file |
| Microsteps.JobExpands | server/server.go:448-1186 | every piece of handler code between two statements, reading the store as it is when its turn comes, amounts to the statements and pieces it goes on with; the name search asks Stat about one candidate at a time |
| Microsteps.HandlersImplementSteps | lib/support/rpc/server.go:110-119 | run alone, the handlers as micro-step programs end in their step's state |
| Microsteps.CallReturnsExactly | server/server.go:448-1186 | a call returns, after finitely many micro-steps and in the state of its step, if and only if the step is not one that hangs |
| Microsteps.ServerSerialises | lib/support/rpc/server.go:101-119 | started on any state, under any interleaving of clients' statements, with the lock not held the store is that of a serial run, and valid if that run keeps the invariant |
| Microsteps.RequestAnswered | lib/support/rpc/server.go:110-119 | after any events that leave the server unshut, a request that arrives can be answered with its handler run to the end, last in the log and with the store of the serial run, no waiting request being touched, unless it hangs or the call that has the lock does |
| Microsteps.CanShutDown | lib/support/rpc/server.go:101-106 | and the server can be shut down cleanly with the counter of the serial run in the file, unless the call that has the lock hangs |
| Microsteps.FirstRequestAnswered | lib/support/rpc/server.go:72-119 | on a server just started, any first request that does not hang can be executed |
| Microsteps.ShutDownAtOnce | lib/support/rpc/server.go:101-106 | and a shutdown with nothing done writes the counter |
| Microsteps.HungForGood | lib/support/rpc/server.go:101-119 | once a call that hangs has the lock no other request is ever served, the server cannot be shut down cleanly, and the store stays as the requests before left it |
| Microsteps.CounterPersists | server/server.go:1245-1248 | after a clean shutdown no statement follows the finalizer, and the next start reads the final counter |
| Microsteps.SessionsAreOneRun | server/server.go:47-56 | any number of concurrent, cleanly shut down sessions, each started from the tables and counter text the one before left, are one serial run of all their requests |
| TypeGraph.Search.ValidTypeHelper | lib/support/rpc/reflect.go:120-153 | the search terminates on cyclic graphs; what it marks is settled on success, and on failure a bad kind is reachable |
| TypeGraph.SettledIsSendable | lib/support/rpc/reflect.go:121-123 | answering nil for a type still being searched is harmless |
| TypeGraph.SendableByKind | lib/support/rpc/reflect.go:120-153 | kind by kind: a map needs its key and its element sendable, a slice or array its element, a struct every field; a channel, function, interface or pointer never is, any other kind always |
| TypeGraph.ChanKeyRefused | lib/support/rpc/reflect.go:134-138 | a handler that takes a map with channels for keys is refused |
| TypeGraph.ValidType | lib/support/rpc/reflect.go:116-118 | nil exactly when every reachable type has a valid kind; and exactly when, kind by kind, the parts the kind has are sendable - of a map the key too |
| TypeGraph.GetHandler | lib/support/rpc/reflect.go:54-87 | a handler is accepted exactly when its shape is right and every reachable kind is in the code's table, which is also stated kind by kind, with its argument and return types recorded; an accepted one meets the documentation exactly when it mentions no unsafe.Pointer |
| TypeGraph.Registry.RegisterHandler | lib/support/rpc/server.go:43-54 | a name is registered exactly when it is new and the handler meets the table, and nothing else changes |
| TypeGraph.TableAgainstDocumentation | lib/support/rpc/server.go:25-42 | of the handlers that meet the table, exactly those without an unsafe.Pointer meet the documentation; of those that meet the documentation only one with an invalid kind fails the table |
| TypeGraph.UnsafePointerMeetsTable | lib/support/rpc/reflect.go:111 | a concrete handler that is accepted against the documentation |
| Navigation.CheckPathText | server/server.go:120-141 | on raw request text checkpath accepts nothing outside userfs, and inside exactly the first components that start with the user name |
| Navigation.AbsExactly | server/server.go:1212 | which place a text names, component by component: an empty one and "." stay, ".." goes one up and stops at the top, a name goes one down |
| Navigation.CheckPathUnnamed | server/server.go:120-141 | for the user names "" and "." checkpath accepts userfs and what is beside it under an extending name, for ".." the server's own directory likewise |
| Navigation.CdAnswers | server/server.go:1205-1240 | cdHandler succeeds exactly on accepted paths that Stat, which follows links, does not miss, and answers their text |
| Navigation.CdRefusals | server/server.go:1218-1240 | exactly when cdHandler answers each of its two refusals |
| Navigation.CdGoesDown | client/client.go:358-380 | typing a name goes one down, to where Stat finds something |
| Navigation.CdGoesUp | client/client.go:358-380 | typing ".." goes one up, and from the top of a root nowhere |
| Navigation.CdFixedPoint | server/server.go:1205-1240 | a successful answer is a fixed point of cdHandler |
| Navigation.Client.CD | client/client.go:358-380 | one CD stays at places checkpath accepts, and in the user's root while Stat finds nothing in userfs under an extending name and no NUL is typed |
| Navigation.Client.constructor | client/client.go:153-154 | the current directory starts at the user's root |
| Navigation.RunStaysAllowed | client/client.go:358-380 | whatever is typed, every run of CD stays at places checkpath accepts |
| Navigation.RunStaysHome | client/client.go:358-380 | while Stat finds nothing in userfs under an extending name and no NUL is typed, every run of CD stays in the user's root |
| Navigation.HomeExactlyWithoutSiblings | client/client.go:358-380 | one CD without a NUL can leave the root if and only if Stat finds something under such a name |
| Navigation.NulLeavesHome | server/server.go:1218-1220 | with a NUL typed one CD leaves the root of every user, whatever directories there are |
| RemoveAll.RemoveAllHelper | lib/support/client/test.go:237-252 | it terminates, succeeds on every directory of the user's but the root, and removes exactly what is below with its shares; on the root it stops having removed exactly what is listed before Shared_with_me and everything in that directory |
| RemoveAll.RemoveEntry | lib/support/client/test.go:242-250 | one entry goes with everything below it, children first; only the user's Shared_with_me is refused, once emptied |
| RemoveAll.RemoveOne | server/server.go:1088-1186 | removing a link or an empty directory succeeds and takes exactly that entry with its shares |
| RemoveAll.CountsLowered | server/server.go:1018-1061 | each stored file's count falls by exactly its owner links among what was removed, and it is reclaimed exactly when all of them were there |

## Left out

- FileServer.Server.MkdirHandler: the kernel resolves the raw path text, the model its clean form; they differ only when ".." follows a missing component or a link, where the kernel refuses.
- FileServer.Server.ListHandler: the same holds for the raw path it reads.
- FileServer.Server.ShareHandler: a file name or path too long for the file system would keep the name search going too; names have no length limit here.
- FileServer.Server.SignupHandler: a user whose name has a row but no directory makes no requests here, and one called "", "." or ".." is no sharee; Navigation.CheckPathUnnamed is what is said of these.
- Refinement.StepRefines: asks that the step keep the invariant; for the others Observation.AsPlainExactly compares answers and downloads, not the whole plain state.
- Microsteps.JobExpands: the tests of a handler before its first statement are one micro-step, the name search one per candidate.
- Microsteps.ServerSerialises: a call that ends in os.Exit ends only itself here, and a run may go on after one that hangs, so the model has more runs than the server; after an exit the real counter file is stale.
- Provenance.RightWasGiven: in runs that lost the invariant a share can meet a shareepath that already has a row; the source then keeps two rows, the model, whose table is keyed by shareepath, the new one.
- Microsteps.HandlersImplementSteps: in such runs an unlink inside a loop over sharees can fail; the source's loop stops there with an answer, the step functions and their micro-steps go on.
- Microsteps.RequestAnswered: every request there names one of the handlers; for one that names none there is Dispatch.UnknownAnswered.
- RemoveAll.RemoveAllHelper: the client's current directory is not prefixed to the paths; a failed call returns false instead of ending the test.
- Integer width: the counter, owner counts and candidate numbers are unbounded, 64-bit overflow is not modelled.
- Digests: SHA-1 with base64 is one injective function.
- Tables: filedata is keyed by filename and sharedata by shareepath; that each insert meets a free key follows from the invariant. SQL text, cursors and locking are not modelled.
- Sessions of users: a request of an unregistered user is refused; cookies, expiry, passwords and authenticate are not modelled.
- Operating-system failures other than those the directory tree causes.
- Gob encoding, reflection calls, the buffer pool and TCP; a response is a value.
- Answers are an enumeration, not the source's texts, except in cdHandler, whose text the client uses.
- The command loop, terminal prompts, pwd, RegisterFinalizer and the fixed test scenarios.
