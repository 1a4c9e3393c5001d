# Depsis web client, modelled and proved

Depsis is a storage appliance. Its web client uploads files in chunks that survive broken connections, lists folders page
by page, walks folders for photos, keeps desktop shortcuts on a grid, and prints a code the desktop client reads back.
This project models those parts in Dafny and proves what they promise, over every input and every behaviour of the
network, the server, the browser and the user. `dafny verify dfyconfig.toml` checks everything.

What cannot be controlled is an adversary: a *fate*, an *event* or an answer chosen freely. Clocks, locale collation, name
folding, image types and months are parameters (total preorders and functions on names).

| file | what it holds |
|---|---|
| `UploadServer.dfy` | one upload session of the API and the storage agent behind it, with handlers that die anywhere, the three steps of a publication included |
| `UploadClient.dfy` | `uploadFile`: opening, resuming, the chunk loop, its decisions; each as a function and as a loop |
| `UploadTheorems.dfy` | safety, termination, request bounds, memory and conservation of the upload, run after run |
| `UploadEndings.dfy` | exactly when the upload returns with nothing published, and networks under which it publishes |
| `UploadBooks.dfy` | the books of a batch and the queue of name clashes |
| `Shortcuts.dfy`, `ShortcutMoves.dfy` | folding a saved layout onto the grid; dropping and adding icons |
| `ListingOrder.dfy`, `Listing.dfy` | merging pages into one order; the listing as a machine with late answers |
| `Photos.dfy` | the budgeted breadth-first walk, newest first, month by month |
| `FolderChain.dfy`, `DropTree.dfy` | making folders through a cache; flattening a dropped tree |
| `ServiceWorker.dfy`, `AssetRecency.dfy` | the asset cache under interleaved stores; which assets it is left with |
| `Pairing.dfy` | printing and reading the pairing line |
| `Sequences.dfy`, `Strings.dfy`, `Arithmetic.dfy`, `Wrappers.dfy` | stable sorting, `filter`, `split`/`join`, division, `Option` |

State that the program changes in place is a class whose methods say which function of the old state the new state is
(`Listing.FilesPane`, `FolderChain.FolderMaker`, `AssetRecency.ShellCache`, `UploadBooks.ClashQueue`); the loops are methods
proved equal to such a function; the theorems are about those functions. History variables (`log`, `taken`, `made`,
`stopped`, `closed`, ...) record what the program does not keep.

## Where the code does not do what it says

Each of these has a lemma with a concrete input that shows it, and a lemma saying exactly when it happens.

- An upload can return normally without a file being published, because a 409 naming the full offset realigns the loop to
  its end. It takes no refusal: one connection that breaks on the last chunk is enough, when the server kept the chunk and
  had not recorded it (`UploadEndings.TornLastChunkSlips`); so is a last chunk whose publication is refused for any reason
  but the name (`UploadEndings.RefusedPublicationSlips`). Exactly when, in terms of the session and the request:
  `UploadEndings.TurnSlipsIff` for a turn, `DriveSlipsIff` for the loop, `UploadSlipsIff` for an upload. It cannot happen
  where interrupted writes are rolled back and no publication is so refused (`UploadEndings.NothingSlips`).
- A name clash is said to leave the bytes in staging, waiting for a decision. They wait exactly when it was the agent that
  found the name held on disk. When another row has the folded name, the agent has already renamed the staging file into the
  tree, and a decision to keep both or to replace is answered "staged bytes gone" (`UploadEndings.RowClashLosesTheBytes`; exactly when:
  `UploadEndings.ClashResolvesIff`).
- Three retries are allowed, but a chunk that breaks before anything is recorded is never retried, because the probe refuses
  offset 0 (`UploadTheorems.FirstBreakIsFinal`; exactly when a failure is followed up:
  `UploadTheorems.FailureIsFollowedUpIff`).
- `truncated` is said to tell an incomplete timeline, but stays down when the budget is spent inside the last folder
  (`Photos.FlagAloneIsNotEnough`), and when the final cut drops photos (`Photos.FinalCutIsSilent`). When no read fails and
  the images are fewer than the budget, the walk reads the whole tree exactly when its pages do not outnumber the reads
  allowed (`Photos.WalkIsWholeIff`); in general, `Photos.WalkMisses`.
- A listing in descending order shows its first page ascending until a second page comes
  (`ListingOrder.FirstPageUpsideDown`; exactly when: `ListingOrder.FirstPageIgnoresDirection`).
- Dropping an icon on a free cell can move other icons, when folded ones close the gap
  (`ShortcutMoves.FreeMoveClosesTheGap`; exactly when: `ShortcutMoves.FreeMoveIff`). Dropping it on another can move a third,
  when two icons were saved to one cell of this grid (`ShortcutMoves.DisputedDropMovesAThird`; exactly when:
  `ShortcutMoves.DropExchangesIff`).
- With overlapping stores the asset just put may be the one evicted (`AssetRecency.OverlapLosesTheNewest`; from a
  fresh install: `AssetRecency.RushLosesTheNewest`). The most recent assets cached are at every moment the most recent ones
  put exactly when no step deletes one of them (`AssetRecency.OverlapKeepsMostRecentIff`), and overlap is harmless as long
  as no key is put while another store is still going to delete it (`AssetRecency.SparingOverlapKeepsMostRecent`).

## Model

| member | source | states |
|---|---|---|
| UploadServer.PatchKeepsSound | apps/api/src/files/uploads.controller.ts:639-862 | whatever slice is sent at whatever offset and wherever the handler dies, between any two steps of a publication too: what is stored stays a prefix of the file, the row never runs ahead of it, only a whole file is moved and only a moved one published, and nothing is taken back |
| UploadServer.HeadKeepsSound | apps/api/src/files/uploads.controller.ts:623-637 | asking for the offset, with an earlier handler finishing late, keeps the session sound and takes nothing back |
| UploadServer.AnswersTellTheTruth | apps/api/src/files/uploads.controller.ts:658-862 | an OK means the whole chunk is stored, and published when it was the last; "name taken" means every byte is stored, unpublished, and still in the staging file exactly when the agent found the name held, not a row; any other 409 with an offset names the true length stored, strictly ahead of the client |
| UploadServer.StoresOnlyInPlace | apps/api/src/files/uploads.controller.ts:658-712 | whatever bytes any client sends, something is stored only when row, staging file and client agree on the offset and the chunk stays within the declared length; and then a first part of the chunk, at the end |
| UploadServer.PublicationStages | apps/api/src/files/uploads.controller.ts:827-862 | which outcomes of a publication leave the file in staging, move it, publish it, and say the name is taken |
| UploadServer.ResolvesOnlyWhole | apps/api/src/files/uploads.controller.ts:187-262 | a decision publishes exactly a session that is recorded whole, not moved and not published, under a name that is free |
| UploadClient.ProbeResumes | apps/web/src/resume.ts:90-100 | a probe gives an offset exactly when the server answers and holds part of the file but not all of it, and then that offset is what is recorded |
| UploadClient.ResumesIff | apps/web/src/resume.ts:90-100 | a HEAD lets the upload go on from n exactly when it says 200, this file's length and the offset n, with n above 0 and below the size |
| UploadClient.HeaderRoundTrip | apps/web/src/Files.tsx:4129-4137 | an offset the server writes in a 409 is read back as exactly that realignment, up to the largest safe integer and no further; a taken name wins over any offset |
| UploadClient.RealignsIff | apps/web/src/Files.tsx:4129-4137 | a 409 realigns to n exactly when the name is not taken and its header says the whole number n, from 0 to 9007199254740991 |
| UploadClient.TurnKeepsReady | apps/web/src/Files.tsx:4014-4084 | one turn of the loop, for every fate of its PATCH and its HEAD: client offset is the recorded offset, at most what is staged, at most the size; staged bytes are a prefix of the file; the retry count is in range |
| UploadClient.TurnIsOneOfThree | apps/web/src/Files.tsx:4014-4084 | a turn that goes on accepted a whole chunk and cleared the retry count, or realigned strictly forward, or used up one retry |
| UploadClient.TurnUsesPotential | apps/web/src/Files.tsx:4014-4084 | every turn that goes on lowers a measure of the chunks left and the retries left, so the loop ends against every network |
| UploadClient.UploadFile | apps/web/src/Files.tsx:3930-4088 | the whole upload as written, with its two loops, is the function the theorems are about: the world left, the outcome, and the record of offsets shown, pauses, HEADs and answers |
| UploadClient.OpenSession | apps/web/src/Files.tsx:3977-4002 | the loop that opens a session as written is the function `Open` |
| UploadClient.OpenIsSound | apps/web/src/Files.tsx:3977-4002 | at most four POSTs with pauses under the ceiling between them; a session opened is the newest, empty and remembered, and without one the memory stays as it was |
| UploadClient.OpensIff | apps/web/src/Files.tsx:3982-4002 | a session is opened exactly when one of at most four POSTs is answered with its address and every one before it was told 429 or 503 |
| UploadClient.OpeningIs | apps/web/src/Files.tsx:3982-4002 | the POST that settles the matter (the first not told to wait, or the fourth) decides everything: the session opened, the cause given otherwise, the number of POSTs, and each pause |
| UploadClient.BackoffIs | apps/web/src/Files.tsx:3910-3914 | a pause is what the server asked for in seconds, else 1, 2, 4, 8 seconds; never more than ten |
| UploadClient.SendChunks | apps/web/src/Files.tsx:4014-4084 | the chunk loop as written, from any state and for every network, is the function `Drive` |
| UploadClient.AnswerKeepsReady | apps/web/src/Files.tsx:4056-4083 | whatever answer that told the truth is taken, a loop that goes on stands at the recorded offset of a session still sound, and one that stops leaves the session sound |
| UploadClient.AnswerGoesOnIff | apps/web/src/Files.tsx:4044-4083 | the loop goes on after an answer exactly on an OK, on a 409 with a usable offset and the name not taken, or on a network error, 429 or 503 that is at most the third in a row and whose probe gives an offset |
| UploadClient.StopReason | apps/web/src/Files.tsx:4029-4081 | why a turn ends the run: the tab closed, the file could not be read, a network error, the name taken, or the refusal's own status; and what it still asked and waited for |
| UploadClient.ChunksLeftIs | apps/web/src/Files.tsx:4016 | the chunks left are the least number of 5242880 bytes that hold the bytes left |
| UploadTheorems.PercentIsMonotone | apps/web/src/Files.tsx:4083 | more bytes never show a smaller percentage, and all are from 0 to 100, however floating-point results are rounded, as long as rounding is monotone and exact at 0, 1 and 100 |
| UploadTheorems.PercentIsNearest | apps/web/src/Files.tsx:3973 | nothing sent shows 0 and everything 100, under any such rounding; and with exact arithmetic the nearest whole percentage is shown, halves up |
| UploadTheorems.TurnKeepsRecord | apps/web/src/Files.tsx:4014-4084 | the offsets shown so far never went down, pauses are positive and at most the ceiling, and no more than three failures stand in a row |
| UploadTheorems.StopHolds | apps/web/src/Files.tsx:4044-4081 | however a turn ends the run, the run it ends keeps every promise listed under `DriveHolds` |
| UploadTheorems.DriveHolds | apps/web/src/Files.tsx:4014-4084 | over every run: the offsets shown ascend within the file, pauses stay under the ceiling, never a fourth failure in a row; the run ends as a name clash exactly when the last PATCH was answered "name taken", naming this very session, which has stored every byte and published none; a 409 with no usable offset ends it; a normal return means every byte is stored |
| UploadTheorems.DriveClashHolds | apps/web/src/Files.tsx:4056-4058 | a run that ends as a name clash leaves the bytes in staging exactly when its last PATCH found the name held by the agent, and moved exactly when by a row |
| UploadTheorems.RunShowsProgress | apps/web/src/Files.tsx:4074-4083 | in every such run each percentage shown is from 0 to 100 and none is smaller than the one before |
| UploadTheorems.DriveRequests | apps/web/src/Files.tsx:4014-4084 | a run costs at most seven PATCHes for each chunk left, and one more when the staging file was ahead |
| UploadTheorems.DriveAsks | apps/web/src/Files.tsx:4046-4076 | the loop asks where the server stands at most once for every failed PATCH |
| UploadEndings.SteadyNetworkFinishes | apps/web/src/Files.tsx:3881-3914 | when every PATCH either gets through or goes wrong without completing the staging file (never arrives, is told to come later, is torn, or has its answer lost in the middle), never four times before two good turns, and probes are answered, an upload on its way ends published and whole, however often it breaks |
| UploadEndings.GoodTurnFinishes | apps/web/src/Files.tsx:3881-3914 | the same from any good turn on, the first of a fresh session included |
| UploadEndings.SteadyUploadPublishes | apps/web/src/Files.tsx:3930-4088 | so a whole upload: a remembered session the server vouches for, or else a new one whose first PATCH gets through, ends published, with the memory cleared |
| UploadEndings.ClashResolvesIff | apps/api/src/files/uploads.controller.ts:187-262 | after an upload ends as a name clash a decision can publish its bytes exactly when it was the agent that found the name held; when a row held it, keeping both and replacing are answered "staged bytes gone" and the session deleted |
| UploadEndings.RowClashLosesTheBytes | apps/api/src/files/files.service.ts:1689-1733 | for every file of one chunk whose folded name another row has: a clash that no decision can publish |
| UploadTheorems.FailureIsFollowedUpIff | apps/web/src/Files.tsx:4046-4076 | a failed PATCH is followed by another exactly when it is at most the third in a row, the server answers, and it has recorded part of the file but not all |
| UploadTheorems.FirstBreakIsFinal | apps/web/src/Files.tsx:4046-4050 | a first chunk cut off on the wire ends the upload, although three more tries are allowed and HEAD answers |
| UploadEndings.TurnSlipsIff | apps/web/src/Files.tsx:4056-4064 | one turn brings the loop to its end with nothing published exactly when its PATCH is answered, its handler gets to the staging file, nothing was published meanwhile, the size is a safe integer, and either every byte is staged already or this last chunk's publication is refused with a 409 that is not "name taken" |
| UploadEndings.DriveSlipsIff | apps/web/src/Files.tsx:4014-4084 | the loop returns normally with nothing published exactly when that holds at some turn it gets to |
| UploadEndings.UploadSlipsIff | apps/web/src/Files.tsx:3930-4088 | an upload, resumed or new, returns normally with its session unpublished exactly when that holds at some turn of its loop |
| UploadEndings.RefusedPublicationSlips | apps/web/src/Files.tsx:4056-4064 | for every file of one chunk: its publication is refused with a plain 409, the upload returns normally, nothing is published |
| UploadEndings.TornLastChunkSlips | apps/web/src/Files.tsx:4046-4064 | for every file of two chunks: one break on the second, kept but not recorded, and the upload returns normally with nothing published |
| UploadEndings.NothingSlips | services/system-agent/src/data.rs:540-560 | where interrupted writes are rolled back, as the agent does, and no publication is refused with a plain 409, a normal return means a published file |
| UploadTheorems.UploadHolds | apps/web/src/Files.tsx:3930-4088 | for every world and network: all sessions stay sound and only grow, and the run keeps the promises of `DriveHolds` and `DriveClashHolds` in the session it sent to, remembered or new |
| UploadTheorems.EmptyFileIsRefused | apps/web/src/Files.tsx:3941-3943 | an empty file is refused before anything is asked or forgotten |
| UploadEndings.NothingIsSentUnopened | apps/web/src/Files.tsx:3977-3999 | when no session can be opened nothing is sent, and the upload ends with the cause the opening gives |
| UploadTheorems.MemoryIsKept | apps/web/src/Files.tsx:3953-4002 | the remembered address changes only when the probe says the session is unusable or the loop reached the size; a run that sent anything and did not finish leaves its session remembered; the remembered session is used exactly when the server vouches for it |
| UploadTheorems.UploadRequests | apps/web/src/Files.tsx:3962-4084 | one upload costs at most four POSTs, seven PATCHes a chunk and one over, and one HEAD more than it has failed PATCHes |
| UploadTheorems.EveryByteOnceAndInOrder | apps/web/src/Files.tsx:3953-4088 | over any number of interrupted runs, every session's staged bytes are the file's own, in order from the first, never stored twice, rewritten or withdrawn |
| Shortcuts.ReadLayout | apps/web/src/Shortcuts.tsx:68-77 | the first entry of every id, in order |
| Shortcuts.ReadingKeepsIds | apps/web/src/Shortcuts.tsx:68-77 | reading loses no id and keeps each once |
| Shortcuts.FirstEntriesWin | apps/web/src/Shortcuts.tsx:68-77 | of entries with one id the first wins, cell and all, and the winners stand in the order they stood |
| Shortcuts.WrittenLayoutReadsBack | apps/web/src/Shortcuts.tsx:68-88 | a layout without repeated ids is read back as it was written |
| Shortcuts.VisiblePlacement | apps/web/src/Shortcuts.tsx:111-138 | the placement is a fold: the first claimant of an in-grid cell keeps it; the others keep their saved order, avoid kept cells and leave no smaller free cell empty; and every icon is drawn at its cell. By rows and columns: the first icon saved to a cell of the field is drawn there, no two are drawn on one cell, and all are drawn on the field when there are no more icons than cells |
| Shortcuts.GridIsField | apps/web/src/Shortcuts.tsx:115 | the cells counted as the grid's are exactly those of the field's rows and columns, and one cell when it has none |
| Shortcuts.FoldIsUnique | apps/web/src/Shortcuts.tsx:94-138 | those promises leave exactly one placement, so nothing about it is left to how it is computed |
| Shortcuts.FoldIsInjective | apps/web/src/Shortcuts.tsx:111-138 | no two icons are placed on one cell |
| Shortcuts.FoldStaysOnGrid | apps/web/src/Shortcuts.tsx:111-138 | when icons do not outnumber cells every icon is on the grid |
| Shortcuts.FirstFree | apps/web/src/Shortcuts.tsx:133 | the smallest free cell from where the search stands |
| ShortcutMoves.DropsOnGrid | apps/web/src/Shortcuts.tsx:314-321 | wherever an icon is let go, its target is a cell of the grid |
| ShortcutMoves.DropsOnNearest | apps/web/src/Shortcuts.tsx:314-321 | wherever an icon is let go, beyond the edges too, its target is in the nearest column and the nearest row of the field |
| ShortcutMoves.DropsWhereDrawn | apps/web/src/Shortcuts.tsx:314-321 | an icon let go less than half a step from where a cell's icon is drawn lands on that cell |
| ShortcutMoves.DropsIff | apps/web/src/Shortcuts.tsx:461-462 | an icon not on screen, or let go where it is, changes nothing; any other drop writes a layout |
| ShortcutMoves.DropExchangesIff | apps/web/src/Shortcuts.tsx:459-474 | dropping on an occupied cell writes the two cells seen, and on screen exchanges exactly those two icons and moves no other, folded or not, exactly when no other icon, earlier in the layout than one of them, was saved to the cell the other is seen on |
| ShortcutMoves.DropExchanges | apps/web/src/Shortcuts.tsx:459-474 | with no two saved icons on one in-grid cell it always does, and leaves a layout that is again such a one |
| ShortcutMoves.DisputedDropMovesAThird | apps/web/src/Shortcuts.tsx:459-474 | three icons on three cells, the second folded off the first one's cell: exchanging the outer two moves the second too |
| ShortcutMoves.FreeMoveIff | apps/web/src/Shortcuts.tsx:459-474 | dropping on a free cell puts the icon there; the others stay where they were seen exactly when no folded icon stands beyond the cell left and none was saved to it; with no two saved icons on one in-grid cell none was, and the layout written is again such a one |
| ShortcutMoves.FreeMoveClosesTheGap | apps/web/src/Shortcuts.tsx:459-474 | two icons on three cells, the second folded in: moving the first away moves the second |
| ShortcutMoves.NextFreeCell | apps/web/src/Shortcuts.tsx:147-157 | the first free cell going round from the wanted one; off the grid only when the grid is full, and then the nearest |
| ShortcutMoves.AroundGoesOn | apps/web/src/Shortcuts.tsx:148-149 | the search starts at the wanted cell and goes to the next, from the last to the first |
| ShortcutMoves.RoundTheGrid | apps/web/src/Shortcuts.tsx:148-151 | going round meets every cell of the grid within as many steps as there are cells |
| ShortcutMoves.Add | apps/web/src/Shortcuts.tsx:479-485 | the icon is appended with the first free cell of the screen; whenever a cell of the field is free it is one of the field, the next fold shows the icon at exactly that cell, and every other icon where it was; and no two saved icons come to share a cell of this grid |
| ShortcutMoves.AddingMovesNone | apps/web/src/Shortcuts.tsx:479-485 | an icon added on a free cell is seen exactly there, and no other icon moves, folded ones included |
| ShortcutMoves.FoldAgainIsSame | apps/web/src/Shortcuts.tsx:94-138 | folding what is seen changes nothing |
| Sequences.SortIsStable | apps/web/src/Files.tsx:3647-3656 | sorting yields an ordered list in which rows that tie stand as they stood |
| Sequences.StableSortIsUnique | apps/web/src/Files.tsx:3647-3656 | there is only one such list |
| Shortcuts.SortedSpill | apps/web/src/Shortcuts.tsx:129-130 | sorting the folded icons by saved cell keeps all of them, once, ties in layout order |
| ListingOrder.MergingIsOneSort | apps/web/src/Files.tsx:3629-3656 | merging page by page equals one stable sort of everything received, in the chosen direction from the first merge on, whatever the first page was drawn in; under the other keys, concatenation |
| ListingOrder.RowsFollowDirection | apps/web/src/Files.tsx:3641-3656 | from the second page on, folders stand first and rows of one kind stand in the direction asked for, upward when none was |
| ListingOrder.FoldersComeFirst | apps/web/src/Files.tsx:3641-3656 | in either direction no file stands before a folder |
| ListingOrder.FirstPageIgnoresDirection | apps/web/src/Files.tsx:1053 | a single page shows the downward order asked for exactly when no two of its rows are strictly ordered by name |
| ListingOrder.FirstPageUpsideDown | apps/web/src/Files.tsx:1053 | two files in order, asked for downward, are shown upward |
| ListingOrder.PickerAddsUp | apps/web/src/Background.tsx:48-65 | the picker shows one sort of everything pickable it received, and rows shown plus rows hidden are the rows received |
| ListingOrder.PageAddsPickable | apps/web/src/Background.tsx:48-65 | a page adds its folders and media and no other row, folders first and by name; the button comes exactly with a cursor to follow |
| Listing.StepShowsTaken | apps/web/src/Files.tsx:997-1065 | one step of the machine, whatever arrives: the rows are the pages accepted in this run, drawn; the cursor and the button are those of the last |
| Listing.StepInOrder | apps/web/src/Files.tsx:997-1035 | at most one continuation is on its way, exactly while the pane says it is paging, and one of this run asks at the cursor on screen; an answer knows whether it is late |
| Listing.PlayShowsTaken | apps/web/src/Files.tsx:974-1065 | both, over every sequence of moves, presses and answers |
| Listing.PlayTakesFirstPages | apps/web/src/Files.tsx:974-1065 | against one server the pages accepted are the first k pages of the listing in force, chained by their cursors |
| Listing.RowsAreFirstPages | apps/web/src/Files.tsx:974-1065 | over every interleaving from the first render, the rows are exactly the first k pages of the listing in force, each once, none of an older one: stably sorted by name, or concatenated |
| Listing.LateAnswerShowsNothing | apps/web/src/Files.tsx:1003-1010 | an answer to an older listing changes no row, cursor or message; it only frees the button |
| Listing.FirstAnswerIs | apps/web/src/Files.tsx:1036-1062 | the first page of the listing in force is shown at once, in the server's order or by name with folders first, with its cursor and button; a failure says so and shows nothing; a refusal changes nothing |
| Listing.FailedMoreKeepsRows | apps/web/src/Files.tsx:1006-1018 | a continuation that fails or is refused takes nothing off the screen and frees the button |
| Listing.MoveStartsOver | apps/web/src/Files.tsx:1025-1036 | a move shows nothing, forgets the cursor and asks for the first page of the new place, in a new run; so does the first render |
| Listing.PressAddsOnePage | apps/web/src/Files.tsx:997-1022 | the button asks exactly when a cursor is known and no continuation, even of an older listing, is on its way; answered, it adds exactly one page |
| Listing.FilesPane.MoveTo | apps/web/src/Files.tsx:1025-1036 | a changed dependency starts a new run with nothing shown and cancels the first page on its way |
| Listing.FilesPane.LoadMore | apps/web/src/Files.tsx:997-1005 | `loadMore` up to its request is the press of the machine |
| Listing.FilesPane.MoreArrives | apps/web/src/Files.tsx:1006-1022 | the rest of `loadMore` is the machine's answer, late, failed or good |
| Listing.FilesPane.FirstArrives | apps/web/src/Files.tsx:1036-1062 | the rest of the listing effect is the machine's answer, cancelled, refused, failed or good |
| Photos.WalkPhotos | apps/web/src/Photos.tsx:51-87 | the walk as written is the function `Walked`, cut and sorted, and returns at most the budgeted photos |
| Photos.WalkFolder | apps/web/src/Photos.tsx:64-82 | the inner loop as written reads one folder page by page as `ReadFolder` does |
| Photos.ShotsAre | apps/web/src/Photos.tsx:76-79 | of a page's rows exactly the image files are photos, each as often as it stands there |
| Photos.SubfoldersAre | apps/web/src/Photos.tsx:76-77 | every folder of a page is queued, in order, from its first page on |
| Photos.WalkedHolds | apps/web/src/Photos.tsx:51-83 | against any reader, even a cyclic tree or one that changes its mind: at most the budgeted reads, shallowest first, and whatever is left unread or half read is at least as deep as everything read |
| Photos.WalkAccounts | apps/web/src/Photos.tsx:59-83 | against any reader: photos collected, folders queued, the folder left half read and what lies under pages that failed or forgot their cursor hold every image of the tree, as often as it stands there, and when nothing failed the same of pages; the flag is up exactly when something is lost under a page or folders are left waiting by a spent budget |
| Photos.FailuresCostTheirOwn | apps/web/src/Photos.tsx:68-75 | a page that fails or forgets its cursor costs what lies under it and no more: with both counters below the budget every other image is shown |
| Photos.FolderTakesNothing | apps/web/src/Photos.tsx:64-82 | reading a folder, readable or not, takes away nothing collected or waiting before |
| Photos.WalkIsWholeIff | apps/web/src/Photos.tsx:51-87 | when no read fails, no cursor is forgotten and the tree has fewer images than the budget: the walk reads all pages, leaves the flag down and no folder half read exactly when pages do not outnumber the reads allowed; then every image is shown; otherwise the whole budget of reads is spent |
| Photos.TooManyPages | apps/web/src/Photos.tsx:60-82 | whatever fails, more pages than reads allowed leave the flag up or a folder half read |
| Photos.FlagHasACause | apps/web/src/Photos.tsx:59-82 | when no read fails and no cursor is forgotten, the flag is up exactly when folders are left waiting, and then a budget is spent |
| Photos.WalkMisses | apps/web/src/Photos.tsx:59-86 | with the flag down and whatever budgets: photos and what the half-read folder holds are all images, pages read and left are all pages, and the timeline is whole exactly when that folder holds no images and the final cut drops none |
| Photos.WalkIsComplete | apps/web/src/Photos.tsx:51-87 | with the flag down and both counters below the budget, every image of the tree is shown exactly as often as it stands there |
| Photos.FlagAloneIsNotEnough | apps/web/src/Photos.tsx:60-83 | a folder of two pages and a budget of one read: flag down, one of two photos |
| Photos.FinalCutIsSilent | apps/web/src/Photos.tsx:85-86 | a single page of more photos than the budget is cut with the flag down |
| Photos.ShownAreNewest | apps/web/src/Photos.tsx:85-86 | the photos shown are newest first and nothing cut off is newer than anything shown |
| Photos.ByMonth | apps/web/src/Photos.tsx:96-113 | every month once, in order of first occurrence, with all its photos in the order they had |
| Photos.TimelineTells | apps/web/src/Photos.tsx:96-113 | under each heading stand exactly the photos of its month, each heading stands once and none is empty |
| Photos.MonthsDescend | apps/web/src/Photos.tsx:96-113 | of photos newest first, the months come newest first, when later stamps never fall in earlier months |
| FolderChain.EnsureFolderHolds | apps/web/src/Files.tsx:1572-1634 | a folder returned is the one of that folded name in that folder, though the POST was refused or its answer lost; nothing is lost from the tree; a listing that shows it means success |
| FolderChain.EnsureFolderIff | apps/web/src/Files.tsx:1572-1634 | a folder is made exactly when its name was free and nobody refused, with an id of its own; one is returned exactly when it was made and heard of, or the search (for a name that is not blank) or the listing shows it |
| FolderChain.KeyHolds | apps/web/src/Files.tsx:1555-1562 | the key of a clean path splits back into the path, so no two paths share a key |
| FolderChain.ChainHolds | apps/web/src/Files.tsx:1551-1570 | from any point of a path: the cache stays truthful, each key is made once, and the id reached is the folder at the whole path |
| FolderChain.ChainCosts | apps/web/src/Files.tsx:1551-1570 | a chain makes one request for each folder not in the cache and one for the folder it fails at; and it fails at none when no request is refused and every listing shows the folder |
| FolderChain.RunHolds | apps/web/src/Files.tsx:1551-1580 | over every sequence of paths, with others making folders meanwhile and requests failing: each cached key maps to the folder found by walking the tree, each chain that led somewhere led there, and no prefix was created or adopted twice |
| FolderChain.SecondFileIsFree | apps/web/src/Files.tsx:1544-1570 | the next file of a folder makes no request and goes to the same place |
| FolderChain.FolderMaker.EnsureChain | apps/web/src/Files.tsx:1551-1570 | the loop as written, filling the cache it is given, is the function `Chain` |
| FolderChain.PathSegmentsHold | apps/web/src/Files.tsx:3686-3691 | segments are never empty and hold no slash; for a path of clean names they are exactly the names above the file |
| DropTree.ReadAllEntries | apps/web/src/Files.tsx:3787-3805 | all batches up to the first empty one, or up to the first error |
| DropTree.WalkEntry | apps/web/src/Files.tsx:3761-3776 | the recursive walk as written pushes exactly what `Walk` yields |
| DropTree.CollectDrop | apps/web/src/Files.tsx:3746-3758 | uploads are those of the items in order; items whose nature cannot be told are counted and not uploaded |
| DropTree.PlainFilesIff | apps/web/src/Files.tsx:3749-3753 | of plain files exactly those with bytes or a type are uploaded, and the others are counted |
| DropTree.RoutesHold | apps/web/src/Files.tsx:3761-3776 | the routes walked are exactly those to readable files within the depth, each once, in tree order |
| DropTree.DropIsExact | apps/web/src/Files.tsx:3737-3776 | a dropped entry yields, in tree order, one upload for each of the different routes to a readable file with at most 24 folders above it, tagged with exactly their names, and nothing else, even in a graph with cycles |
| DropTree.RouteCountsFolders | apps/web/src/Files.tsx:3771-3774 | a file's tag has one name for each folder on the way to it |
| DropTree.BatchesDoNotMatter | apps/web/src/Files.tsx:3778-3805 | any way of cutting a directory into batches reads the same, whether an empty batch ends it or an error |
| DropTree.SameTreeSameWalk | apps/web/src/Files.tsx:3761-3805 | trees that differ only in their batches give the same uploads |
| ServiceWorker.ShellIsNoAsset | apps/web/public/sw.js:31-55 | no path is both shell and asset, and neither is an API path |
| ServiceWorker.StepHolds | apps/web/public/sw.js:57-65 | every step of every store keeps one entry a key, shell paths and assets only, and loses no shell entry |
| ServiceWorker.StepBounded | apps/web/public/sw.js:57-65 | at every step the assets fit the budget, or some store under way has yet to read the keys, or will have deleted enough |
| ServiceWorker.CacheStaysSound | apps/web/public/sw.js:57-120 | over every interleaving from install on: with no store between put and last delete at most 40 assets; never an API path; the whole shell kept; a navigation of this origin without a network always finds something to show |
| ServiceWorker.EntriesWereAnswered | apps/web/public/sw.js:83-104 | over every interleaving from install on, an entry was installed or is the key of an OK, earlier in the run, to a GET of this origin |
| ServiceWorker.StartsIff | apps/web/public/sw.js:83-104 | an answer starts one store of its key exactly when it is an OK to a GET of this origin for a fixed path or something under `/assets/`, and else changes nothing |
| ServiceWorker.PutLands | apps/web/public/sw.js:57-60 | a store's put leaves its key last in the cache and takes no other entry out |
| ServiceWorker.OfflineIs | apps/web/public/sw.js:87-119 | the API, other methods and other origins are left alone, on a miss too; of the rest the entry itself is answered, else the shell's page for a navigation, else nothing |
| AssetRecency.ShellCache.KeepAsset | apps/web/public/sw.js:57-65 | `keepAsset` undisturbed, with its loop, is the function `Kept` |
| AssetRecency.StoreAlone | apps/web/public/sw.js:57-65 | the machine's steps of one store, uninterrupted, do what `Kept` says |
| AssetRecency.RecentHolds | apps/web/public/sw.js:47-48 | `Recent` lists every key put, once, by the time of its last put |
| AssetRecency.SurvivorsAreMostRecent | apps/web/public/sw.js:47-65 | without overlap the assets left are the 40 most recently put |
| AssetRecency.EvictionLosesRecentIff | apps/web/public/sw.js:62-64 | one deletion changes the most recent assets cached exactly when it deletes one of them |
| AssetRecency.OverlapKeepsMostRecentIff | apps/web/public/sw.js:57-65 | over every interleaving from install on, the most recent assets cached are at every moment the most recent ones put exactly when no step deletes one of them |
| AssetRecency.SparingOverlapKeepsMostRecent | apps/web/public/sw.js:57-65 | over every interleaving in which no key is put while another store is still going to delete it, whenever no store is between put and last delete the assets cached are the 40 most recently put |
| AssetRecency.OverlapLosesTheNewest | apps/web/public/sw.js:57-65 | in any cache of forty assets, whatever else it holds: an overlap of two stores that evicts the asset just put and leaves 39 |
| AssetRecency.RushLosesTheNewest | apps/web/public/sw.js:57-120 | from install on: forty assets fetched one after another, then a new one and the oldest at once, under one schedule: a step deletes one of the most recent, and 39 are left |
| Pairing.MatchIff | clients/desktop/pairing.js:12-20 | the pattern matches exactly the lines printed from parts in form, and its groups are those parts |
| Pairing.ParseIff | clients/desktop/pairing.js:15-25 | a text is read as a code exactly when, without white space and in lower case, it is that code's line with colons anywhere in the fingerprint, all parts in form and every octet in range |
| Pairing.ValidIff | clients/desktop/pairing.js:12-23 | what a code in form is, letter by letter: 16 hex digits, four octets up to 255 with dots between, 64 hex digits |
| Pairing.OctetIs | clients/desktop/pairing.js:12-23 | an octet is one to three decimal digits, read in base ten |
| Pairing.SpacesAre | clients/desktop/pairing.js:16 | the characters dropped are the 25 that ECMAScript calls white space or line ends |
| Pairing.SpaceAndCaseAreForgiven | clients/desktop/pairing.js:16-19 | white space anywhere and letter case make no difference |
| Pairing.WrittenIsRead | clients/desktop/pairing.js:17-19 | a fingerprint typed with colons and capitals is read as the plain one |
| Pairing.PrintedIsRead | apps/web/src/Remote.tsx:273 | reading what was printed from a valid code gives the code |
| Pairing.ReadIsPrinted | clients/desktop/pairing.js:15-25 | printing what was read and reading it again is the identity, and the address is four octets up to 255 |
| Pairing.PrintIsInjective | apps/web/src/Remote.tsx:273 | two valid codes are never printed alike |
| Pairing.ShownIsRead | apps/web/src/Remote.tsx:268-273 | the line on screen is read back as the network in lower case, the first IPv4-like address without its mask and the plain fingerprint, whenever those are in form |
| Pairing.ShownIff | apps/web/src/Remote.tsx:268-273 | the line is shown exactly when the network is up, some address begins like IPv4 and the certificate is known; and then with the first such address |
| Pairing.DottedStarts | apps/web/src/Remote.tsx:269 | four octets with dots between begin like IPv4, whatever mask follows |
| Pairing.StartsDottedHas | apps/web/src/Remote.tsx:269 | what begins like IPv4 is runs of digits with dots between, and then anything |
| Pairing.PlainIs | apps/web/src/Remote.tsx:83 | the fingerprint kept has its letters lowered one by one and its colons gone |
| UploadBooks.RunUploads | apps/web/src/Files.tsx:1644-1783 | for every batch, decision and mix of outcomes, every counter and list of the report says what it claims about how the items ended; nothing is sent when the question is cancelled; exactly the clashing files are skipped |
| UploadBooks.SendAll | apps/web/src/Files.tsx:1715-1776 | the loop over the batch: each counter and list tells how the items ended |
| UploadBooks.EndingIs | apps/web/src/Files.tsx:1715-1776 | what each ending means of an item's decision, folders, upload and resolution: only a resolution that settled counts as resolved, and a clash asks about the right session, name and folder |
| UploadBooks.EndingsAre | apps/web/src/Files.tsx:1667-1695 | skipping concerns exactly the files of this folder whose folded name is on screen; another decision, asked for because of some such file, every clash met later |
| UploadBooks.ListsFollowBatch | apps/web/src/Files.tsx:1757-1776 | the files to try again and the clashes to ask about stand in the order of the batch |
| UploadBooks.BooksBalance | apps/web/src/Files.tsx:1697-1812 | done, skipped and failed make up the batch; done are the items that returned normally or had their clash resolved, and failed splits into no folder, unresolved, queued, unreadable and retryable |
| UploadBooks.SkippedAreTheClashing | apps/web/src/Files.tsx:1667-1695 | skipped files are exactly those that clash on screen when that was the decision, otherwise none |
| UploadBooks.StepConserves | apps/web/src/Files.tsx:490-507 | each arrival, decision, answer or dismissal keeps every clash in exactly one place |
| UploadBooks.DecideTakes | apps/web/src/Files.tsx:490-495 | a decision takes the first clash, or all when it is for all, and is for one again afterwards; the rest keep their order |
| UploadBooks.AnswerCloses | apps/web/src/Files.tsx:502-507 | an answer closes the first clash still being sent, with that decision and verdict; a dismissal closes all that wait |
| UploadBooks.EachClashOnce | apps/web/src/Files.tsx:490-543 | over every interleaving each clash that arrived is closed at most once, and exactly once when nothing waits and nothing is being sent |
| UploadBooks.ClashQueue.ResolveClash | apps/web/src/Files.tsx:490-507 | it takes the first clash or all, leaves the rest in order, and counts each one taken once, by its verdict and name |
| UploadBooks.NamedIff | apps/web/src/Files.tsx:498-507 | a name is listed under a verdict exactly when its clash came to it |

## Left out

- Overlong handlers: a handler still running may record or publish between two requests, but one that writes the row back to an older offset after a later request is not modelled.
- Memory of uploads over time: memos expire after a day and a sweeper deletes old sessions; both appear only as an unusable session. The fingerprint that keys the memory is taken as given.
- The per-chunk checksum and the empty-file publication of `POST /uploads`: the client sends neither.
- UploadClient.HeaderRoundTrip: `Number(...)` of a header is a given real or unusable; how JavaScript reads its characters is not modelled.
- UploadServer.PatchKeepsSound: a session is published when it is marked so; a database that fails between the file's row and that mark leaves the file listed and the session moved but not published.
- UploadEndings.ClashResolvesIff: the permission checks of `resolve`, its parking of a replaced file, and the `DELETE` of a skipped upload are not modelled; the folder is in place.
- UploadBooks.BooksBalance: an item counted done returned normally, which is not yet a published file (see above).
- UploadBooks.RunUploads: a tab closed in the middle takes its books with it, so no item of a batch has that outcome. The bin's refusal of uploads, the messages and the wake lock are not modelled.
- UploadBooks.EachClashOnce: state updates are atomic steps, so a second press before the next render, which would act on the same queue, does not arise; a queue dismissed by the user counts as closed.
- Listing.RowsAreFirstPages: a listing that changes on the server between two pages is covered by `PlayShowsTaken` only, which says the rows are the pages accepted, not that they agree with each other. Totals and selection are not modelled.
- Photos.WalkIsComplete: "exactly once" is counted on the tree as presented; a folder listed in two places is walked twice, as the program does.
- Photos.WalkIsBreadthFirst: depth is the number of folders on the way by which a folder was found; no other distance is meant.
- AssetRecency.SparingOverlapKeepsMostRecent: sparing pending deletions is enough, not necessary; an asset put again later or outlived by 40 newer ones makes good.
- UploadEndings.SteadyNetworkFinishes: no handler finishes late in such a network.
- ServiceWorker.CacheStaysSound: a worker stopped between a put and its deletes leaves the surplus until the next store; entries are filed by path and query, and `Vary` is ignored.
- Pairing.ParseIff: letters are lowered as ASCII; no other character lowers to one the pattern accepts.
- FolderChain.RunHolds: folders are only made during a run, not renamed or deleted; a page of the search or the listing shows the folder or not, as it pleases.
- DropTree.DropIsExact: the drop event and its `DataTransfer` are not modelled; a directory's reader is the list of answers it will give.
- `UploadBooks` and `FolderChain` take name folding as a function; Unicode normalisation is not modelled.
- The wallpaper picker's own listing machine, which repeats the file manager's with fewer cases.
- React, the DOM, styles, messages, notes, preferences, the hash router, the forms, the Electron shell and everything else outside the files named above.
