# A verified model of the mail client's stateful cores

This project models four parts of the program in Dafny and proves what each of them
is relied on for: the materialized view (`src/core`), the two readers of the
database's revision counter (`src/app`), classification and the mover (`src/filter`),
and the pager, link labels and screen cache (`src/tui`, `src/mail`). Code that works
step by step is modelled as classes and loops, proved against functions on values;
the properties are then lemmas about those functions, or invariants every method keeps.

| module | what it models |
|---|---|
| `Mail` | messages, tags, tag ops and the two sort orders |
| `Diff` | the sorted diff, move collapsing, and the in-place replay on a shifting array |
| `Retain` | which old objects survive a diff, in terms of the two lists |
| `Tree` | reference trees and the flatten in both orders |
| `Marks` | the order of siblings on screen and the marks their connectors are drawn from |
| `Summary` | what every row says of its thread, the drawn tip, the collapsed row |
| `Window` | the tree window, reveal, slide, and the tree prefix drawn from it |
| `Rows` | the rows as one function of the view's state: flatten, window, staged ops, filter |
| `Budget` | the rows thread by thread, and what a change of the window budget shows |
| `Listing` | the order of the threads on screen, and what an open thread shows |
| `Merge` | the replacement of a message list and of the thread list |
| `Staging` | the staged tag buffer, its generation guard, and any number of applies in flight |
| `Identity` | what an identity names, and what reading, writing or dropping it does |
| `View` | the view object: memo, cursor, filter maps, merge batches, staged ops, the apply |
| `Resolve`, `TagOrder` | exclusive tag groups, the minimal op set, and the order tags are displayed in |
| `Classify`, `Causes` | the rule engine: emission order, classification, the move tag, and why a tag is added |
| `Fill` | grouping, sorting, merging, and the progressive fill |
| `Refresh` | the refresh cycle against a database other writers keep changing |
| `Poll` | the poll's windows and the persisted floor |
| `Mover` | the copy, index-add, index-remove, delete sequence with a failure at any point |
| `Wrap`, `Stream` | the word wrap, and streaming a text in deltas against wrapping it whole |
| `Pager` | the expanded layout, the lazy style cache and everything that may invalidate it |
| `Labels` | link-label insertion into the box tree |
| `Screen` | the row-diffed frame push |

## How the outside appears

- The database is a map from unit to last-modified revision, matching queries and content, plus a revision and a uuid. A worker call is one atomic read of some later state: every script of intervening foreign writes and failed calls is covered.
- The file system is a map from path to content and the index a set of (path, message) pairs. Each copy, index and delete step may fail; every state in between is recorded in a trace, so a crash is any prefix of it.
- The glob matcher, the URL scanner, the effect of an SGR sequence on a style, and the cell width of a rune are parameters: the theorems hold for all of them, under the conditions stated.
- A message's tag list can be nil rather than empty, as the cgo backend loads a message without tags; `nilTags` says which.

## What the proofs showed about the code

Where the code and its comments or the expected law disagree, the model follows the code, and the exact condition is proved.

- Streaming equals wrapping the whole text for all texts and all splits exactly when every non-blank rune has positive width (`Stream.SplitBlindExactly`); a zero-width rune standing as a word of its own at the start of a line breaks it (`Stream.ZeroWidthDiverges`).
- `setLines` resets the pan but not the style tag, so replacing content while panned can later show rows styled for another boundary (`Pager.PannedReplacementGoesStale`). The cache stays in step exactly when the tag equals the new boundary (`Pager.Pager.SetLines`). Every run that replaces content only while not panned paints exactly (`Pager.EveryPaintIsExact`), and a pager out of step can always be led to a stale row (`Pager.OutOfStepGoesStale`).
- The comment on `window` says column c of a cut row shows the ancestor at depth cut + c; the code shows depth c + 1, so they agree exactly when the cut is 1 (`Window.ColumnsStartAtTheTop`).
- Whether a thread or message that changed its date keeps its object is decided by the two sorted lists, and the exact condition is `Retain.Kept` (`Retain.OldObjectExactly`, `Retain.KeptExactly`). An unchanged sort key always keeps it. An element that alone moved toward the front keeps it exactly when it passes no element of the old list, so a thread that gets mail and overtakes another one arrives as a new object, expanded and at window start 0; one that alone moved toward the back keeps it when it passes nothing or both lists agree between its places (`Retain.LoneMove`). The stub guard of `MergeThreads` holds exactly where the object is kept (`View.StubGuardExactly`). In `MergeThreads` the branch for a thread that has no current counterpart cannot be taken, and the closing sort is a no-op (`View.View.SettleMerge`).
- An apply takes a message with a nil tag list for a message that is gone, and drops its staged ops without writing them (`View.UntaggedLosesOp`). That is the only way an op that would change a held message's or summary row's tags is dropped unwritten (`Identity.DroppedUnwritten`).
- A reload that fails still advances the refresh cursor, and what it did not load stays missing (`Refresh.FailedReloadLoses`); as long as the last reload's walk ran to its end, every quiescent snapshot is exact (`Refresh.Refresher.Run`). A row that an apply removes after the refresher read the database again is the one thing the view can lack then: the next merge of that thread brings it back, if it still matches (`Refresh.LateIsAllThatLacks`).
- A dry poll whose window query finds nothing is reported without the dry-run mark, so the floor moves (`Poll.DryRunLosesWrite`). A poll leaves a foreign revision unclassified exactly when it lands between the window's revision read and the closing one (`Poll.MissedExactlyInGap`).
- A control character anywhere in a frame row steps over one cell, which keeps what was there before (`Screen.PaintedAt`); a repaint shows what a full repaint would exactly when no column is stepped over (`Screen.PaintedWhole`), and `Screen.PushOverSkip` is a push that leaves a stale cell.
- The comment on the display filter promises substrings regardless of case over tags too. The filter text is lower-cased and tags are not, so a tag with an upper-case letter is not found even when typed as it is spelled; the promise holds for exactly the tags without one (`Rows.TagCaseExactly`, `Rows.FilterFinds`).
- `SetWindowBudget` does not mark the rows stale. The rows returned next are fresh exactly when the view is already marked, was never materialized, or no thread's rows differ under the two budgets (`View.View.SetWindowBudget`); without a filter that means equal budgets, or no thread longer than either (`Budget.BudgetUnfiltered`). An empty memo counts as materialized. `View.BudgetGoesStale` is a run that returns stale rows.
- The mover tests that a destination is free and renames onto it later: a file that another process puts there in between is overwritten, and nothing else ever is (`Mover.Mover.Move`).

## Reading the contracts

- `Valid()` on `View` says the threads are distinct, sorted and hold the ghost contents `vals`, the staged buffer is in a reachable state, and the memo is missing, marked stale, or equal to `FreshRows()`, the from-scratch materialization. `Sound()` is the same without the claim about the memo.
- `Tracking()` on `Refresher` says that every unit changed at or before the cursor is in the snapshot if and only if it matches the query, and that what the view owes to its merges (`due`) is the snapshot, or a later write will bring another merge. The view shows `due` without `taken`, the threads that applies removed since.
- `Safe` in `Mover` is what a crash must preserve: no content lost, no file of the start overwritten, every message still indexed, no source deleted before the index released it.
- `Coherent()` on `Pager` says every cached style is the current style of its line.

## Model

| member | source | states |
|---|---|---|
| `Mail.RankOrders` | src/core/compare.go:7-24 | The thread order (newest first, then id) and the message order (oldest first, then id) are strict total orders: irreflexive, transitive, total. |
| `Mail.RankDirections` | src/core/compare.go:7-24 | Of two threads the newer comes first, of two messages the older; equally old ones come in the order of their ids, which is decided at the first character that differs, or by length. |
| `Diff.DiffSorted` | src/core/diff.go:28-52 | The two-index loop emits exactly the op list the recursive merge walk defines, moves collapsed, for any lists and any comparison. |
| `Diff.CollapseMoves` | src/core/diff.go:60-72 | Every adjacent remove-then-insert of one key becomes one move, left to right, and nothing else changes. |
| `Diff.DiffReplay` | src/core/diff.go:28-103 | For all old and new lists and any comparison: every index of the ops is in bounds when its turn comes, and the replay ends with exactly the new key sequence, each element being the new one or an old one. |
| `Diff.DiffMinimal` | src/core/diff.go:54-72 | When the lists are sorted by key, the op count is old + new - 2 * common, and no op list that reaches the new key sequence is shorter. |
| `Diff.Slice.RemoveAt` | src/core/diff.go:74-76 | Shifting the backing array down in place removes exactly the element at the index. |
| `Diff.Slice.InsertAt` | src/core/diff.go:78-83 | Growing (with reallocation when full) and shifting up in place inserts exactly one element at the index. |
| `Diff.Slice.Apply` | src/core/diff.go:89-103 | The in-place replay leaves the array holding what the sequence replay defines. |
| `Retain.OldObjectExactly` | src/core/diff.go:28-103 | For any lists sorted by one strict order with unique ids: after the replay, a common id holds the old object if and only if Kept holds of the two key lists and the two ranks, else the new one. |
| `Retain.KeptExactly` | src/core/diff.go:28-72 | Kept is a condition on the sorted key lists alone, and it holds exactly when the merge walk pairs the two ranks or emits their remove and insert with nothing but paired elements between, so that they collapse to a move. |
| `Retain.UnmovedKept` | src/core/diff.go:54-72 | An element whose sort key did not change keeps its object, whatever else moved. |
| `Retain.LoneMove` | src/core/diff.go:54-72 | When one common element alone changed its key, the condition in closed form: toward the front it keeps its object if and only if it passes no element of the old list; toward the back, if and only if it passes no element of the new list, or both lists hold the same elements between the two places. |
| `Retain.OvertakingArrivesNew` | src/core/diff.go:54-59 | A lone element that moves in front of any element of the old list arrives as a new object. |
| `Tree.FindParent` | src/core/view.go:1114-1124 | The parent is the nearest reference that is present in the thread, searched from the end of References, never the message itself (section 3.6.4 of RFC 5322). |
| `Tree.ParentNearest` | src/core/view.go:1114-1124 | A message hangs under another exactly when its last reference that names any other message of the thread names that one, and is a root exactly when no reference names another. |
| `Tree.BuildTree` | src/core/view.go:1084-1110 | The loops build the tree in which a message hangs below its parent, roots stand side by side under a synthetic root when there are several, and messages on a reference cycle are absent. |
| `Tree.FlattenEmits` | src/core/view.go:438-490 | Ascending or descending, a message is emitted exactly once if its reference chain reaches a root and it is not a childless deleted message under skipDeleted, else never; nothing foreign is emitted. |
| `Tree.FlattenNests` | src/core/view.go:438-490 | A row's depth is its reference-chain length (plus one under the synthetic root), each non-root row follows its parent's row inside the parent's contiguous subtree, and the descending list is the ascending one reversed. |
| `Tree.DescOpensNewest` | src/core/view.go:496-519 | When no child is older than its parent and nothing is hidden, the first descending row is at least as new as every message. |
| `Tree.NewestIsNewest` | src/core/view.go:407-428 | The collapsed row's message exists exactly when some message passes the filter, and none that passes is newer. |
| `Marks.MarksRight` | src/core/view.go:438-494 | In both orders, a row's first mark is set if and only if a sibling of its message, same parent and hidden ones counted, is placed below it; with nothing hidden, if and only if a later row stands on its level with nothing shallower between; and rows on one level show siblings in display order: older first, or, newest first, the newer subtree first. |
| `Marks.KeyBounds` | src/core/view.go:496-519 | No message of a subtree is newer than the subtree's sort key. |
| `Marks.KeyReached` | src/core/view.go:496-519 | Some message of a subtree is exactly as new as its sort key. |
| `Summary.TreeHolds` | src/core/view.go:1084-1124 | The tree holds a message exactly when it is in the thread and its references lead to a root. |
| `Summary.CountIsShown` | src/core/view.go:180-196 | The thread's count is the number of messages its flatten shows when nothing is hidden. |
| `Summary.RowsFace` | src/core/view.go:438-490 | Every row of an open thread names the thread, its message count and the order, and is the root row exactly at depth 0 with a message. |
| `Summary.TipShows` | src/tui/index.go:133-157 | With nothing hidden, a nested row's drawn indent ends in the branch glyph if another row on its level follows with nothing shallower between, else in the leaf glyph of the order. |
| `Summary.CollapsedShows` | src/core/view.go:407-428 | A collapsed thread is one row: it shows a newest unread message if one may be shown, else a newest message, else none, and counts all messages. |
| `Window.CutWindow` | src/core/view.go:528-543 | The in-place window is the clamped slice, each row's depth cut by the shallowest depth in it. |
| `Window.DepthsShift` | src/core/view.go:528-543 | A window whose first row is nested starts at depth 1 and keeps the steps between the rows at least as deep as its first; shallower ones join it at depth 1; any other window keeps its depths, and nothing but the depth changes. |
| `Window.EmitWindow` | src/core/view.go:214-248 | A windowed thread emits an indicator above, the window, and an indicator below, each only when it hides rows; a short thread is emitted whole. |
| `Window.WindowConserves` | src/core/view.go:214-248 | Hidden above + shown + hidden below is the full flatten, and shown row q is the flatten's row at the matching index. |
| `Window.RevealedIsShown` | src/core/view.go:330-363 | The start RevealMsg picks always shows the row at the revealed index, whatever the old start. |
| `Window.RevealCentres` | src/core/view.go:344-348 | A row inside the window leaves the start alone; any other gets half a window above it, or as many rows as there are, or, near the end, the last full window. |
| `Window.SlideInRange` | src/core/view.go:709-740 | From an in-range start a non-zero slide stays in range, moves in the asked direction by no more than the step, and reports no move exactly at the tail (forward) or when the step would cross the head (backward). |
| `Window.SlidesReachTail` | src/core/view.go:709-740 | Repeated forward slides make progress every time and reach the tail. |
| `Window.SlidesShowAll` | src/core/view.go:709-740 | Forward slides by at most the window size skip no row: each row from the start on is in the window after some number of slides. |
| `Window.TreePrefix` | src/tui/index.go:133-157 | The prefix loop draws one column per ancestor level after the cut and one for the row itself, without indexing outside the Siblings chain. |
| `Window.FlattenChained` | src/core/view.go:438-490 | Every flattened row carries one Siblings entry per depth level; what the entries say is Marks.MarksRight. |
| `Window.WindowDrawable` | src/tui/index.go:133-157 | Every row of every window is one treePrefix can draw: its cut depth never exceeds its Siblings chain. |
| `Window.ColumnsStartAtTheTop` | src/core/view.go:528-543 | In every window of every thread, in both orders, column c of a row draws the sibling mark of the row's own ancestor row at true depth c + 1; the comment on window names the ancestor at depth cut + c, which is that one if and only if the cut is 1. |
| `Rows.FilterIdxIncreasing` | src/core/view.go:250-299 | The filter index is strictly increasing and lists exactly the rows the filter matches. |
| `Rows.FilterFinds` | src/core/view.go:365-393 | A row passes the filter text exactly when its author or subject contains the text with letters compared regardless of case, or one of its tags contains the lower-cased text as it stands. |
| `Rows.TagCaseExactly` | src/core/view.go:365-385 | Tags are found regardless of case, as the filter's comment promises, exactly when they hold no upper-case letter; any other tag is not found even when typed as spelled. |
| `Rows.StagedShows` | src/core/view.go:258-281 | A row shows staged ops exactly when some are staged for its message or, failing that, for its thread: the tags those ops lead to, and nothing else of the row changes. |
| `Rows.InverseUndoes` | src/core/view.go:793-811 | The filtered-to-full and full-to-filtered maps are inverse to each other, both ways. |
| `Rows.SameFaces` | src/core/view.go:947-980 | Contents that differ only in attachments and paths flatten to the same rows. |
| `Rows.RevealedRow` | src/core/view.go:330-363 | Expanding a thread and sliding it to the revealing start puts a row of the message among its rows. |
| `Listing.ThreadsDescend` | src/core/view.go:214-299 | Whatever is filtered, windowed or staged, no row belongs to a newer thread than a row above it. |
| `Listing.OpenThreadShows` | src/core/view.go:214-299 | Without filter and budget, an open thread's rows show a message exactly when its references lead to a root, unless the view is threaded and the message is a deleted one that nothing hangs under. |
| `Merge.MergeMsgs` | src/core/view.go:551-601 | A thread's message list becomes exactly the incoming ids in message order; for a common id the attachments and paths are the held message's if Retain.Kept holds of the two lists and the incoming one's if not, and every other field is the incoming one's. |
| `Merge.UnmovedKeepsFiles` | src/core/view.go:551-601 | A message whose date and id did not change keeps the attachments and paths it had before the merge, and takes every other field from the incoming one. |
| `Merge.ReplayEntries` | src/core/diff.go:89-103 | Replaying the thread diff leaves the incoming ids in thread order; entry k is the held object if and only if Retain.Kept holds of the two lists, else the incoming one. |
| `Merge.SortEntriesSorts` | src/core/view.go:551-601 | Sorting the incoming threads by ThreadLess is a sorted permutation. |
| `Merge.SortedStays` | src/core/view.go:551-601 | Sorting a sorted thread list changes nothing, so the closing sort of MergeThreads is a no-op. |
| `Staging.ToggleFlips` | src/core/view.go:1151-1174 | Staging flips the membership of one op and no other, keeps the list duplicate-free, and staging a new op twice restores the list. |
| `Staging.StepKeeps` | src/core/view.go:1151-1215 | Stage, undo, launch and clear each keep: lists non-empty and duplicate-free, and a buffer of an apply's generation holds nothing but entries of that apply's snapshot, op for op. |
| `Staging.RunValid` | src/core/view.go:1151-1215 | The invariant holds after any interleaving of stages, undos, launches and clears of any number of applies. |
| `Staging.NoLostOp` | src/core/view.go:1207-1215 | In every reachable state, a clear removes at most its own entry, and only when the entry's op list is exactly the one in that apply's snapshot. |
| `Staging.TouchedIsSafe` | src/core/view.go:1207-1215 | Once the user staged or undid anything after an apply's snapshot, that apply clears nothing any more, however the run goes on. |
| `Staging.ClearsRun` | src/app/apply.go:44-81 | An undisturbed apply removes exactly the entries it clears. |
| `Identity.WrittenReadsBack` | src/core/view.go:958-1033 | Tags written for an identity are the tags read back when it has a row of its own (the message, or the thread's summary stub); otherwise nothing is written. |
| `Identity.OnlyTagsChange` | src/core/view.go:958-1033 | Writing tags changes the tags of messages with the one id, in the named thread only if a thread was named, and nothing else in the view. |
| `Identity.ThreadIsGone` | src/core/view.go:1040-1079 | A dropped thread is gone and every other thread stays. |
| `Identity.MessageIsGone` | src/core/view.go:1040-1079 | A dropped message is gone when one thread only held it, and threads without it stay as they were. |
| `Identity.StillChanges` | src/app/apply.go:264-277 | The resolved ops of an apply, resolved once more against the row's tags, still change them and reach the tags the staged ops lead to. |
| `Identity.DroppedUnwritten` | src/app/apply.go:55-66 | An entry whose ops would change a held row's tags, a message's or a thread's summary, has nothing written for it if and only if that row's tag list is nil. |
| `Identity.LandedIsQuiet` | src/app/apply.go:62-75 | Once an apply landed on a row of its own, applying the same ops again has nothing to write. |
| `View.MergeTwice` | src/core/view.go:551-601 | Merging the same incoming thread a second time changes nothing. |
| `View.MergeReplaces` | src/core/view.go:551-601 | After a merge the messages are the incoming ones, apart from kept attachments and paths, unless a stub met a hydrated tree; a hydrated thread never loses its real messages to a stub. |
| `View.MergeKeepsFiles` | src/core/view.go:551-601 | Through a merge of the view, a message whose date and id did not change keeps its attachments and paths if its thread keeps its object, and is the incoming message if the thread arrives anew. |
| `View.Thread.constructor` | src/core/view.go:165-178 | A new thread is expanded, at window start 0, its messages sorted, its date the newest message's. |
| `View.Thread.Absorb` | src/core/view.go:551-601 | One thread's share of a merge: date taken, guarded messages kept, else merged, and the tree rebuilt. |
| `View.View.constructor` | src/core/view.go:94-98 | A new view is empty, with nothing staged, cached or batched. |
| `View.View.StageRows` | src/core/view.go:250-299 | Each row with staged ops shows the tags those ops resolve to; every other row is untouched. |
| `View.View.FilterRows` | src/core/view.go:250-299 | The loop keeps exactly the matching rows and builds both index maps. |
| `View.View.Refine` | src/core/view.go:250-299 | Staging, re-anchoring the cursor, then filtering give the rows, the maps and the anchor the specification names. |
| `View.View.Rebuild` | src/core/view.go:214-299 | Rebuilding leaves rows, maps and anchor equal to a from-scratch materialization of the state. |
| `View.View.Rows` | src/core/view.go:203-212 | With no merge batch open, every operation but SetWindowBudget leaves the memo such that the rows are the from-scratch flatten, window, stage and filter; after SetWindowBudget they are exactly when that contract says so. A memo that is empty but not nil is returned as it is. |
| `View.NewestAbove` | src/core/view.go:203-299 | The rows of any valid view show newer threads above older ones. |
| `View.View.SetCursor` | src/core/view.go:784-788 | Sets the anchor id and nothing else. |
| `View.View.SetCursorIndex` | src/core/view.go:818-823 | A visible index is stored as the full index of the same row; an index past the filter is stored as given. |
| `View.View.CursorRowIndex` | src/core/view.go:830-834 | The stored full index is reported as the visible index of the same row. |
| `View.RoundTrips` | src/core/view.go:793-834 | For every visible row, visible index to full index and back is the identity, and both name that row. |
| `View.View.CursorRow` | src/core/view.go:839-864 | The anchored message's row whenever it is visible, else the row at the last known index, clamped to the last row; none exactly when there are no rows; the stored index then points at the row returned. |
| `View.CursorShows` | src/core/view.go:839-864 | The cursor shows the first row of its message; else the row at its last known place, the first row when the filter hides that place, or the last row when there are fewer. |
| `View.View.SetCollapsed` | src/core/view.go:869-883 | Only the named thread changes: its collapse flag, and its window start when it expands. |
| `View.View.ToggleCollapsed` | src/core/view.go:900-920 | Only the named thread flips, going back to window start 0 when it opens; collapsing moves the cursor to the thread's collapsed row, expanding leaves it. |
| `View.View.SlideWindow` | src/core/view.go:709-740 | Reports true if and only if the first thread with the id slid, and then only that thread's start changed, to the start Window.SlideInRange speaks of. |
| `View.View.RevealMsg` | src/core/view.go:330-363 | Without a filter, a message of the expanded flatten gets a row that holds it, the cursor on it; only its own thread changes, to expanded and the revealing start; an unlisted one leaves the view as it was; any row returned holds the message. |
| `View.View.SetFilter` | src/core/view.go:388-393 | Stores the lower-cased filter and marks the rows stale. |
| `View.View.SetGroups` | src/core/view.go:1128-1133 | Stores the groups and marks the rows stale. |
| `View.View.SetMsgDesc` | src/core/view.go:87-92 | Stores the message order and marks the rows stale. |
| `View.View.SetThreaded` | src/core/view.go:100-105 | Stores the threading mode and marks the rows stale. |
| `View.View.SetWindowBudget` | src/core/view.go:78-82 | Stores the budget without marking the rows: the next Rows call equals a fresh materialization if and only if the view is already marked, was never materialized, or no thread's rows differ under the two budgets. |
| `Budget.BudgetExactly` | src/core/view.go:78-82 | Over any distinct threads, settings and staged ops, the materializations under two budgets are equal if and only if every thread contributes the same rows under both. |
| `Budget.BudgetUnfiltered` | src/core/view.go:214-248 | Without a filter that is so if and only if the budgets are equal or no thread is longer than either. |
| `View.BudgetGoesStale` | src/core/view.go:203-212 | A concrete run: two rows shown, the budget set to one, and the next Rows call returns the old two. |
| `View.View.Stage` | src/core/view.go:1151-1174 | Toggles the op for an identity the view knows, and ignores any other. |
| `View.View.Undo` | src/core/view.go:1191-1200 | Drops an identity's staged ops and moves the generation on only when there were some. |
| `View.View.StagedOps` | src/core/view.go:1179-1187 | Returns the buffer and its generation, and registers a flight with exactly that snapshot. |
| `View.View.ClearStaged` | src/core/view.go:1207-1215 | Removes an entry only under the current generation, and then its ops are exactly those in every flight of that generation. |
| `View.View.SetTags` | src/core/view.go:958-965 | Replaces the tags of the first message with the id, and nothing else. |
| `View.View.SetAtts` | src/core/view.go:947-953 | Replaces a message's attachments; the memoized rows stay valid. |
| `View.View.SetPaths` | src/core/view.go:972-980 | Replaces a message's paths; the memoized rows stay valid. |
| `View.View.SetThreadTags` | src/core/view.go:1021-1033 | Replaces the tags of the thread's summary stub; without a stub nothing changes. |
| `View.View.Tags` | src/core/view.go:987-1007 | The message's tags, or the summary stub's, else the first message's; none for an unknown identity or a nil tag list. |
| `View.View.MergeThreads` | src/core/view.go:551-601 | The view's threads become the incoming set in thread order; each keeps its old object, collapse and window state if and only if Retain.Kept holds of the old and the incoming list, else it is the incoming object; its contents are the merge of what it held with what came. |
| `View.UnmovedKeepsObject` | src/core/view.go:551-601 | A thread whose date and id did not change keeps its object through a merge. |
| `View.StubGuardExactly` | src/core/view.go:570-590 | When a summary stub arrives for a hydrated thread, the real messages survive if and only if the object does: exactly when Retain.Kept holds of the two thread lists. |
| `View.View.SettleMerge` | src/core/view.go:592-601 | The closing sort changes neither objects nor contents; the merge marks the rows, or the open batch. |
| `View.View.BeginMerge` | src/core/view.go:618-622 | Opens one more batch level. |
| `View.View.EndMerge` | src/core/view.go:624-635 | Closes one level, never below zero; the last one marks the rows stale if a merge ran inside. |
| `View.View.MergeThread` | src/core/view.go:655-674 | Replaces one held thread's messages and date, re-sorts the threads without losing or gaining one, leaves all other contents alone; an absent thread changes nothing. |
| `View.View.Hydrated` | src/core/view.go:679-688 | True exactly when the thread is held with at least one real message. |
| `View.View.Reset` | src/core/view.go:144-153 | Empties threads, rows and cursor and marks the rows stale. |
| `View.View.Remove` | src/core/view.go:1040-1079 | A thread identity drops its thread, a message leaves its first holder, and a thread left empty goes too. |
| `View.View.Reflect` | src/app/apply.go:264-277 | The row follows a write that landed: it shows the written ops resolved against its own tags; ops that change nothing leave every row as it is. |
| `View.View.ApplyEntry` | src/app/apply.go:54-79 | One entry: nothing to write clears it; a failed write leaves buffer and contents alone; a landed write shows on the row, clears the entry under the guard, and drops a row that left the query. |
| `View.View.ApplyStaged` | src/app/apply.go:44-81 | With the user staging and undoing between entries: every entry takes one turn; the buffer's history is a run of the staging machine whose clears are all this apply's, of entries whose write did not fail; undisturbed, exactly the failed entries stay staged, unchanged. |
| `View.UntaggedLosesOp` | src/notmuch/cgo.go:494-500 | A concrete run: a tag staged on a message loaded without tags (nil list) is applied with every write succeeding; nothing is written and the entry is gone. |
| `Resolve.ResolveOps` | src/core/resolve.go:35-125 | The loops return the display list the specification names, and the sorted symmetric difference between old and new tags. |
| `Resolve.DiffTags` | src/core/resolve.go:138-160 | Exactly one op per tag in one set and not the other, sorted by tag. |
| `Resolve.DisplayIsFinal` | src/core/resolve.go:87-125 | The displayed list is duplicate-free and holds exactly the resolved tag set. |
| `TagOrder.SurvivorsKeepOrder` | src/core/resolve.go:87-125 | Tags that stay keep the order they had, when the ops leave their groups alone. |
| `TagOrder.SwitchTakesPlace` | src/core/resolve.go:87-125 | When a group switches to a new member, that one stands where the group's first member stood, among the tags the ops leave alone. |
| `TagOrder.AdditionsFollow` | src/core/resolve.go:87-125 | A new tag that replaces none comes after every tag that stays. |
| `Resolve.GroupExclusive` | src/core/resolve.go:62-85 | A touched group keeps exactly one member if any is present: the last ADD still present, else the first present in list order. |
| `Resolve.GroupPrecedence` | src/core/resolve.go:62-85 | Of a touched group the member that stays is the one the last adding op added, unless a later op took it away; then the first in the group's list order that the ops leave; none if they leave none. |
| `Resolve.UntouchedUnchanged` | src/core/resolve.go:62-85 | A group no op names keeps every member it had. |
| `Resolve.SoftFollowsLastOp` | src/core/resolve.go:35-61 | A tag outside every group is present if and only if the last op on it adds it, or as before without one. |
| `Resolve.FinalIdempotent` | src/core/resolve.go:35-125 | Resolving the resolved set with the same ops changes nothing. |
| `Resolve.ResolveAgainIsQuiet` | src/core/resolve.go:35-160 | Resolving the displayed tags again with the same ops yields no ops. |
| `Resolve.ResolvedAgrees` | src/app/apply.go:113-268 | Resolving the resolved op list in place of the staged one reaches the same tag set. |
| `Resolve.DiffUnique` | src/core/resolve.go:138-160 | Two sorted op lists with the same ops are the same list. |
| `Resolve.DiffApplies` | src/core/resolve.go:138-160 | Applying the difference takes the old tags to the new ones. |
| `Resolve.DiffShortest` | src/core/resolve.go:138-160 | No op list that takes the old tags to the new ones is shorter. |
| `Classify.New` | src/filter/filter.go:58-90 | The engine holds one rule set per account, its groups in emission order, and the header rules as given. |
| `Classify.EmissionOrder` | src/filter/filter.go:58-90 | A group's custom tags are emitted first, in list order, then its folder tags by rising priority. |
| `Classify.ResolveRules` | src/filter/filter.go:58-108 | For each account, a group tag's candidates are the source's, in its order. |
| `Causes.AccountIs` | src/filter/filter.go:379-390 | A message belongs to the account of its first path that lies in any account's folder space, and to none when no path does. |
| `Causes.TagCauses` | src/filter/filter.go:242-300 | The rules add a tag exactly when it is the account's own and missing, or a group lists it and a file lies where it lives, or a header rule that hit adds it and it is missing. |
| `Causes.SoftOutcome` | src/filter/filter.go:242-350 | With header rules that add only soft tags and account tags outside every group, a soft tag is present afterwards exactly when it was carried or a rule adds it. |
| `Classify.Classify` | src/filter/filter.go:242-350 | The ops are the sorted difference between the message's tags and the resolved rule tags, none for a read-only account; the folder is the move tag; an empty entry carries no id. |
| `Classify.FindMoveTag` | src/filter/filter.go:300-350 | The folder is the first added rule tag with a home, else the first present tag whose files lie elsewhere, else none. |
| `Causes.MoveFollows` | src/filter/filter.go:300-350 | A message follows the first tag it gains that has folders; gaining none, the first tag it ends up with whose folders hold none of its files; else it stays. |
| `Classify.FolderTagsOf` | src/filter/filter.go:242-350 | Of one group, the folder rules emit exactly its located tags, in emission order. |
| `Classify.SurvivingFolder` | src/filter/filter.go:242-350 | Of each group, the tag that survives is the last one in emission order whose candidates hold a file of the message; with none, the group stays as it was. |
| `Classify.FolderPriority` | src/filter/filter.go:41-46 | Of a group's tags that have a file of the message in one of their folders one survives: archive first, then deleted, sent, draft, pending, spam; inbox only over custom tags; a custom tag only when no folder tag is located, and then the last in group order. With none located the group stays as it was. |
| `Classify.ClassifyFixpoint` | src/filter/filter.go:242-350 | With header rules that add only soft tags and account tags outside every group: once an entry's ops landed and the files stay, classifying again yields no ops. |
| `Fill.GroupThreads` | src/app/refresh.go:435-453 | Every message lands in exactly one thread, its own key's, dated by the newest; in a flat view one thread per message. |
| `Fill.GroupHolds` | src/app/refresh.go:435-453 | A loaded thread holds exactly the messages of its thread id, or of its message id in a flat view, oldest first, and is dated by the newest of them, never before the epoch. |
| `Fill.MergeSorted` | src/app/refresh.go:458-473 | The two-index loop is the ordered merge, ties and leftovers included. |
| `Fill.MergedSorts` | src/app/refresh.go:458-473 | Merging two sorted lists with distinct ids is sorted. |
| `Fill.SortThreadsSorts` | src/app/refresh.go:475-477 | Sorting threads is a sorted permutation. |
| `Fill.GroupingUnique` | src/app/refresh.go:435-477 | There is one sorted grouping of a message list: two of them are equal. |
| `Fill.LoadGrows` | src/app/refresh.go:352-379 | Merging a chunk that splits no thread into the load of what came before is the load of both together. |
| `Fill.FoldChunks` | src/app/refresh.go:352-379 | After every chunk the snapshot is the load of the prefix read so far, and Done never falls. |
| `Fill.CloseWalk` | src/app/refresh.go:352-379 | The walk ends with one terminal event if and only if any update was published. |
| `Fill.MergeWalk` | src/app/refresh.go:352-379 | Over any cut that keeps threads whole: every published snapshot is the load of a prefix, the last is the load of all messages, Done is non-decreasing and bounded by the bar's total, and the run ends in exactly one terminal event if it published at all. |
| `Fill.FillIsOneShot` | src/app/refresh.go:352-477 | However the walk is cut, progressive fill and one-shot load end at the same list. |
| `Refresh.Enumerate` | src/notmuch/worker.go:188-192 | A query returns every matching unit of the database as it is at that call, once, and no other. |
| `Refresh.QuiescentIsExact` | src/app/refresh.go:39-115 | When the snapshot is caught up to the last revision and no write is outstanding, snapshot and view are exactly the query result: nothing missed, nothing resurrected. |
| `Refresh.PruneSafe` | src/app/refresh.go:142-212 | Dropping the pruned ids keeps every thread at or below the cursor right, and leaves no stale thread of the window behind. |
| `Refresh.MergeCatchesUp` | src/app/refresh.go:248-281 | After prune and merge, the snapshot is right up to the new revision. |
| `Refresh.Refresher.constructor` | src/app/refresh.go:39-66 | A refresher starts with an empty snapshot and no known database, so its first cycle reloads. |
| `Refresh.Refresher.Call` | src/notmuch/worker.go:188-192 | One worker call reads some later state of the database, and may fail. |
| `Refresh.Refresher.Query` | src/notmuch/worker.go:188-192 | A successful query is exact for the state it read; a failed one may have emitted part of it. |
| `Refresh.Refresher.LoadHead` | src/app/refresh.go:307-337 | The first page keeps the snapshot sorted and id-unique, even when it fails. |
| `Refresh.Refresher.Walk` | src/app/refresh.go:352-379 | A completed walk leaves the snapshot and the view at the query result of the revision it read. |
| `Refresh.Refresher.FullReload` | src/app/refresh.go:307-337 | A reload whose walk completes is caught up at the database's revision; one that fails silently keeps the old snapshot. |
| `Refresh.Refresher.OnConfig` | src/app/refresh.go:226-239 | Switching the query or the mode reloads and keeps the cursor. |
| `Refresh.Refresher.ChangedPage` | src/app/refresh.go:266-281 | A successful changed-set read lists every unit changed in the window, judged by any later state. |
| `Refresh.Refresher.Membership` | src/app/refresh.go:142-212 | The chunked re-query tells, for every changed id, whether it still matches, up to writes past the window. |
| `Refresh.Refresher.Prune` | src/app/refresh.go:142-212 | Threads that left the query leave the snapshot in place, the rest are kept; a failed call leaves the invariant intact. |
| `Refresh.Refresher.FetchThread` | src/app/refresh.go:119-129 | A fetch yields the thread's current content exactly when its call succeeds, and nothing otherwise. |
| `Refresh.Refresher.RefetchAt` | src/app/refresh.go:101-111 | One thread's turn: an open thread of a threaded view is fetched in full as of its call, a failed fetch fails the turn; any other entry stays as read, without a call. |
| `Refresh.Refresher.Refetch` | src/app/refresh.go:81-115 | After a successful re-fetch every unit of the changed set is, in a threaded view, the full content as of its fetch if the thread was open when the loop reached it, and else the entry the changed-set read gave; the set stays complete and current. |
| `Refresh.Refresher.Merge` | src/app/refresh.go:248-264 | The snapshot becomes the old one with the kept threads replaced, sorted, and the view shows it. |
| `Refresh.Refresher.Absorb` | src/app/refresh.go:81-115 | A window absorbed to the end moves the cursor to its revision; a failed one leaves the cursor where it was. |
| `Refresh.Refresher.Cycle` | src/app/refresh.go:39-115 | The invariant survives every cycle, failed at any call, under any foreign writes and row removals by applies; a finished cycle has moved the cursor at least to the revision the database had when it began; a failed one leaves it. |
| `Refresh.Refresher.Increment` | src/app/refresh.go:81-115 | The incremental half of a cycle: the cursor reaches the revision read at its start, or stays; every matching unit changed in the window is then in the snapshot, in full if it was open throughout, as the summary if it never was; without foreign writes nothing is taken from the view. |
| `Refresh.Refresher.Settle` | src/app/refresh.go:39-115 | With no more foreign writes, one cycle ends with the snapshot exactly the query result, if the last reload's walk completed, and the view lacking at most the threads an apply removed since they were last merged; unless it had to reload, every matching unit changed since the old cursor is in the snapshot in full if it was open and as the summary if not. |
| `Refresh.Refresher.Run` | src/app/refresh.go:39-115 | Over every sequence of cycles and view switches and every interleaving of failed calls, foreign writes and row removals: whenever the cursor stands at the database's revision after a complete reload, the snapshot is exactly the query result, and the view shows it except for threads an apply removed since they were last merged; over cycles alone, each thread changed since the start is there in full if it stayed open and as the summary if it was never opened. |
| `Refresh.LateIsAllThatLacks` | src/app/apply.go:68-79 | A view that owes nothing but late removals is the query result without exactly the removed threads. |
| `Refresh.FailedReloadLoses` | src/app/refresh.go:63-66 | A concrete run in which the reload's walk fails, the cursor advances anyway, and threads stay missing with nothing left to bring them. |
| `Poll.QuerySees` | src/filter/filter.go:175-191 | A window's query misses a message written in the window only if someone wrote it again before the query ran. |
| `Poll.MissedExactlyInGap` | src/app/app.go:1556-1590 | Over chained windows, a revision is classified in no window if and only if it landed between a window's revision read and its closing read; none is classified twice. |
| `Poll.ClassifiedOnce` | src/app/app.go:1556-1590 | With quiet gaps, each foreign revision after the baseline falls in exactly one applied window, and its message is seen there or again in a later one. |
| `Poll.Poller.ReadFloor` | src/app/classify.go:32-47 | The floor is read when the file holds a number, else reported missing. |
| `Poll.Poller.WriteFloor` | src/app/classify.go:53-74 | The file ends with the higher of the two values. |
| `Poll.Poller.ReadInputs` | src/filter/filter.go:135-172 | One snapshot call, then one call per header rule and chunk of 1000 ids: the reads succeed if and only if every one of these calls did, stop at the first that fails, and write nothing. |
| `Poll.Poller.RunFilter` | src/filter/filter.go:135-172 | The reads, then, unless this is a dry run, one call per planned write: the run succeeds if and only if every call did and stops at the first that fails; a dry run writes nothing, a live one the whole plan in order, or its start when a call failed; the window stays one whose query saw every write of it. |
| `Poll.Poller.QueryWindow` | src/filter/filter.go:175-191 | The window query lists exactly the messages last written in the window, as of the call. |
| `Poll.Poller.Classify` | src/filter/filter.go:135-172 | Classification writes exactly the planned messages, in order and as its own revisions; a failure in the middle leaves exactly the writes before it. |
| `Poll.Poller.CloseWindow` | src/app/app.go:1575-1590 | The floor moves to the revision read after the writes, and the window is recorded, if and only if that read and the write of the floor succeed. |
| `Poll.Poller.OpenWindow` | src/app/app.go:1556-1574 | The window runs from the floor, or from the capture before the database update when there is none, to the revision read after it; nothing new, or no way to index, means no window, and a failing index run or read is a failure. |
| `Poll.Poller.ClassifyWindow` | src/app/app.go:1556-1590 | A window fails exactly at the first failing call of its query, reads and writes; a dry one with messages ends as a review that wrote nothing, any other is applied with its whole plan written and closes with one more read. Failed and dry polls leave the floor alone, except a dry poll whose window query is empty, which is applied. |
| `Poll.Poller.PollReconcile` | src/app/app.go:1556-1590 | The floor never falls; an applied, persisted poll appends one window starting at the old floor, or, on a first run, not before the revision the poll found; any other outcome changes neither the windows nor, with one poller, the floor. It made exactly the calls its outcome needs, and a dry or quiet poll wrote nothing. |
| `Poll.RunPolls` | src/app/app.go:1556-1590 | Over every run of polls with quiet gaps and a lone poller, the floor is the last window's close and every foreign revision up to it was classified exactly once. |
| `Poll.DryRunLosesWrite` | src/filter/filter.go:140-142 | A concrete dry run with an empty window query moves the floor past a foreign write no window covers. |
| `Mover.ResolveAccounts` | src/filter/mover.go:251-283 | For every account an entry involves, its folder targets and managed trees; no entry, no account. |
| `Mover.ResolvesFirst` | src/filter/mover.go:337-358 | Files move to the first candidate that is on disk, a pattern standing for the base name of its first match that is a directory; when none is, to the first candidate. |
| `Mover.PlanWarranted` | src/filter/mover.go:147-243 | Every planned step belongs to an entry, a path of it, and that entry's target or managed trees. |
| `Mover.PlanAnswers` | src/filter/mover.go:147-243 | Every path of every entry with a target has exactly one planned answer, in order: it moves to the target's folder, same subdirectory, mark stripped, unless the file is gone, lies outside the managed trees, the message is home, or the name is taken at that point, and the skip text says which of these it is. |
| `Mover.MarkStripped` | src/filter/mover.go:316-331 | Of the first ,U= mark and the digits behind it nothing stays in the destination's name, and everything else does. |
| `Mover.UnmarkedStays` | src/filter/mover.go:316-331 | A name without the mark stays as it is. |
| `Mover.Survivor` | src/filter/mover.go:147-243 | Along a chain of copies some copy holding the content is no copy's source, so deleting all sources spares it. |
| `Mover.SafeWhileCopying` | src/filter/mover.go:147-185 | Stopping after any copy loses no content, overwrites no file and drops no index path. |
| `Mover.SafeWhileAdding` | src/filter/mover.go:186-243 | Stopping after any index addition loses nothing. |
| `Mover.SafeWhileReleasing` | src/filter/mover.go:186-243 | Stopping after any index removal or any deletion: every content survives at its source or a copy, every message keeps an index path, and a deleted source was released first. |
| `Mover.SafeWithoutPathOps` | src/filter/mover.go:186-243 | Without a path-ops backend, stopping anywhere still loses no content. |
| `Mover.MovesLand` | src/filter/mover.go:147-243 | After all copies and deletions, every moved file is gone from its source, and its content lies at its destination or along the chain of further copies. |
| `Mover.Mover.CopyFile` | src/filter/mover.go:385-421 | Publishing a copy renames it onto a name that was free when tested: exactly that file is added, every state so far stays safe, and a file another process put there in between is the one thing overwritten. |
| `Mover.Mover.Arrive` | src/filter/mover.go:385-421 | A file that appears at the destination between test and rename keeps every state safe, and is recorded as overwritten. |
| `Mover.Mover.CopyAll` | src/filter/mover.go:147-185 | The copy phase follows the plan of the entries against the starting files, and stops at the first failure with only copies made. |
| `Mover.Mover.AddPaths` | src/filter/mover.go:186-215 | The index gains a prefix of the copies, all of them when the call succeeds. |
| `Mover.Mover.RemovePaths` | src/filter/mover.go:216-230 | The index loses a prefix of the sources, all of them when the call succeeds. |
| `Mover.Mover.DeleteSources` | src/filter/mover.go:231-243 | Sources are deleted one by one; a failure leaves the rest in place. |
| `Mover.Mover.Publish` | src/filter/mover.go:186-243 | Index before delete: whichever phase fails, the state is safe, and sources are deleted only after both index phases succeeded. |
| `Mover.Mover.Move` | src/filter/mover.go:100-243 | Through every failure point and every intermediate state: no content lost, no file that was there at the start overwritten, every message keeps an index path where the backend has path operations; the files overwritten are exactly those that other processes put at a destination after its existence test; a dry run changes nothing; every path of every entry with a target is answered as Mover.PlanAnswers says; and a finished live move has landed every file that the plan moves. |
| `Wrap.BreakWord` | src/tui/pager.go:360-395 | Hard-breaking a long word fills rows to the width and leaves the rest open. |
| `Wrap.WrapText` | src/tui/pager.go:337-407 | The loop over row, column and rune buffers produces the rows the specification defines, edge spaces kept. |
| `Wrap.WrapSplit` | src/tui/pager.go:309-407 | Wrapping x + y is all but the last row of wrapping x, followed by wrapping that last row with y appended, hard breaks and edge spaces included, for visible words. |
| `Wrap.LastReplays` | src/tui/pager.go:309-326 | The last row of a wrap wraps to itself. |
| `Wrap.WrapKeepsLetters` | src/tui/pager.go:337-407 | Wrapping keeps every non-blank character, in order. |
| `Wrap.RowsFit` | src/tui/pager.go:337-407 | Before edge spaces are put back, every row fits the width or is a single rune wider than it. |
| `Wrap.RowsGreedy` | src/tui/pager.go:337-407 | The next word joins the current row with one space exactly when both fit the width; else the row is closed. |
| `Wrap.PiecesFull` | src/tui/pager.go:360-395 | A hard break takes as many runes as fit the width, and at least one. |
| `Stream.FedAppend` | src/tui/pager.go:256-283 | Feeding a then b leaves the lines that feeding a + b leaves, when every rune is visible. |
| `Stream.StreamingRefinesBatch` | src/tui/pager.go:256-283 | Any split of a text into deltas leaves exactly the lines one append of the whole text leaves, when every rune is visible. |
| `Stream.FedKeepsLetters` | src/tui/pager.go:256-283 | Whatever the deltas and the widths, the lines hold every non-blank character and newline streamed so far, in order. |
| `Stream.ZeroWidthDiverges` | src/tui/pager.go:256-407 | With a rune of width zero there is a text and a split that leaves different lines. |
| `Stream.SplitBlindExactly` | src/tui/pager.go:256-407 | Streaming equals batch for all texts and splits if and only if every non-blank rune has positive width. |
| `Pager.SlotsPartition` | src/tui/pager.go:151-195 | The expanded layout is one contiguous block of span rows per line, in order. |
| `Pager.SpanIs` | src/tui/pager.go:151-205 | Without images every line is one text row; with them a decoded own-line image takes its height in image rows, any other line the height of its tallest image, at least one row, with image rows behind the first. |
| `Pager.StyleRange` | src/tui/pager.go:212-232 | Styling a range fills the cache for its lines, never wrongly, and gives every text row its line's style. |
| `Pager.StyledAlike` | src/tui/pager.go:551-605 | Two lines are styled alike exactly when they agree in text, kind, quote depth, verdict and link labels, in the place in the header run, the theme, the boundary a background is padded to, the selected link where it is theirs, and the image heights where images are shown. |
| `Pager.HeaderRunIs` | src/tui/pager.go:551-605 | A header line's place counts the unbroken run of header lines that ends at it, and is 0 for any other line. |
| `Pager.WidestIs` | src/tui/pager.go:113-125 | The pan limit is the width of the widest line. |
| `Pager.BuildLayout` | src/tui/pager.go:151-195 | The layout loops produce the specified rows, image rows marked. |
| `Pager.Pager.constructor` | src/tui/pager.go:59-63 | A new pager holds its lines with nothing cached. |
| `Pager.Pager.SetLines` | src/tui/pager.go:113-125 | New content resets pan, scroll and caches; the cache tag is in step afterwards if and only if it was taken at the plain width and the current theme. |
| `Pager.Pager.SetSize` | src/tui/pager.go:130-144 | After a resize the window is styled for the new width and theme, if the cache was in step or its tag differs from the new boundary; a resize to the tagged boundary keeps every cached style. |
| `Pager.Pager.Relayout` | src/tui/pager.go:151-195 | The layout is rebuilt, styles of image carriers dropped, every other cached style kept, the offset clamped. |
| `Pager.Pager.EnsureStyled` | src/tui/pager.go:212-232 | From a coherent cache, every visible text row ends with its current style. |
| `Pager.Pager.Append` | src/tui/pager.go:239-247 | Appending one line keeps the cache and the window right. |
| `Pager.Pager.AppendText` | src/tui/pager.go:256-283 | A delta leaves the lines the fold of its segments defines, and a coherent cache coherent. |
| `Pager.Pager.WrapLast` | src/tui/pager.go:309-326 | The open last line is replaced by its wrap, the last row closed if asked. |
| `Pager.FedLinesTexts` | src/tui/pager.go:256-326 | What a delta does to the pager's lines is what it does to their texts. |
| `Pager.DeltasDoNotShow` | src/tui/pager.go:256-326 | Two pagers fed one text in different deltas hold the same texts. |
| `Pager.Pager.SetLinkSel` | src/tui/pager.go:412-421 | A new link selection drops every cached style; the same one keeps the cache. |
| `Pager.Pager.SetImages` | src/tui/pager.go:424-430 | Toggling images keeps the cache right. |
| `Pager.Pager.Decode` | src/tui/pager.go:151-195 | Lines that differ only in decoded images keep the cache right after the relayout. |
| `Pager.Pager.PanTo` | src/tui/pager.go:706-722 | A pan to another boundary retags and drops the cache; a pan to the tagged boundary keeps it. |
| `Pager.Pager.ScrollLeft` | src/tui/pager.go:706-713 | Pans left by the step, not past column 0, keeping cache and tag in step. |
| `Pager.Pager.ScrollRight` | src/tui/pager.go:715-722 | Pans right by the step, not past the widest line, keeping cache and tag in step. |
| `Pager.Pager.ScrollTo` | src/tui/pager.go:725-738 | The offset is clamped into the document. |
| `Pager.ClampedIsNearest` | src/tui/pager.go:725-738 | The offset is the nearest one to what was asked at which the window lies inside the document, or starts it. |
| `Pager.Pager.ScrollTop` | src/tui/pager.go:731-733 | The offset is 0. |
| `Pager.Pager.ScrollBottom` | src/tui/pager.go:735-738 | The last page, clamped. |
| `Pager.ShowRows` | src/tui/pager.go:745-764 | The window is shown row by row, panned, padded to the height; painted rows show the current style of their line. |
| `Pager.Pager.Render` | src/tui/pager.go:745-764 | Exactly height rows; from a coherent cache, every one shows what styling its line from scratch under the current state shows. |
| `Pager.Pager.Step` | src/tui/pager.go:113-322 | Any one operation keeps the cache right and in step with its tag, unless it replaces the content of a panned pager; a paint then shows every row as styled from scratch. |
| `Pager.Pager.Run` | src/tui/pager.go:113-322 | Over every sequence of operations that replaces content only while not panned, the cache stays right and in step. |
| `Pager.EveryPaintIsExact` | src/tui/pager.go:745-764 | After any such run from a new pager, every painted row is what styling its line from scratch shows. |
| `Pager.OutOfStepGoesStale` | src/tui/pager.go:130-144 | Out of step, a paint and a resize to the tagged boundary leave a visible line styled for another boundary, whatever the pager holds. |
| `Pager.PannedReplacementGoesStale` | src/tui/pager.go:113-125 | A concrete run: content replaced while panned, then panned back to the tagged boundary, shows a style of the wrong boundary. |
| `Labels.FindURL` | src/mail/html_stage2.go:152-177 | The first whitespace-separated field that is a link, by its start and end: no field before it is one. |
| `Labels.FirstURLFirst` | src/mail/html_stage2.go:152-177 | From any field boundary, what is found is a whole field, and no field between is a link. |
| `Labels.LabelFirstReads` | src/mail/html_stage2.go:111-145 | A label put first in a link's children reads before all its text and changes none of it. |
| `Labels.LabelFirstPlace` | src/mail/html_stage2.go:111-145 | A label goes in front of the children, or, when they start with a block, inside that block if it is anonymous and into a new anonymous block before it if not. |
| `Labels.DigitsAre` | src/mail/html_stage2.go:152-177 | A label's digits are the number in decimal, without leading zeros. |
| `Labels.AnnotatedLabelled` | src/mail/html_stage2.go:111-177 | Labelling a reading with k labels so far numbers it from k + 1 without gaps, leaves its plain text, and puts each label right before what it names. |
| `Labels.Stage2.InjectInto` | src/mail/html_stage2.go:111-145 | The in-place rewrite of a box list reads as the labelling of its reading, and appends exactly the links found. |
| `Labels.Stage2.InjectBox` | src/mail/html_stage2.go:111-145 | The same for one box: a link box, a text box split at its links, or a container. |
| `Labels.Stage2.SplitText` | src/mail/html_stage2.go:152-177 | A text box splits into text, label and link boxes that read as the labelling of its text. |
| `Labels.InjectLinkLabels` | src/mail/html_stage2.go:103-177 | For every well-formed box tree without labels: the labels in reading order are [1]..[n] with n the number of links, the unlabelled text is unchanged, label N stands right before the link or token that produced link N, and no text outside links and verbatim boxes holds a URL without a label. |
| `Screen.ParseSGR` | src/tui/screen.go:147-169 | The loop splits a row into styled runs, carrying the style across escapes, an unfinished escape included. |
| `Screen.ParsePlain` | src/tui/screen.go:147-169 | Characters before the next escape keep the style they were reached in, one cell run each. |
| `Screen.PaintedAt` | src/tui/screen.go:78-133 | Column by column, a painted row shows what it shows on a blank screen, except that a column stepped over by a control character keeps its old cell. |
| `Screen.PaintedWhole` | src/tui/screen.go:78-133 | Painting a row over any two old contents gives the same cells if and only if no control character steps over a column that nothing writes. |
| `Screen.LaidShows` | src/tui/screen.go:78-133 | A printable character stands at the column that the widths before it add up to, covers its own width, and the columns behind the row are blank in its last style. |
| `Screen.Display.constructor` | src/tui/screen.go:44-76 | A fresh display has pushed no frame. |
| `Screen.Display.MarkRowsCleared` | src/tui/screen.go:54-66 | Marks exactly the rows of the range, keeping earlier marks; an empty range marks none. |
| `Screen.Display.ClearRows` | src/tui/screen.go:54-66 | Rows written behind the cache's back are marked, so the cache stays right. |
| `Screen.Display.Resume` | src/tui/screen.go:73-76 | After a reset nothing is cached, whatever the terminal shows. |
| `Screen.Display.PaintRow` | src/tui/screen.go:78-133 | The cell loop paints the row's runs and pads to the width. |
| `Screen.Display.PushFrame` | src/tui/screen.go:78-133 | At fixed size, after every push every screen row shows that frame's row in every column the row does not step over, despite skipped rows and skipped frames, over any history of pushes, clears and resets; a row is painted over its old cells if and only if it changed or was cleared. |
| `Screen.PushOverSkip` | src/tui/screen.go:110-122 | A concrete run: a row that is one control character, pushed over a letter, leaves the letter on screen. |

## Left out

- Lower-casing outside ASCII: the filter's letters are A to Z here.
- Goroutines and locks: every locked method is one atomic step; interleavings are modelled at those steps.
- Deltas that split a character's bytes, blanks other than space and tab, and grapheme clusters: text is a sequence of characters with an additive width.
- The thread-tail marks, the sender, subject and notify fields of a classification entry, and the view's generation counter: computed beside the modelled state and never read back by it.
- Sharing of one message object by rows and threads: rows carry messages without attachments and paths, which is exactly what may change under a memo.
- Tree.FindParent: threads in which two messages share an id are left out; the database provides unique ids.
- Tree.BuildTree: the same restriction to unique ids, here and in the merge of message lists.
- Wrap-around of the 64-bit revision and generation counters.
- The whole-row and whole-message getters, ToggleCollapseAll, ThreadMsgs and FullRows: plain reads or loops over modelled operations.
- Deletion of messages and changes of thread id in the database: the program leaves them to a later complete reload.
- Two processes writing the floor file at the same instant: the higher-of-two guard is one step here.
- View.View.ApplyStaged: the views other than the one that applies, merges between two entries, the folder move before a tag write and the repointing of paths after it are not modelled; the order in which entries are visited is any order.
- Screen resize: the frame theorem is at fixed size. The terminal library's own cell diff is below the model.
- The lock's timing, temporary files and directory creation in copyFile: publishing is one rename, which replaces a file that arrived after the existence test.
- Fallback paths of the search views, attachment measuring and image protocols: they feed the pager lines, which are arbitrary here.
- HTML layout, MIME, crypto, configuration, overlays, key hints, scripting, notifications: not part of this model.
