# Directory player: a Dafny model of its playback and treeview core

The directory player is a desktop music player. A Rust backend plays audio and
lists directories. A TypeScript frontend shows the chosen directory as an
expandable tree and lets the user play files from it. This project models that
system's core as pure Dafny functions and small methods, and proves properties
of the model.

**Backend (Rust).**
- `PlayQueue` models the play queue: the files, an ordering of their positions
  (identity, or a shuffle that starts with the chosen file) and a cursor.
- `PlaybackManager` models the playback manager's command handling. It is a
  state machine over the queue, the current and next playback ids, the playback
  state, the stream timing and the shuffle and repeat modes. Its output is a
  trace of effects: messages to the audio thread, events to the GUI, and the
  background open of a file stream.
- `FileStreams` models the reading side of a decoded stream. Blocks tagged with
  a stream id arrive from the decoder. Reads walk the blocks, played blocks are
  disposed of, and a seek moves the stream id on.
- `DirectoryListing` models the directory listing and the expand and collapse
  commands.

**Frontend (TypeScript).**
- `FileListing` models the frontend's file-listing cache, as a heap of shared
  file objects plus a path lookup.
- `FlatListings` models the flattening of that tree into rows.
- `TreeviewReducers` and `TreeviewSelectors` model the normalised treeview
  state and its flat projection.
- `PlaybackItems` models the choice of files to play from a row.
- `PubSub`, `NotifyChanged` and `Listeners` model the publish/subscribe
  helpers.
- `Paths` models the parent-path helper.
- `RepeatButton` models the repeat button's mode cycle.

**Shared modules.**
- `Wrappers` holds the Option type.
- `Sorting` is a stable insertion sort over an abstract comparator.
- `MusicFiles` holds the list of supported extensions.
- `PlayerModes` holds the repeat and shuffle modes.
- `TreeviewItems` holds the tree item type shared by backend and frontend.

**Inputs.** These become parameters:
- randomness: the shuffle permutation `perm`;
- the file system: directory reads as `Option` values, where None is a failed read;
- the decoder's messages: the `arrived` blocks;
- the result of a ring-buffer push, where its success changes behaviour;
- the skip-back time test: `earlyInStream`;
- the locale collation: an abstract comparator `leq`.

## Behaviour worth noting

- The flat listing emits siblings in descending comparator order. The code
  sorts ascending and then pops from the end of a stack. The flat listing
  itself filters no hidden files.
- Collapsing removes only the paths of the directory's direct children from the
  lookup, not the whole subtree. It does not clear `isExpanded` (see Findings).
- Expanding marks the directory expanded before the read. A failed read leaves
  it marked.
- Loading a root does not mark anything expanded and does not notify. Only the
  dialog path notifies, once, on success.
- Choosing the files to play scans forward only from the start row. It does not
  scan backward.

## Model

| member | source | states |
|---|---|---|
| PlayQueue.FromIter | src-tauri/src/player/queue.rs:18-30 | None exactly when the start index is out of range; otherwise a valid unshuffled queue over the same elements whose current element is the one at the start index |
| PlayQueue.ShuffledOrdering | src-tauri/src/player/queue.rs:32-51 | the shuffled ordering is a permutation of all positions and begins with the start position, whatever the random permutation of the tail |
| PlayQueue.FromIterShuffled | src-tauri/src/player/queue.rs:53-63 | None exactly when the start index is out of range; otherwise a valid shuffled queue at cursor 0 whose current element is the one at the start index |
| PlayQueue.ToShuffled | src-tauri/src/player/queue.rs:65-71 | shuffling keeps the elements and the current element, yields a valid shuffled queue, and leaves an already shuffled queue as it is |
| PlayQueue.ToUnshuffled | src-tauri/src/player/queue.rs:73-84 | unshuffling keeps the elements and the current element, yields a valid queue in list order, and leaves an unshuffled queue as it is |
| PlayQueue.ShuffleRoundTrip | src-tauri/src/player/queue.rs:65-84 | shuffling an unshuffled queue and unshuffling it again gives back the same queue, whatever the shuffle |
| PlayQueue.FromIterShuffledUnchecked | src-tauri/src/player/queue.rs:32-51 | for a start index in range, a valid shuffled queue over the same elements at cursor 0, whose current element is the one at the start index |
| PlayQueue.Current | src-tauri/src/player/queue.rs:90-92 | in an unshuffled queue the current element is the one at the cursor's list position |
| PlayQueue.HasPreviousStepsBack | src-tauri/src/player/queue.rs:86-88 | there is a previous element exactly when stepping back changes the queue, and then the cursor lands one position earlier |
| PlayQueue.GoNext | src-tauri/src/player/queue.rs:94-104 | RepeatAll always yields an element and wraps the cursor modulo the length; Default advances by one and yields the new current element, or at the last position yields None and leaves the queue unchanged |
| PlayQueue.GoPreviousClamped | src-tauri/src/player/queue.rs:106-111 | the cursor steps back by one unless it is at the first position, where nothing changes; the element under the new cursor is returned |
| PlayQueue.PlaysToEndFollowsOrdering | src-tauri/src/player/queue.rs:94-104 | without repeat, successive moves yield exactly the elements after the cursor in the queue's ordering and then stop |
| PlayQueue.RepeatAllAdvances | src-tauri/src/player/queue.rs:95-97 | k RepeatAll moves, k at most the length, advance the cursor by k positions, wrapping past the end once |
| PlayQueue.RepeatAllFullCycle | src-tauri/src/player/queue.rs:95-97 | one RepeatAll move per element brings the queue back to where it started |
| PlaybackManager.Init | src-tauri/src/player/manager.rs:160-170 | the manager as constructed satisfies the manager invariant |
| PlaybackManager.SetPlaybackState | src-tauri/src/player/manager.rs:517-522 | stores the state, and emits a GUI event exactly when the state changes, so the GUI's replayed view equals the manager's |
| PlaybackManager.SetStreamTiming | src-tauri/src/player/manager.rs:524-531 | stores the timing, and emits a GUI event exactly when the timing changes, so the GUI's replayed view equals the manager's |
| PlaybackManager.StartPlaybackOf | src-tauri/src/player/manager.rs:478-515 | the new playback takes the fresh id and the counter moves past it; the audio thread is first told to stop; the last effect opens the file under that id; timing is cleared and the state is Playing; queue and modes are kept |
| PlaybackManager.StopPlayback | src-tauri/src/player/manager.rs:463-476 | no current playback, no timing and the Stopped state, with the audio thread told to stop first; queue, id counter and modes are kept; the GUI stays in sync |
| PlaybackManager.PlayNext | src-tauri/src/player/manager.rs:437-461 | RepeatOne restarts the current element; otherwise the queue advances, wrapping under RepeatAll, and when it has nothing more playback stops and the queue is dropped; the manager invariant and GUI sync hold |
| PlaybackManager.SetShuffleMode | src-tauri/src/player/manager.rs:248-258 | choosing the current mode changes nothing; otherwise the queue is converted to the new mode, keeping its current element; no effects |
| PlaybackManager.StartPlaybackCommand | src-tauri/src/player/manager.rs:264-273 | an out-of-range start index drops the queue and emits nothing; otherwise the queue holds the given files and the first file opened under the fresh id is the one at the start index |
| PlaybackManager.PlaybackEndedCommand | src-tauri/src/player/manager.rs:275-280 | the end of the current playback moves on as PlayNext does; the end of any other playback is ignored |
| PlaybackManager.ProgressCommand | src-tauri/src/player/manager.rs:406-417 | only reports from the current playback with known timing update the position; every other report changes nothing |
| PlaybackManager.OpenFileStreamCommand | src-tauri/src/player/manager.rs:282-370 | a stale stream is dropped with nothing changed; for the current playback the timing starts at 0 when length and time base are known, and the last effect hands the stream to the audio thread, paused exactly when the manager is paused |
| PlaybackManager.OpenFileStreamErrorCommand | src-tauri/src/player/manager.rs:218-231 | a failed open of the current playback moves on as PlayNext does; a stale failure is ignored |
| PlaybackManager.SeekToCommand | src-tauri/src/player/manager.rs:423-435 | without timing nothing happens; an offset inside the stream is sent to the audio thread and nothing else changes; an offset at or past the end moves on to the next element |
| PlaybackManager.SkipBackCommand | src-tauri/src/player/manager.rs:376-404 | early in a stream with a previous element, the queue steps back by one and that element starts; otherwise a stream that has advanced restarts at 0; otherwise nothing happens |
| PlaybackManager.Step | src-tauri/src/player/manager.rs:173-246 | every command keeps the manager invariant, meaning a well-formed queue shuffled exactly when shuffle is on and a current id that was issued and is not stopped, and keeps the GUI's replayed state and timing equal to the manager's, with no spurious change events |
| PlaybackManager.StaleReportsIgnored | src-tauri/src/player/manager.rs:275-289 | progress, end, open and open-error reports for anything but the current playback id change nothing and produce no effects |
| PlaybackManager.PlaybackIdsAreFresh | src-tauri/src/player/manager.rs:478-515 | the id counter never decreases, and a newly current playback always has the id the counter held, after which the counter moves past it |
| FileStreams.Poll | src-tauri/src/player/file_stream.rs:545-566 | queued blocks are kept in order, only arrived blocks with the current stream id are appended, and the rest are dropped |
| FileStreams.MatchingSingle | src-tauri/src/player/file_stream.rs:548-563 | a single arrived block is accepted exactly when it carries the current stream id |
| FileStreams.MatchingConcat | src-tauri/src/player/file_stream.rs:545-566 | accepting blocks from two batches in a row accepts each batch's blocks in arrival order, the first batch's before the second's |
| FileStreams.MatchingKeepsEvery | src-tauri/src/player/file_stream.rs:545-566 | every arrived block that carries the current stream id is accepted |
| FileStreams.PollInArrivalOrder | src-tauri/src/player/file_stream.rs:545-566 | polling twice appends the same blocks, in the same order, as one poll over everything that arrived |
| FileStreams.IsReady | src-tauri/src/player/file_stream.rs:468-471 | ready exactly when a block was queued or a block for the current stream id arrived |
| FileStreams.ReadFromBlocks | src-tauri/src/player/file_stream.rs:479-503 | copies the first min(want, pending) pending frames in order, advances the playheads by exactly that many frames, and reports the end-of-file flag of the last block it finished |
| FileStreams.AdvanceInBounds | src-tauri/src/player/file_stream.rs:481-491 | a read walk never moves a block's playhead past the block's frame count |
| FileStreams.ReadKeepsInBounds | src-tauri/src/player/file_stream.rs:479-516 | after a read walk and the disposal of played blocks, every queued block's playhead is still within its frames |
| FileStreams.DisposePlayed | src-tauri/src/player/file_stream.rs:504-516 | drops exactly the fully played blocks at the front |
| FileStreams.PrunePending | src-tauri/src/player/file_stream.rs:504-516 | disposing of played blocks loses no pending frame |
| FileStreams.Read | src-tauri/src/player/file_stream.rs:473-522 | None exactly when no block is queued; otherwise the data is the next min(frames, 16384, pending) pending frames and exactly the rest stay pending |
| FileStreams.FinalEmptyBlockDisposedUnreported | src-tauri/src/player/file_stream.rs:494-516 | a read ending where a non-final block ends disposes of the decoder's empty final block queued behind it without reporting the end of file |
| FileStreams.ReadReportingDisposedEof | src-tauri/src/player/file_stream.rs:504-516 | with disposal also reporting disposed final blocks, a final block that was queued is either still queued after the read or reported by it |
| FileStreams.Seek | src-tauri/src/player/file_stream.rs:524-543 | the stream id always moves on; when the request reaches the decoder the playhead moves to the target and all queued blocks are dropped, otherwise blocks and playhead stay |
| FileStreams.SeekDropsStaleBlocks | src-tauri/src/player/file_stream.rs:524-566 | after a successful seek, no block decoded for an earlier stream id is ever queued |
| DirectoryListing.EntryItem | src-tauri/src/main.rs:66-93 | an entry becomes an item exactly when its name and path are UTF-8 and it is a directory or a file not starting with '.'; directories are unexpanded and childless; a file is playable exactly when its name ends with a supported extension |
| DirectoryListing.AdmittedMembers | src-tauri/src/main.rs:66-95 | an item is in the listing exactly when some readable entry becomes it |
| DirectoryListing.BuildDirectoryListing | src-tauri/src/main.rs:63-102 | the listing is a permutation of the admitted items, holds exactly the items some entry becomes, and is sorted by name when the comparator is a total preorder |
| DirectoryListing.ExpandDirectory | src-tauri/src/main.rs:112-124 | the command succeeds exactly when the directory is readable and has a final name; the result is that directory, expanded, with its sorted listing |
| DirectoryListing.CollapseDirectory | src-tauri/src/main.rs:126-136 | the result is the directory with its name and path, not expanded and without children |
| DirectoryListing.ItemNameAndPathRoundTrip | src-tauri/src/main.rs:50-61 | the name and path read back from an item are those it was built from, for a directory built from a name and path and for the item an entry becomes |
| DirectoryListing.CollapseMatchesListedDirectory | src-tauri/src/main.rs:126-136 | collapsing gives back the same item the directory listing shows for that directory |
| MusicFiles.MatchSurvivesLowerCase | src/treeview/core/file-type.ts:11-15 | a name the backend marks playable still ends with a supported extension after the frontend lowercases it |
| FileTypes.GetFileType | src/treeview/core/file-type.ts:7-20 | a file is a directory exactly when it has children, a music file exactly when it is a non-directory with a non-empty name whose lowercased form has a supported extension, and otherwise a plain file |
| FileTypes.CaseInsensitive | src/treeview/core/file-type.ts:14 | names that agree after lowercasing get the same file type |
| FileTypes.PlayableIsMusicFile | src/treeview/core/file-type.ts:11-17 | every file name with a supported extension is classified as a music file |
| FileListing.Register | src/treeview/core/file-listing.ts:123-127 | the lookup gains exactly the paths of the directories among the given objects, each mapped to a directory with that path; other keys keep their values |
| FileListing.RegisterSound | src/treeview/core/file-listing.ts:80-84 | registering keeps every lookup key mapped to a directory object with that path |
| FileListing.ReadRootDir | src/treeview/core/file-listing.ts:76-89 | a failed normalise or read changes nothing; otherwise the root is the normalised path with fresh objects for the read entries, and the lookup holds exactly the paths of the root's directory children; the cache invariant holds |
| FileListing.ReadRootDirLookupTargets | src/treeview/core/file-listing.ts:79-84 | after a reload every lookup key leads to the new root's own child object for that directory, never to an object of an earlier root |
| FileListing.InitListing | src/treeview/core/file-listing.ts:90-101 | a persisted directory that loads becomes the root; without one, or when it fails to load, the cache is empty |
| FileListing.OpenDialog | src/treeview/core/file-listing.ts:59-75 | a cancelled dialog or a failed load changes nothing and notifies no one; a successful load replaces the root and notifies exactly once |
| FileListing.ExpandDirectory | src/treeview/core/file-listing.ts:114-129 | unknown paths fail with nothing changed; an expanded directory is left alone; a failed read leaves the directory marked expanded; a successful read makes fresh objects its children, registers them and notifies once |
| FileListing.ExpandRegistersDirectories | src/treeview/core/file-listing.ts:123-127 | after an expand the lookup holds exactly the old keys and the paths of the read's directories |
| FileListing.CollapseDirectory | src/treeview/core/file-listing.ts:130-141 | unknown paths fail; an unexpanded directory is left alone; otherwise exactly the direct children's paths leave the lookup, the children become empty, the expanded mark stays, and the listeners are notified once |
| FileListing.CollapseDirectoryClearingMark | src/treeview/core/file-listing.ts:130-141 | collapses as the code does and also clears the expanded mark |
| FileListing.ExpandKeepsKey | src/treeview/core/file-listing.ts:114-129 | expanding keeps the directory under its own key, marked expanded, with the read's fresh objects as its children |
| FileListing.ReExpandAfterCollapseDoesNothing | src/treeview/core/file-listing.ts:119-141 | expand, collapse, expand: the second expand changes nothing and notifies no one, and the directory stays without children |
| FileListing.ReExpandAfterClearingCollapseReads | src/treeview/core/file-listing.ts:114-141 | with the mark cleared on collapse, expanding again reads the directory anew and notifies once |
| FileListing.Node | src/treeview/core/file-listing.ts:12-25 | a file as the UI sees it carries its object's path, name, kind and expanded flag, with one subtree per child reference |
| FileListing.NodeChildren | src/treeview/core/file-listing.ts:12-25 | a file's k-th subtree is the file its object's k-th child reference points to |
| FileListing.GetRoot | src/treeview/core/file-listing.ts:108-110 | there is a tree exactly when a root is loaded, with the root's path and, as subtree k, the file the root's k-th child reference points to |
| FlatListings.Ordered | src/treeview/core/flat-listing.ts:27-33 | the traversal order of siblings is a permutation of them |
| FlatListings.OrderedDescending | src/treeview/core/flat-listing.ts:27-33 | for a total preorder, siblings are taken in descending name order: each sorts no earlier than every sibling after it |
| FlatListings.VisitAllRowsAreItems | src/treeview/core/flat-listing.ts:36-50 | every row of a listing is the row of some named file of the listed trees, with that file's type, expanded flag, name and path at the row's depth |
| FlatListings.RecursivelyFlatten | src/treeview/core/flat-listing.ts:25-53 | the stack-based walk yields exactly the recursive pre-order listing: siblings in descending name order, unnamed files skipped with their subtrees, and only expanded directories' children listed, one level deeper |
| FlatListings.GenerateFullListing | src/treeview/core/flat-listing.ts:55-60 | no listing exactly when there is no root; otherwise the pre-order listing of the root's children from depth 0 |
| FlatListings.VisitDepths | src/treeview/core/flat-listing.ts:36-50 | a named file's rows start with its own row at its depth, and every later row is strictly deeper; an unnamed file gives no rows |
| FlatListings.VisitAllDepths | src/treeview/core/flat-listing.ts:25-53 | no row of a listing from depth d is shallower than d |
| FlatListings.CollapsedYieldsOneRow | src/treeview/core/flat-listing.ts:43-50 | a named file that is not an expanded directory yields exactly its own row |
| TreeviewReducers.FromEntries | src/treeview/reducers.ts:68-72 | the object has exactly the entries' keys, each with the value of the last entry carrying it |
| TreeviewReducers.UniqueKeysLookup | src/treeview/reducers.ts:68-72 | with distinct keys, each key maps to its own entry's value |
| TreeviewReducers.ListingReducer | src/treeview/reducers.ts:16-23 | init sets the listing to the top-level items' paths in order; any other action keeps it |
| TreeviewReducers.Normalize | src/treeview/reducers.ts:50-60 | normalising keeps name, path and kind, the expanded flag of a directory and the play flag of a file |
| TreeviewReducers.NormalizeRoundTrip | src/treeview/reducers.ts:50-60 | normalising loses only a directory's children: adding them back restores the item |
| TreeviewReducers.RecursiveNormalizeIsPreorder | src/treeview/reducers.ts:27-48 | the normalised entries are the pre-order list of all nodes, each keyed by its path |
| TreeviewReducers.ItemsReducer | src/treeview/reducers.ts:62-96 | init rebuilds the items from the tree; an update sets the item and, for a directory, all its descendants, leaving every other key as it was; other actions keep the state |
| TreeviewReducers.InitItemsKeys | src/treeview/reducers.ts:67-72 | after init the items hold exactly the paths of the tree's nodes |
| TreeviewReducers.InitItemsHoldEveryNode | src/treeview/reducers.ts:67-72 | with unique paths, every node of the tree is stored, normalised, under its path |
| TreeviewReducers.ChildrenEntriesAreDirectories | src/treeview/reducers.ts:100-116 | the children entries are one per directory of the tree in pre-order, each listing its children's paths |
| TreeviewReducers.DirectoryChildrenReducer | src/treeview/reducers.ts:118-140 | init rebuilds the children map from the tree; a directory update replaces that directory's children paths only; file updates and other actions keep the state |
| TreeviewReducers.InitChildrenHoldEveryDirectory | src/treeview/reducers.ts:123-128 | after init the children map holds exactly the directories' paths, and with unique paths each maps to its children's paths |
| TreeviewReducers.TreeviewReducer | src/treeview/reducers.ts:142-147 | unrelated actions change nothing and updates keep the top-level listing |
| TreeviewSelectors.SelectIgnoresItems | src/treeview/selectors.ts:37-46 | the flat listing does not depend on the normalised items |
| TreeviewSelectors.FlattenPathFuel | src/treeview/selectors.ts:15-35 | a flattening that completes within a call depth gives the same rows with any larger depth |
| TreeviewSelectors.RecursiveFlattenFuel | src/treeview/selectors.ts:15-35 | a flattening of a list of paths that completes within a call depth gives the same rows with any larger depth |
| TreeviewSelectors.FlattenItemMatchesTree | src/treeview/selectors.ts:21-33 | when the children map agrees with a tree, flattening one of its items' paths gives that item's row followed by its descendants' rows, one level deeper |
| TreeviewSelectors.FlattenForestMatchesTree | src/treeview/selectors.ts:15-35 | when the children map agrees with a tree, flattening its paths gives the tree's pre-order rows with depths |
| TreeviewSelectors.InitThenSelectIsTreeRows | src/treeview/selectors.ts:37-46 | after init with a tree whose paths are unique, the selected flat listing is the tree's pre-order rows, top level at depth 0 |
| PlaybackItems.FindIndex | src/treeview/helpers.ts:7 | the index of the first row with the path, or -1 exactly when no row has it |
| PlaybackItems.GetPlaybackItems | src/treeview/helpers.ts:3-26 | an unknown start path gives nothing; otherwise the playable paths at the start depth from the start row on, up to the first shallower row, skipping deeper rows |
| PlaybackItems.RunMembers | src/treeview/helpers.ts:11-21 | every path chosen is a playable row at the start depth at or after the start |
| PlaybackItems.RunStopsAtShallower | src/treeview/helpers.ts:13-15 | rows after the first shallower row never contribute |
| Listeners.IndexOf | src/treeview/core/basic-pub-sub.ts:16 | the position of the first entry with the id, or -1 exactly when none has it |
| Listeners.Listen | src/treeview/core/basic-pub-sub.ts:12-21 | subscribing appends one entry under an id that was not in use |
| Listeners.Unsubscribe | src/treeview/core/basic-pub-sub.ts:15-20 | unsubscribing removes exactly the entry with the id, keeping the order of the rest; an unknown id changes nothing |
| Listeners.ListenThenUnsubscribe | src/treeview/core/basic-pub-sub.ts:12-21 | subscribing and then calling the returned unsubscribe restores the listener list |
| Listeners.UnsubscribeIdempotent | src/treeview/core/basic-pub-sub.ts:15-20 | calling an unsubscribe function twice has the effect of calling it once |
| Listeners.SubscribeTwiceRemovesSeparately | src/treeview/core/basic-pub-sub.ts:12-21 | the same listener subscribed twice gets two entries, and one unsubscribe removes only its own |
| PubSub.Listen | src/treeview/core/basic-pub-sub.ts:12-14 | the listener is appended after the existing ones |
| PubSub.NewPubSub | src/treeview/core/basic-pub-sub.ts:9-10 | a new channel has no listeners |
| PubSub.Unsubscribe | src/treeview/core/basic-pub-sub.ts:15-20 | afterwards the id is no longer subscribed; an unknown id changes nothing; otherwise exactly the entry with the id is removed and the others keep their order |
| PubSub.Notify | src/treeview/core/basic-pub-sub.ts:23-27 | every subscribed listener is called once with the arguments, in subscription order |
| NotifyChanged.NewCell | src/treeview/core/notify-changed.ts:25-27 | a new cell holds the initial value and has no handlers |
| NotifyChanged.Set | src/treeview/core/notify-changed.ts:29-34 | the new value is stored; the handlers are called with it, in order, exactly when it differs from the old value |
| NotifyChanged.Report | src/treeview/core/notify-changed.ts:51-55 | each handler is called once with the value, in subscription order |
| NotifyChanged.OnChange | src/treeview/core/notify-changed.ts:40-49 | the handler is appended and the value is kept |
| NotifyChanged.Unsubscribe | src/treeview/core/notify-changed.ts:43-48 | the value is kept and the handler is no longer registered; an unknown handler changes nothing; otherwise exactly that handler's entry is removed and the others keep their order |
| NotifyChanged.UnsubscribeTwice | src/treeview/core/notify-changed.ts:42-48 | removing a handler twice equals removing it once |
| NotifyChanged.GetAfterSets | src/treeview/core/notify-changed.ts:29-38 | after a series of sets, get returns the last value set and the handlers are unchanged |
| NotifyChanged.SetTwiceReportsOnce | src/treeview/core/notify-changed.ts:29-34 | setting the same value twice notifies only the first time, if at all |
| Paths.LastIndexOf | src/utils/path.ts:4 | the last position where the separator occurs, or -1 exactly when it occurs nowhere |
| Paths.GetParentPath | src/utils/path.ts:3-5 | the parent path is a prefix of the path |
| Paths.NoSeparatorNoParent | src/utils/path.ts:4 | a path without the separator has the empty parent |
| Paths.ParentSplitsAtLastSeparator | src/utils/path.ts:3-5 | with the separator present, the path is its parent, the separator, then a rest that holds no separator |
| RepeatButton.NextRepeatMode | src/player/ui/player-pane/repeat-button/index.tsx:8-18 | a press always changes the mode: off to repeat-all, repeat-all to repeat-one, repeat-one to off, and only those |
| RepeatButton.ThreePressesCycle | src/player/ui/player-pane/repeat-button/index.tsx:8-18 | three presses bring back the starting mode |
| RepeatButton.SelectedAfterPress | src/player/ui/player-pane/repeat-button/index.tsx:8-30 | a press leaves the button selected exactly when the mode was not repeat-one, and it stays selected across the press only from repeat-all |

## Left out

- Floating point is not modelled. This covers the gain curve, the resampling ratio, and the time-base comparison in skip back, which is the `earlyInStream` input.
- FileStreams.Read: the source-frame playhead update (line 517) is an f64 ratio and is not modelled. The playhead is left unchanged.
- The decode worker, the resampler, the audio output and the ring buffers are not modelled.
- Threads and channels are not modelled. A command is one `Step`, and the background open is an `OpenStream` effect answered by a later command.
- Stream metadata is reduced to present or absent. Album colours and logging are not modelled.
- Integer widths are not modelled. Playback ids are u64 and stream ids are u32, modelled as unbounded `nat`, because wrap-around needs 2^32 seeks or 2^64 playbacks.
- Sorting: `localeCompare` and `String::cmp` are the abstract comparator `leq`. Both sorts are modelled as a stable insertion sort. The backend's `sort_unstable_by` may order equal names differently, so BuildDirectoryListing's exact order is only one of the orders Rust may produce.
- Lowercasing covers the ASCII letters only. JavaScript's full Unicode case mapping is not modelled.
- Path normalisation, the open dialog and directory reads are inputs, not modelled. So is `path.file_name()` in the backend's expand and collapse commands, where None stands for its failure.
- PlaybackManager.StartPlaybackOf: always succeeds. At manager.rs:496 the backend unwraps the file name of the path twice and panics when the path has no final component or the name is not UTF-8; that failure and the name carried by the file-change event are not modelled, and the event carries only the path.
- The frontend's file-listing operations await between looking up a path and changing the cache (file-listing.ts:60, 77-78 and 120-121). Each operation is modelled as one atomic step, so interleavings at those awaits are not modelled, such as a root reload that completes while an expand is still reading.
- Persisting the chosen directory in storage is not modelled. Neither is clearing it after a failed start-up load, nor the menu-event listener.
- The listener callbacks are recorded as calls, not run. The effects of a listener that subscribes or unsubscribes during notify are not modelled.
- NotifyChanged.Set compares with Dafny equality, not JavaScript's `!==`. The two differ for NaN and for distinct objects with equal contents.
- `makeItemSelector` and the memoisation of `createSelector` are not modelled. Memoisation does not change the values computed.
- TreeviewSelectors: the recursion depth is bounded by `fuel`. None stands for running out of call stack, which happens in JavaScript when the children map has a cycle.
- PlaybackItems.GetPlaybackItems: rows carry a `canPlay` flag that the selector's row type lacks. The rows are modelled with it, as the helper reads them.
- FileListing.ExpandKeepsKey: requires that the read lists no entry with the directory's own path. A directory listing never lists the directory itself.
- FileListing.ReExpandAfterCollapseDoesNothing: carries the same requirement, for the same reason.
- FileListing.ReExpandAfterClearingCollapseReads: carries the same requirement, for the same reason.
- The UI components other than the repeat button's mode cycle are not modelled.

## Findings

| source | as written | input that shows it | evidently intended | confidence | as-written member | corrected member |
|---|---|---|---|---|---|---|
| src/treeview/core/file-listing.ts:130-141 | collapse empties the children but never clears `isExpanded`; expand returns early for a directory marked expanded | expand a directory, collapse it, expand it again: the second expand does nothing and the directory stays empty | collapse clears the expanded mark so that the directory can be expanded again | not executed | FileListing.ReExpandAfterCollapseDoesNothing | FileListing.ReExpandAfterClearingCollapseReads |
| src-tauri/src/player/file_stream.rs:494-516 | the end-of-file flag is taken only from blocks the read walk finishes; disposal then drops every fully played block at the front, including an empty final block the walk never reached | blocks [one frame, not final] then [no frames, final], same stream id; read 1 frame: the flag is false and both blocks are disposed of (the decoder sends a final block of zero frames when the stream ends on a block boundary, lines 208 and 227) | a disposed final block reports the end of file | not executed | FileStreams.FinalEmptyBlockDisposedUnreported | FileStreams.ReadReportingDisposedEof |
