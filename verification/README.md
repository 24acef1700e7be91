# Winter, modelled and verified

Winter is a terminal that shows rich, live output beside text, in tabs and panes. This project is a Dafny model of six
of its cores with proofs of what they are for.

**Scrollback** (`Text`, `Json`, `JsonText`, `Messages`, `Blocks`, `Retention`, `RetentionLaws`, `RetentionRuns`,
`Counting`, `Reading`, `Records`, `Characters`, `CommandFlood`, `Scrollback`). The terminal keeps command blocks, evicts
the oldest output past a byte budget, and finds live blocks through an index that eviction rewrites. `Retention` is the
state machine over events; `RetentionLaws` and `RetentionRuns` prove what each event and every run keeps, `Reading` what
is read back, and `Records` what is recorded beside it; `Characters` follows text as the parser sends it, a character a
print (crates/base/winter-emulator/src/parser.rs:286-288); `Scrollback` holds the classes that change blocks in place,
each method proved to be the machine's step.

**Live blocks** (`Pointer`, `Patch`, `PatchLaws`, `Diff`, `DiffLaws`, `LiveClient`, `LiveSessions`). A client diffs two
JSON values into a patch (RFC 6902) and a terminal folds it in; the two are proved to compose to the identity through
JSON pointers (RFC 6901), for every value, and over every run of the scrollback machine for as long as it holds the
block, which is said exactly.

**Word diff** (`Tokens`, `WordLcs`, `Pairings`, `PairingLaws`, `Segments`, `WordDiff`, `EditLaws`, `HunkLaws`). Lines are
paired, tokenised, diffed by a longest-common-subsequence table and marked. The walk is proved optimal and no text is
lost.

**Views** (`ScreenRows`, `PlaceView`, `ViewLaws`, `Wrap`, `Viewport`). A view is a row and how many of its screen rows are
scrolled past. Every move is proved to be arithmetic on one number, the screen rows above the view.

**Layout** (`Strips`, `StripLaws`, `SplitTree`, `SplitAreas`, `Snapshots`, `WindowLaws`, `Layout`, `Recency`,
`TabHistory`). A tree of splits holds panes of tabs, with a dock at its root. Surgery on the tree is proved to be surgery
on a flat list of strips and to move only the rectangles it should; every operation of the class keeps each tab once, and
the focus in sight but for the few cases its contract names exactly; closing goes back through the tabs as they were
shown.

**Stream guard and wire codec** (`OscGuard`, `Utf8`, `Wire`, `WireLaws`, `GuardedFrames`). A byte filter caps control
strings, and which it caps is proved by simulation against a parser with no cap; messages are framed as escape sequences,
proved to be read back and to pass the filter, and so are frames that other encoders write.

`dafny verify dfyconfig.toml` checks the project.

## Where the code and its comments part

The model follows the code.

- `move` takes its source out before it looks for its target (crates/base/winter-emulator/src/patch.rs:81-91), so a patch
  whose comment promises that what does not resolve is skipped can lose a value: `Patch.MoveIntoNothing` is one,
  `Patch.MoveLosesIff` says exactly when.
- Putting the dock away is to leave the focus on a shown tab, but the tab it goes back to may have stopped being the one
  its pane shows (crates/base/winter-model/src/layout.rs:555-569): `Layout.FocusLeftHidden` reaches such a state,
  `Layout.Layout.HideDock` says exactly when.
- A wrapped line's leading whitespace is said never to be a break (crates/base/winter-model/src/paint.rs:850-851), but the
  search for a word start does not rule it out, so a first line can be whitespace alone: `Wrap.LeadingBlankBreaks` is one,
  `Wrap.FirstLineBlankIff` says exactly when, and `Wrap.LaterLinesHoldText` that no later line is.
- The oldest blocks are to be elided until retained output fits (crates/base/winter-emulator/src/scrollback.rs:340-341),
  but what is counted includes command lines, which eliding keeps (scrollback.rs:348-365). `RetentionLaws.EnforcedExactly`
  says which blocks go, `RetentionLaws.ElidedForCommandsIff` exactly when one goes although the output from it on fits, and
  `CommandFlood.OutputThatFitsIsElided` is a session, a character a print, whose output is a fifth of the budget and whose
  oldest is elided.
- Array indices in a pointer are read as Rust reads unsigned numbers, so `+1` and `01` are indices too, which section 4 of
  RFC 6901 does not allow: `Patch.SignedIndexRead` shows both, `Patch.IndexOutsideGrammarIff` says which tokens are read
  outside the grammar.
- The view is to move the least that shows the cursor's row, whole where it fits (crates/base/winter-model/src/list.rs:216-220).
  A row that fits the pane, but not with a margin, is cut off: `ViewLaws.FittingCursorCut` is one,
  `ViewLaws.CursorShownWholeIff` says exactly when a row is shown whole.
- A zoomed window is to show the focused pane (crates/base/winter-model/src/layout.rs:343-345). With the focus left on a tab
  its pane does not show it shows nothing: `Layout.ZoomLeftBlank` reaches that, `Layout.Layout.ZoomShowsFocused` says
  exactly when.
- `add_tab_beside` asked to show a tab beside one there is not focuses a tab in no pane
  (crates/base/winter-model/src/layout.rs:605-611): `Layout.FocusInNoPane` does, `Layout.Layout.AddTabBeside` says exactly
  when.
- A client's updates reach a terminal that may have dropped the block for other programs' output
  (crates/base/winter-emulator/src/scrollback.rs:365-383): `LiveSessions.FirstBlockForgottenIff` is such a session,
  `LiveSessions.LeavesIff` says exactly when a block goes, by what is retained before the event.
- No OSC string past the cap is to reach the parser (crates/base/winter-emulator/src/osc_guard.rs:1-4). The guard is in a
  string only when `]` comes right after ESC, but a VT500 parser, such as the vte 0.15 it feeds, carries out controls and
  passes over DEL between the two: `OscGuard.OpenedPastTheGuard` is a string of any length that goes through whole,
  `OscGuard.OutputWithinCapIff` says exactly which streams stay within the cap, whatever the parser passes over.
- Going to the rows a layout reports is to scroll nothing (crates/base/winter-model/src/paint.rs:738-741). That holds of
  their screen rows (`ViewLaws.GoingThereScrollsNothing`), but a list goes to whole rows: `ViewLaws.WrappedTopScrolls` is
  one that scrolls, `Viewport.GoingToRowStaysIff` says exactly when none does.
- Splitting a pane is said never to resize a sibling row or column on a different axis
  (crates/base/winter-model/src/layout.rs:427-430). Across the split nothing is resized
  (`SplitAreas.SplitResizesAlongOnly`); along it a stacked sibling is (`SplitAreas.SplitWidensSibling`), and
  `SplitAreas.SplitResizesAlongIff` says exactly when no pane is.

## Model

| member | source | states |
|---|---|---|
| RetentionRuns.IndexAlwaysExact | crates/base/winter-emulator/src/scrollback.rs:265-317 | After any run of events the live index is exactly the unclosed live segments, each under its own id, and holds at most 1024 |
| RetentionRuns.RunKeepsInv | crates/base/winter-emulator/src/scrollback.rs:167-384 | Every run keeps the invariant: index exact, exactly the blocks behind the cursor elided and empty, command lines within their cap, live sizes counted right, block and live counts within theirs |
| RetentionRuns.TextIsSuffix | crates/base/winter-emulator/src/scrollback.rs:155-198 | Over any run the plain text held is a suffix of the plain text there was followed by all that was appended |
| RetentionRuns.OutputBounded | crates/base/winter-emulator/src/scrollback.rs:332-384 | At every moment of any run output is at most the budget, plus what was counted since the last check (always under the interval), plus the live specs opened since, which nothing counts |
| RetentionRuns.ElidedForGood | crates/base/winter-emulator/src/block.rs:206-209 | An elided block stays at its index, elided, empty and with the command line it had, whatever comes after |
| RetentionRuns.StepLaws | crates/base/winter-emulator/src/scrollback.rs:167-322 | One event keeps the invariant, keeps the text a suffix of what was there and what it appended, and leaves output within the budget after a check or grown by no more than what it counted and opened |
| RetentionRuns.IndexIsScan | crates/base/winter-emulator/src/scrollback.rs:292-317 | Rewriting the live block the index names gives the block list a walk over every unclosed segment of that id would |
| RetentionRuns.PatchIsScan | crates/base/winter-emulator/src/scrollback.rs:292-305 | Patching through the index is patching by that walk, and an id the index lacks has no unclosed segment to patch |
| RetentionRuns.CloseIsScan | crates/base/winter-emulator/src/scrollback.rs:307-317 | Closing through the index marks closed just what a walk would, and drops the id |
| RetentionLaws.EnforcedWithinBudget | crates/base/winter-emulator/src/scrollback.rs:340-384 | Right after enforcement the output of all blocks is within the budget, whatever the command lines take |
| RetentionLaws.EnforcedOldestFirst | crates/base/winter-emulator/src/scrollback.rs:348-384 | Blocks are elided strictly oldest first and keep their command lines; the current one is cut only once every earlier one is elided, and keeps its number of segments |
| RetentionLaws.EnforcedKeepsSuffix | crates/base/winter-emulator/src/scrollback.rs:348-384 | Enforcement takes text from the front only |
| Scrollback.Scrollback.constructor | crates/base/winter-emulator/src/scrollback.rs:113-125 | A fresh scrollback is the initial state and sound |
| Scrollback.Scrollback.Print | crates/base/winter-emulator/src/scrollback.rs:167-191 | Printing is the `Print` step, whose laws are `Reading.StepReads`, `Records.TypedIsLongest` and `Records.WrittenIsCounted`: to the command line, the output or nowhere by phase, at the end of the open link while there is one |
| Scrollback.Scrollback.LineBreak | crates/base/winter-emulator/src/scrollback.rs:193-198 | A line break is its step: a newline of output, only while a command runs |
| Scrollback.Scrollback.PromptStart | crates/base/winter-emulator/src/scrollback.rs:200-209 | A prompt is its step: a new block unless the current one is still empty or there are 50,000 |
| Scrollback.Scrollback.CommandEnd | crates/base/winter-emulator/src/scrollback.rs:221-225 | The end of a command is its step |
| Scrollback.Scrollback.SetCwd | crates/base/winter-emulator/src/scrollback.rs:227-236 | A directory report is its step: one over the cap is ignored, and a block with a directory keeps it |
| Scrollback.Scrollback.Emit | crates/base/winter-emulator/src/scrollback.rs:254-263 | An emitted block is its step, its bytes counted |
| Scrollback.Scrollback.Open | crates/base/winter-emulator/src/scrollback.rs:265-290 | Opening is its step: refused under an id that is open or past 1024, and never counted |
| Scrollback.Scrollback.Patch | crates/base/winter-emulator/src/scrollback.rs:292-305 | Patching through the index is its step, the growth counted |
| Scrollback.Scrollback.Close | crates/base/winter-emulator/src/scrollback.rs:307-317 | Closing through the index is its step |
| Scrollback.Scrollback.NoteGrowth | crates/base/winter-emulator/src/scrollback.rs:332-338 | Growth is noted, and the budget enforced once an interval of it has come |
| Scrollback.Scrollback.EnforceRetentionBudget | crates/base/winter-emulator/src/scrollback.rs:348-384 | The loop over blocks changed in place does what the specification of enforcement says |
| Scrollback.Scrollback.AllText | crates/base/winter-emulator/src/scrollback.rs:155-165 | The text is the plain segments of every block in order |
| Scrollback.Fit | crates/base/winter-emulator/src/scrollback.rs:169-178 | What is taken of typed text is its longest prefix within the room left, found by stepping back to a character boundary |
| Text.HeadIsLongest | crates/base/winter-emulator/src/scrollback.rs:172-176 | That prefix fits, and no longer one does |
| Blocks.CommandBlock.AppendText | crates/base/winter-emulator/src/block.rs:161-168 | Text joins the last plain segment or starts one |
| Blocks.CommandBlock.AppendLink | crates/base/winter-emulator/src/block.rs:171-183 | Link text joins, at its end, the last segment when that is a link to the same place, and starts one otherwise; what it then reads as is `Reading.LinkReads` |
| Blocks.CommandBlock.Elide | crates/base/winter-emulator/src/block.rs:206-209 | Eliding drops the output and nothing else |
| Blocks.CommandBlock.TrimFront | crates/base/winter-emulator/src/block.rs:217-244 | The segments are trimmed from the front in place, and the bytes reported are the bytes gone |
| Blocks.TrimKeepsSuffix | crates/base/winter-emulator/src/block.rs:211-244 | A trim leaves a suffix of the text |
| Blocks.TrimmedAt | crates/base/winter-emulator/src/block.rs:217-244 | A live segment left at an index after a trim is the one that was there |
| Blocks.CutFront | crates/base/winter-emulator/src/block.rs:271-279 | A cut falls between characters, removes at least what was asked, and reports what it removed |
| Blocks.WithTextAppends | crates/base/winter-emulator/src/block.rs:161-168 | Appending text adds just its bytes and its text at the end |
| Blocks.Fold | crates/base/winter-emulator/src/block.rs:117-125 | Folding a patch applies it to the current spec and reports the growth in bytes |
| Diff.UpdateRoundTrip | clients/client-rs/src/lib.rs:251-269 | For all JSON values, what `update_from` sends turns a document equal to the old value into the new one, past 256 operations too; and nothing is sent exactly when they are equal |
| Diff.OpsLand | clients/client-rs/src/diff.rs:16-51 | At any place in a larger document, the operations of a diff turn the old value there into the new one and leave the rest alone |
| Diff.Diff | clients/client-rs/src/diff.rs:16-51 | The recursion pushing operations key by key produces the specified list: removals first, then fields in order |
| Diff.ObjectLands | clients/client-rs/src/diff.rs:20-38 | Removing, adding and recursing into fields turns one object into another |
| Pointer.PathReadsBack | crates/base/winter-emulator/src/patch.rs:126-146 | The pointer the client writes is read back as the same tokens, with `~`, `/` or nothing in them (sections 3 and 4 of RFC 6901) |
| Pointer.UnescapeEscape | clients/client-rs/src/diff.rs:53-56 | Unescaping undoes escaping, for every token |
| LiveClient.LiveBlock.constructor | clients/client-rs/src/lib.rs:202-232 | Opening sends the first value, or outside Winter only the fallback text, under id 0 and silent from then on |
| LiveClient.LiveBlock.Update | clients/client-rs/src/lib.rs:245-249 | A whole update shows its value whatever was shown before |
| LiveClient.LiveBlock.UpdateFrom | clients/client-rs/src/lib.rs:251-269 | A minimal update sends the diff, one whole replacement past the cap, or nothing; a terminal showing the old value shows the new |
| LiveClient.LiveBlock.PatchOps | clients/client-rs/src/lib.rs:271-283 | One patch frame while live, nothing after |
| LiveClient.LiveBlock.Close | clients/client-rs/src/lib.rs:285-295 | One close frame, then silence; the terminal keeps its last value, closed |
| Patch.PatchGrowth | crates/base/winter-emulator/src/patch.rs:16-52 | A patch leaves a document no larger than the larger of what it was and 100,000 nodes, plus the nodes its `add` and `replace` values carry |
| Patch.OpGrowth | crates/base/winter-emulator/src/patch.rs:55-124 | One operation grows a document by what it carries, or leaves it within the cap |
| Patch.NodesOfMove | crates/base/winter-emulator/src/patch.rs:81-91 | A move never adds a node |
| Patch.MoveIntoNothing | crates/base/winter-emulator/src/patch.rs:81-91 | A concrete move whose target does not resolve and whose source is gone all the same |
| Patch.AddedIsFound | crates/base/winter-emulator/src/patch.rs:166-190 | A value added is found at its path, at the end for `-`; a path that does not resolve changes nothing (section 4.1 of RFC 6902) |
| Patch.TakenAddsBack | crates/base/winter-emulator/src/patch.rs:166-207 | Taking a value out and adding it back at the same place changes nothing |
| Patch.Locate | crates/base/winter-emulator/src/patch.rs:148-164 | The loop over tokens finds the value at a path, array indices as `parse` reads them |
| Patch.Document.Apply | crates/base/winter-emulator/src/patch.rs:28-43 | Operations are applied in turn to the document in place, 256 at most, up to the first failed `test` |
| Patch.Document.ApplyOp | crates/base/winter-emulator/src/patch.rs:54-124 | Each of the six operations, its missing fields and its failures, on the document in place; what each does is `PatchLaws.TestDecides`, `Patch.AddedIsFound`, `Patch.MoveLosesIff`, `PatchLaws.CopyLands`, `PatchLaws.ReplaceOverwrites` and `Patch.TakenAddsBack` |
| Patch.Document.AddAt | crates/base/winter-emulator/src/patch.rs:166-190 | Insertion at a key, an index, the end, or over the whole document |
| Patch.Document.TakeAt | crates/base/winter-emulator/src/patch.rs:192-207 | Removal at a key or index; never of the whole document |
| Patch.Document.ReplaceAt | crates/base/winter-emulator/src/patch.rs:209-214 | Overwriting what is there, and only what is there |
| Json.NodesOfField | crates/base/winter-emulator/src/patch.rs:45-52 | A field's nodes count in its object's, whichever order the fields come in |
| WordDiff.Decorate | crates/base/winter-model/src/word_diff.rs:91-149 | A line's marker and its segments spell the line; every pairing of every hunk is decorated as below; every other line is one segment |
| WordDiff.DecorateHunk | crates/base/winter-model/src/word_diff.rs:124-146 | A hunk is cut into pairings, each laid back on its own lines, no other line touched |
| WordDiff.SkipRun | crates/base/winter-model/src/word_diff.rs:106-119 | A run of lines with one marker is passed over whole |
| WordLcs.WalkIsOptimal | crates/base/winter-model/src/word_diff.rs:461-516 | The tokens kept are a subsequence of both lists, and no common subsequence is longer |
| WordLcs.WalkSpellsBoth | crates/base/winter-model/src/word_diff.rs:461-516 | Common and removed tokens spell the old list, common and added the new |
| WordLcs.LcsIsUpperBound | crates/base/winter-model/src/word_diff.rs:464-484 | The table's number bounds every common subsequence |
| WordLcs.DiffTokens | crates/base/winter-model/src/word_diff.rs:461-516 | The walk over the table, pushing runs, yields the runs of that walk, spelling both texts |
| WordLcs.FillTable | crates/base/winter-model/src/word_diff.rs:466-484 | The table filled from its far corner holds the longest-common-subsequence length of every pair of rests |
| WordLcs.RunsAlternate | crates/base/winter-model/src/word_diff.rs:518-528 | Neighbouring runs are of different sides, and none is empty |
| Pairings.PairedTiles | crates/base/winter-model/src/word_diff.rs:164-238 | The pairings cut both runs into ordered, contiguous ranges that cover them, none with an empty side |
| Pairings.PairUp | crates/base/winter-model/src/word_diff.rs:171-238 | The loop with its pending ranges, and the branch for equal counts, build the pairing that `PairingLaws` describes |
| Pairings.LinesSimilar | crates/base/winter-model/src/word_diff.rs:240-263 | Two lines are similar when what they share at both ends is at least half the longer |
| Segments.MarkPiece | crates/base/winter-model/src/word_diff.rs:346-382 | A piece is laid with only its inner part highlighted: no text is lost and only whitespace at its ends is left plain |
| Segments.PushSegment | crates/base/winter-model/src/word_diff.rs:384-397 | Text joins the last segment when marked alike, and never makes an empty one |
| Tokens.Tokenize | crates/base/winter-model/src/word_diff.rs:399-413 | Text is cut into tokens line by line, each newline one of its own |
| Tokens.TokenizeLine | crates/base/winter-model/src/word_diff.rs:415-437 | A line is cut into runs of one class, other characters one by one |
| Tokens.RunIsMaximal | crates/base/winter-model/src/word_diff.rs:415-448 | A run is all of one class and could not go on |
| PlaceView.PlaceView | crates/base/winter-model/src/paint.rs:695-734 | A view is placed at the clamped absolute screen row its wheel, aim and cursor ask for, and filled from there |
| PlaceView.LayOutRows | crates/base/winter-model/src/paint.rs:736-797 | Rows are laid out until the pane is full and no further, and the rows on its top, middle and bottom screen rows reported |
| PlaceView.FillRows | crates/base/winter-model/src/paint.rs:757-769 | The loop filling the pane keeps each row with where it ends |
| PlaceView.RowOn | crates/base/winter-model/src/paint.rs:786-790 | The row found on a screen row is the one on it |
| ViewLaws.CursorShown | crates/base/winter-model/src/paint.rs:695-734 | Whether following or placing, the cursor's first screen row is inside the pane |
| ViewLaws.PlaceIsIdempotent | crates/base/winter-model/src/paint.rs:695-734 | Placing a placed view again moves nothing |
| ViewLaws.GoingThereScrollsNothing | crates/base/winter-model/src/paint.rs:736-797 | Going to the top, middle or bottom screen row reported, as a cursor of one screen row, scrolls nothing |
| Viewport.GoingToRowStaysIff | crates/base/winter-model/src/list.rs:226-241 | Going to a row as a list does, as the whole row, scrolls nothing exactly when all of it is between the margins or held by an end, or when it is too tall to be and is already as near the top margin as it goes |
| ViewLaws.FollowRestsIff | crates/base/winter-model/src/paint.rs:587-624 | The same of any cursor, from wherever a view rests |
| ViewLaws.WrappedTopScrolls | crates/base/winter-model/src/paint.rs:738-743 | A wrapped row reported on the top screen row, with its first scrolled past: going to it scrolls |
| ViewLaws.PlacedPaintsCursor | crates/base/winter-model/src/paint.rs:695-734 | A view that follows its row or is told where to put it paints it, its first screen row inside the pane |
| Viewport.WheelHolds | crates/base/winter-model/src/list.rs:158-179 | Where the wheel puts the view it stays, wherever the cursor goes, until a key is pressed; the paint after that shows the cursor |
| Viewport.RequestPlaces | crates/base/winter-model/src/list.rs:171-174 | The paint after a request puts the row where it was asked, whatever the wheel and the hold, but for the ends of the rows, and takes the request back |
| ViewLaws.ShownKeepMargins | crates/base/winter-model/src/paint.rs:736-797 | Those screen rows are inside the margins, or held there by an end of the rows |
| ScreenRows.ScreenRowsAbove | crates/base/winter-model/src/paint.rs:566-585 | Up by screen rows is subtraction, clamped at the top |
| ScreenRows.WheelScroll | crates/base/winter-model/src/paint.rs:540-564 | The wheel is addition, clamped at both ends |
| ScreenRows.FollowScreenRow | crates/base/winter-model/src/paint.rs:587-624 | Following is the clamp that keeps a screen row between the margins |
| ScreenRows.LastTop | crates/base/winter-model/src/paint.rs:632-648 | The last top is where the last screenful starts |
| ScreenRows.TopAtScreenRow | crates/base/winter-model/src/paint.rs:672-693 | A scrollbar drop is its absolute screen row, held inside the last screenful |
| ScreenRows.DropIsInverse | crates/base/winter-model/src/paint.rs:650-693 | Dropping the scrollbar where it is leaves the view where it is |
| ScreenRows.OrderIsAbs | crates/base/winter-model/src/paint.rs:594-624 | Comparing views is comparing their absolute screen rows, and equal numbers are equal views |
| Viewport.Viewport.Place | crates/base/winter-model/src/list.rs:216-266 | A paint takes its placement and wheel, places the view, and remembers the heights it measured; the view is then at rest by those alone, and shows the cursor unless it is held |
| Viewport.Viewport.ScrollTo | crates/base/winter-model/src/list.rs:190-197 | A drop starts the view at its absolute screen row; dropped where the scrollbar is, a view at rest stays, though only the rows laid out were measured |
| Viewport.PlacedRests | crates/base/winter-model/src/list.rs:207-266 | A view just placed is not past the last screenful, counting every unmeasured row as one |
| Wrap.WrapLines | crates/base/winter-model/src/paint.rs:819-878 | The loop over folds yields the ranges of the specification |
| Wrap.WrappedLinesRead | crates/base/winter-model/src/paint.rs:819-878 | The ranges start at the first character, come in order, are non-empty and within their widths, start on no whitespace after the first, and leave only whitespace out |
| Wrap.FoldIsLastWord | crates/base/winter-model/src/paint.rs:855-865 | A line is folded at the last word start in reach, and at the margin only where there is none |
| Wrap.RowHeight | crates/base/winter-model/src/paint.rs:880-891 | A row is as tall as the number of its ranges |
| Wrap.WrapStart | crates/base/winter-model/src/paint.rs:813-817 | A continuation line starts at its indent, and where that leaves no column of text at the last |
| SplitTree.SplitsAreGrafts | crates/base/winter-model/src/layout.rs:1061-1162 | Each of the three splits replaces the one pane holding its target, and no split is made where none does |
| SplitTree.GraftSplices | crates/base/winter-model/src/layout.rs:1051-1162 | In tree order a replaced pane becomes what replaces it, and every other pane stays in its place |
| SplitTree.GraftInWindow | crates/base/winter-model/src/layout.rs:1061-1162 | In the whole window it does so on its side of the dock, and the dock's split stays at the root |
| SplitTree.CloseInTakes | crates/base/winter-model/src/layout.rs:1164-1182 | Closing takes the one pane out of the tree order; nothing happens to a lone pane or for a tab there is not |
| SplitTree.CloseInWindow | crates/base/winter-model/src/layout.rs:1164-1182 | In the whole window it also takes the dock away when it empties either side of it |
| SplitTree.FindPaneIsFirst | crates/base/winter-model/src/layout.rs:1042-1058 | The pane found is the first in tree order that holds the tab |
| SplitAreas.PanesTile | crates/base/winter-model/src/layout.rs:993-1039 | The pane rectangles tile the window: every point of it is in exactly one, and no other point in any |
| SplitAreas.GraftStaysInside | crates/base/winter-model/src/layout.rs:1051-1162 | Whatever replaces a pane is laid out in that pane's own area, and no other pane moves |
| SplitAreas.CloseFillsIn | crates/base/winter-model/src/layout.rs:1164-1182 | Closing a pane gives its and its sibling's area to the sibling, and moves no pane outside it |
| SplitAreas.BalancedShares | crates/base/winter-model/src/layout.rs:420-440 | After balancing every pane reaches at least the area's extent over the axis weight, along either axis; exactly that along a chain of one direction, where the weight is the number of panes |
| SplitAreas.BalanceKeeps | crates/base/winter-model/src/layout.rs:420-440 | Balancing moves no tab and leaves the dock its height |
| SplitAreas.BalanceNodeKeeps | crates/base/winter-model/src/layout.rs:1283-1296 | Balancing changes no pane and no weight, and every ratio is then in range |
| WindowLaws.SplitHalves | crates/base/winter-model/src/layout.rs:404-418 | A split lays its two panes out in the area of the one in the window, in the ratio asked, and moves no other, the dock shown or put away |
| WindowLaws.DockCloses | crates/base/winter-model/src/layout.rs:553-569 | Where the focus goes when the dock is put away, and exactly when that is not a shown tab |
| WindowLaws.TransferInWindow | crates/base/winter-model/src/layout.rs:724-761 | A tab moved into another strip is in sight exactly when that strip was, or the tab was all there was above the dock |
| WindowLaws.FoundInDock | crates/base/winter-model/src/layout.rs:525-529 | A tab is in the dock exactly when its pane is among those below |
| StripLaws.DetachedKeeps | crates/base/winter-model/src/layout.rs:474-493 | A tab taken out is the one tab gone |
| StripLaws.DetachedOther | crates/base/winter-model/src/layout.rs:474-493 | Every other tab stays in its pane, shown and in sight as it was; only a dock left alone comes into sight |
| StripLaws.MovedKeepsOrder | crates/base/winter-model/src/layout.rs:687-692 | A tab moved along its strip is where it was put, and the others keep their order |
| Strips.RemoveKeeps | crates/base/winter-model/src/layout.rs:213-223 | A pane loses just the tab dropped, and shows the next most recent when that was the one shown; over any run that is `TabHistory.CloseInFront` |
| Strips.ShowKeeps | crates/base/winter-model/src/layout.rs:206-211 | Showing a tab keeps the strip, and keeps its recency a permutation of it headed by the tab; the order of the others is `Recency.ShowKeepsOrder` |
| Strips.BesideKeeps | crates/base/winter-model/src/layout.rs:448-466 | A tab added beside the shown one leaves the pane whole, shown or waiting; where it stands is `Recency.BesideLands` |
| Layout.Layout.WithRoot | crates/base/winter-model/src/layout.rs:241-249 | One pane holding one tab, focused |
| Layout.Layout.FromTree | crates/base/winter-model/src/layout.rs:251-267 | A snapshot that names each tab once, with its dock at the root, restores to its panes as they were, with the asked tab shown and focused if it is there, else the first shown; nothing for one that names none |
| Layout.Layout.Split | crates/base/winter-model/src/layout.rs:404-418 | A new pane right after the focused one, on its side of the dock, holding just the new tab, shown and focused; one tab more |
| Layout.Layout.AddTab | crates/base/winter-model/src/layout.rs:446-455 | A tab after the shown one of the focused pane, shown and focused; one tab more |
| Layout.Layout.AddBackgroundTab | crates/base/winter-model/src/layout.rs:457-466 | A tab after the shown one, waiting; focus and what is shown stay |
| Layout.Layout.AddTabBeside | crates/base/winter-model/src/layout.rs:595-612 | Either of those, in any pane; it ends focused on a shown tab, a put-away dock brought back, unless there is no such pane to show it in |
| Layout.Layout.Close | crates/base/winter-model/src/layout.rs:468-493 | Removes exactly one tab, unless there is no such tab or it is the last; the tree is the one with it taken out; a focus closed goes to the tab next most recent in its pane, or to the first shown |
| Layout.Layout.Focus | crates/base/winter-model/src/layout.rs:495-510 | Shows and focuses a tab wherever it is, bringing back a dock put away and noting where the focus was |
| Layout.Layout.OpenDock | crates/base/winter-model/src/layout.rs:531-551 | A pane under all the others, focused, where there is no dock |
| Layout.Layout.HideDock | crates/base/winter-model/src/layout.rs:553-569 | Puts the dock away, a focus in it going to the tab it came from while that is above, else to the first shown; it ends on a shown tab if and only if it does not go back to a tab its pane no longer shows |
| Layout.Layout.ShowDock | crates/base/winter-model/src/layout.rs:571-585 | Shows the dock and focuses the tab it shows |
| Layout.Layout.CycleTab | crates/base/winter-model/src/layout.rs:631-646 | Shows the next or previous tab of the focused strip, without wrapping; no tab moves |
| Layout.Layout.MoveTab | crates/base/winter-model/src/layout.rs:648-663 | The focused tab trades places with its neighbour |
| Layout.Layout.MoveTabTo | crates/base/winter-model/src/layout.rs:672-698 | A tab goes where another is, in its strip or another's, the tree balanced when its pane goes; no tab is lost |
| Layout.Layout.MoveTabToPane | crates/base/winter-model/src/layout.rs:700-722 | A tab goes to the end of a strip, the tree balanced when its pane goes; no tab is lost |
| Layout.Layout.TransferTabToPane | crates/base/winter-model/src/layout.rs:724-761 | The move between strips: the tree it leaves, balanced when a pane goes, where the tab lands, that none is lost, and exactly when it is in sight |
| Layout.Layout.SplitTabToNewPane | crates/base/winter-model/src/layout.rs:763-804 | A tab becomes a pane of its own in the tree `Parted` gives, balanced; no tab is lost, and it is focused in sight unless it went into a dock put away that something is still above |
| Layout.Layout.MoveTabToNewPane | crates/base/winter-model/src/layout.rs:806-811 | A tab that is not alone becomes a pane beside its own, the tree balanced |
| Layout.Layout.FocusByIndex | crates/base/winter-model/src/layout.rs:817-827 | Focuses the shown tab at an index, where there is one |
| Layout.Layout.FocusNext | crates/base/winter-model/src/layout.rs:829-835 | Focuses the next shown tab, wrapping round |
| Layout.Layout.BalancePanes | crates/base/winter-model/src/layout.rs:420-440 | Balances in place; tabs, dock and focus stay |
| Layout.Layout.ZoomShowsFocused | crates/base/winter-model/src/layout.rs:343-355 | A zoomed window is the focused pane alone, over all of it; it is empty exactly when the focus is on a tab its pane does not show |
| Layout.Layout.PanesTileWindow | crates/base/winter-model/src/layout.rs:343-355 | The panes laid out tile the window, with the dock shown or put away, unless it is zoomed with its focus on a tab not shown, which leaves it blank |
| Snapshots.RestoreKeepsTabs | crates/base/winter-model/src/layout.rs:1314-1340 | Restoring any snapshot keeps every tab it names and no other; it comes to nothing only when it names none |
| Snapshots.RestoredWindow | crates/base/winter-model/src/layout.rs:251-267 | A snapshot that names each tab once and keeps its dock at the root restores to a whole window |
| Snapshots.SnapshotRoundTrip | crates/base/winter-model/src/layout.rs:1314-1356 | Saving and restoring gives the same panes, strips and places |
| OscGuard.ChunksDoNotMatter | crates/base/winter-emulator/src/osc_guard.rs:107-119 | However the stream is cut into chunks, the parser is handed the same bytes |
| OscGuard.OutputWithinCapIff | crates/base/winter-emulator/src/osc_guard.rs:61-119 | Whatever bytes the parser passes over inside an escape sequence, no OSC string that reaches it runs past the cap exactly when no string in the stream that was opened with such bytes between its ESC and its `]` does |
| OscGuard.NothingSkipped | crates/base/winter-emulator/src/osc_guard.rs:61-119 | A parser that passes over none is never given a string past the cap |
| OscGuard.OpenedPastTheGuard | crates/base/winter-emulator/src/osc_guard.rs:62-74 | A string opened with a control or DEL after its ESC goes through whole, however long, and the parser keeps all of it |
| OscGuard.UnchangedIffWithinCap | crates/base/winter-emulator/src/osc_guard.rs:61-119 | A stream goes through unchanged exactly when no string in it opened by ESC and `]` together runs past the cap |
| OscGuard.FilterIsIdempotent | crates/base/winter-emulator/src/osc_guard.rs:107-119 | A second guard on the output forwards every byte |
| OscGuard.OverlongString | crates/base/winter-emulator/src/osc_guard.rs:80-104 | An over-long string is cut at the cap and cancelled, only an ESC of its end is handed on, and what follows is filtered as if it had ended there |
| OscGuard.OscGuard.Judge | crates/base/winter-emulator/src/osc_guard.rs:61-105 | One byte moves the state and is judged as the table says |
| OscGuard.OscGuard.Filter | crates/base/winter-emulator/src/osc_guard.rs:107-119 | The loop over a chunk leaves the state and the bytes of the specification |
| Wire.MessageRoundTrip | crates/base/winter-proto/src/wire.rs:121-206 | Decoding the stripped encoding of any message gives it back, for any id and any MIME string |
| Wire.FileRoundTrip | crates/base/winter-proto/src/wire.rs:144-158 | An emit that names a file asks the reader for just that name, and shows what it reads under that type or fails as it failed |
| Wire.BodyIsSafe | crates/base/winter-proto/src/wire.rs:173-206 | A body holds no control character and at most four `;` fields, so nothing ends it but its terminator |
| GuardedFrames.FrameGuarded | crates/base/winter-emulator/src/osc_guard.rs:61-119 | A message of no more than the cap goes through the guard as it was encoded, and the stream after it as if it had not been there; a longer one is cut at the cap and cancelled |
| GuardedFrames.FrameUnchangedIff | crates/base/winter-proto/src/wire.rs:121-206 | The bytes of an encoded message go through the guard unchanged exactly when its body is no longer than the cap |
| Wire.ValueRoundTrip | crates/base/winter-proto/src/wire.rs:313-343 | A parameter value is read back as it was, whatever it holds |
| Wire.EscapedIsSafe | crates/base/winter-proto/src/wire.rs:197-206 | An escaped value holds nothing the framing gives meaning to |
| Wire.ParamsBack | crates/base/winter-proto/src/wire.rs:304-311 | Parameters are read back as the map written |
| Wire.FieldsBack | crates/base/winter-proto/src/wire.rs:173-195 | The fields of a body split apart as they were joined |
| Wire.Encode | crates/base/winter-proto/src/wire.rs:121-133 | A message is its body between the introducer and the terminator |
| Wire.EncodeEmitFile | crates/base/winter-proto/src/wire.rs:144-158 | So is an emit that names a file |
| Wire.Frame | crates/base/winter-proto/src/wire.rs:173-195 | The loop writing parameters builds the body field by field |
| Wire.PushParamValue | crates/base/winter-proto/src/wire.rs:197-206 | The loop over characters appends the escaped value |
| Wire.UnescapeParamValue | crates/base/winter-proto/src/wire.rs:313-343 | A `%` without two hex digits stays, and so does a value that does not spell UTF-8 |
| Wire.UnescapeBytes | crates/base/winter-proto/src/wire.rs:319-337 | The loop over bytes decodes each escape |
| Utf8.RoundTrip | crates/base/winter-proto/src/wire.rs:338-342 | UTF-8 read back is the string written |
| RetentionLaws.EvictedExactly | crates/base/winter-emulator/src/scrollback.rs:353-365 | The eviction loop goes on exactly as long as what is retained is over the budget |
| RetentionLaws.EnforcedExactly | crates/base/winter-emulator/src/scrollback.rs:348-365 | Enforcement elides a block exactly when all that is retained, less what the blocks elided before it held, is over the budget |
| RetentionLaws.ElidedForCommandsIff | crates/base/winter-emulator/src/scrollback.rs:340-365 | A block is elided although the output from it on fits exactly when the command lines tip the sum over the budget |
| RetentionLaws.EnforcedLosesIff | crates/base/winter-emulator/src/scrollback.rs:348-383 | A check loses a live segment exactly when all that is retained, less what the blocks elided before its own held, is over the budget and, in the block being written, the segments before it hold less than the cut has to free |
| Blocks.TrimmedLiveIff | crates/base/winter-emulator/src/block.rs:217-244 | A live segment outlives a trim exactly when the segments before it hold all that has to go |
| Characters.PrintedElidesIff | crates/base/winter-emulator/src/scrollback.rs:179-191 | Text printed a character at a time elides the oldest block not yet elided exactly when the last check it brings on finds the budget passed |
| Characters.KeysPrinted | crates/base/winter-emulator/src/scrollback.rs:167-191 | Printed text that brings on no such check is appended whole, and the count of bytes goes round with it |
| Characters.KeysTyped | crates/base/winter-emulator/src/scrollback.rs:167-178 | So is a command line typed a character at a time, within its cap |
| CommandFlood.FloodElidesIff | crates/base/winter-emulator/src/scrollback.rs:340-365 | After any number of commands of any length, text printed a character at a time elides the oldest output exactly when it brings commands and output together to the first check past the budget |
| CommandFlood.OutputThatFitsIsElided | crates/base/winter-emulator/src/scrollback.rs:340-365 | After 1900 commands of 4096 bytes that print a character each, printed text elides the oldest output exactly from 1,652,884 bytes on, when all output together is a fifth of the budget |
| RetentionLaws.TrimCurrentLaws | crates/base/winter-emulator/src/scrollback.rs:366-370 | With every earlier block elided, cutting the current one leaves a suffix of the text and output within the trim target |
| RetentionLaws.TrimCurrentStops | crates/base/winter-emulator/src/scrollback.rs:366-370 | The cut empties segments only while it has to, cuts one more by at most three bytes too many and leaves the rest; of plain text it leaves the target less three bytes |
| Blocks.TrimFrees | crates/base/winter-emulator/src/block.rs:211-244 | A trim frees at least what was asked, or everything |
| Blocks.TrimStops | crates/base/winter-emulator/src/block.rs:211-244 | A trim empties the first segments, each of them needed, overshoots in the next by at most three bytes, and leaves every one past it alone |
| Blocks.PlainTrimIsTight | crates/base/winter-emulator/src/block.rs:217-244 | Plain text is trimmed to within three bytes of what was asked |
| LiveSessions.SessionInStep | clients/client-rs/src/lib.rs:234-295 | After any events, a block opened while there is room, and any run of updates with anything else between them: while the scrollback holds the block it holds the client's last value, and it holds it exactly while no event meets a state in which its check loses the segment |
| LiveSessions.SessionShown | clients/client-rs/src/lib.rs:234-295 | The same from any sound state of the scrollback |
| LiveSessions.LeavesIff | crates/base/winter-emulator/src/scrollback.rs:292-384 | A live block leaves the index exactly on its close, or on an event that counts up to a check when what is then written is too much for it by the sums before the check; until then only its own patches change it |
| LiveSessions.StepFollows | crates/base/winter-emulator/src/scrollback.rs:167-384 | One event leaves a live block where it is, folded when it is its own patch, unless a check loses it |
| LiveSessions.FloodForgetsIff | crates/base/winter-emulator/src/scrollback.rs:366-383 | Text printed a character at a time after a live block in the only block drives it out exactly when a check it brings on finds the budget passed |
| LiveSessions.FirstBlockForgottenIff | crates/base/winter-emulator/src/scrollback.rs:265-383 | A block opened in a fresh terminal is forgotten exactly when whole intervals of the text printed after it, and twice its spec, pass the budget |
| Patch.IndexOutsideGrammarIff | crates/base/winter-emulator/src/patch.rs:148-164 | A token that finds an item is outside the grammar of section 4 of RFC 6901 exactly when it starts with `+` or a needless `0`, that is, when it is not the index printed |
| Patch.IndexInsideGrammar | crates/base/winter-emulator/src/patch.rs:148-164 | Every index of that grammar in range finds its item |
| Patch.SignedIndexRead | crates/base/winter-emulator/src/patch.rs:148-164 | `+1` and `01` each find the second item |
| Patch.MoveLosesIff | crates/base/winter-emulator/src/patch.rs:81-91 | A move whose source is there takes it out, its nodes with it; the value is then at the target exactly where an `add` finds a place, and otherwise lost |
| WordDiff.DiffPairing | crates/base/winter-model/src/word_diff.rs:265-344 | Within one pairing both sides keep their lines; what is marked is, to the character, each edit less the whitespace that borders text left alone; whitespace aside, the unmarked text of each side is the common text; segments are non-empty and alternate |
| WordDiff.LayChange | crates/base/winter-model/src/word_diff.rs:301-343 | One run of the diff, cut at newlines, lands on consecutive lines of each side it is on, with just its inner part marked |
| WordDiff.LayPiece | crates/base/winter-model/src/word_diff.rs:311-333 | One piece of one run lands at the end of the line it belongs to, with the part of it the trim flags leave marked |
| Pairings.SameIsSimilar | crates/base/winter-model/src/word_diff.rs:240-263 | A line is similar to itself |
| ViewLaws.CursorShownWholeIff | crates/base/winter-model/src/list.rs:216-220 | Following shows the whole cursor exactly where its rows and one margin fit the pane or it ends within the first paneful |
| ViewLaws.FittingCursorCut | crates/base/winter-model/src/list.rs:216-220 | A cursor row that fits the pane and is not shown whole |
| ViewLaws.LeastMove | crates/base/winter-model/src/paint.rs:587-624 | Following a cursor of any height moves the view the least that keeps all its rows between the margins where they fit there, and otherwise brings its first row to the top margin |
| Viewport.Viewport.ScrollBy | crates/base/winter-model/src/list.rs:181-188 | Over rows that never wrap the view moves by just so many screen rows, or to the end it meets, and is then at rest |
| Wrap.FirstLineBlankIff | crates/base/winter-model/src/paint.rs:843-867 | The first line is whitespace alone exactly when a blank reaches the margin, or when the first word starts last in reach and what is past it would fit the next line |
| Wrap.LeadingBlankBreaks | crates/base/winter-model/src/paint.rs:846-855 | A text whose first line is its leading whitespace |
| Wrap.LaterLinesHoldText | crates/base/winter-model/src/paint.rs:867-876 | No line after the first is whitespace alone |
| SplitAreas.SplitResizesAlongOnly | crates/base/winter-model/src/layout.rs:427-430 | Splitting a pane and balancing leaves every pane where it was across the split |
| SplitAreas.SplitResizesAlongIff | crates/base/winter-model/src/layout.rs:427-430 | It leaves every other pane where it was along the split too exactly when no split around it that runs the same way has a side that claims more slots with the pane counted twice |
| SplitAreas.SplitWidensSibling | crates/base/winter-model/src/layout.rs:427-430 | Splitting one of two stacked panes beside a third widens the other of the two |
| SplitAreas.CloseResizesAlongOnly | crates/base/winter-model/src/layout.rs:427-430 | Closing a pane and balancing leaves every other pane where it was across the split it closed |
| SplitAreas.BalancedPlaces | crates/base/winter-model/src/layout.rs:1087-1162 | However deep in the tree, a pane put beside another lies against the side asked once all is balanced |
| WindowLaws.WindowPlaces | crates/base/winter-model/src/layout.rs:1087-1162 | The same in the window as it is laid out, with the dock shown or put away |
| WindowLaws.TakeOutStaysInside | crates/base/winter-model/src/layout.rs:474-482 | A tab taken out of a pane of several leaves every rectangle of the window as it was, the dock shown or put away |
| WindowLaws.TakeOutFillsIn | crates/base/winter-model/src/layout.rs:483-485 | A pane's only tab taken out gives the pane's area to its sibling and moves no pane outside the two; with the dock put away, one in it changes nothing and the last above it gives all to the dock |
| Layout.PartedLiesToward | crates/base/winter-model/src/layout.rs:763-804 | In the window after `split_tab_to_new_pane`, the tab's pane lies against the side asked of the pane it was put beside |
| Layout.TransferMovesNoPane | crates/base/winter-model/src/layout.rs:724-743 | Moving a tab between panes that both stay moves no rectangle of the window, the dock shown or put away |
| Layout.FocusLeftHidden | crates/base/winter-model/src/layout.rs:553-569 | A run from a new window after which putting the dock away leaves the focus on a tab no pane shows |
| Layout.ZoomLeftBlank | crates/base/winter-model/src/layout.rs:343-355 | The same run in a zoomed window leaves nothing laid out |
| Layout.FocusInNoPane | crates/base/winter-model/src/layout.rs:595-612 | A run after which the focus is on a tab in no pane |
| Layout.Layout.SavedIsWhole | crates/base/winter-model/src/layout.rs:269-272 | What is saved names each tab once, with its dock at the root, and restores to the same panes in the same places |
| Reading.RunReads | crates/base/winter-emulator/src/scrollback.rs:113-322 | Over any run, what the scrollback reads as, each character with the link it is in and each rich block in its place, is the end of what was there and all that came: nothing is lost from the middle, turned round or put in another link |
| Reading.StepReads | crates/base/winter-emulator/src/scrollback.rs:167-322 | One event adds at the end just what it brings, in the link that is open, and short of a check loses nothing |
| Reading.LinkReads | crates/base/winter-emulator/src/block.rs:171-183 | Appended link text reads after what was there, in its link |
| Reading.TextReads | crates/base/winter-emulator/src/block.rs:161-168 | So does plain text, in none |
| Reading.TrimReads | crates/base/winter-emulator/src/block.rs:211-244 | A trim leaves the end of what was read, links and rich blocks with the text |
| Reading.EnforcedReads | crates/base/winter-emulator/src/scrollback.rs:348-384 | Enforcing the budget takes what is read from the front only |
| Blocks.WithLinkAppends | crates/base/winter-emulator/src/block.rs:171-183 | Appended link text adds its own bytes, and its url's just where it starts a link, and no plain text |
| Blocks.TrimSegmentKeeps | crates/base/winter-emulator/src/block.rs:217-244 | A segment of text is cut to the longest end of it that leaves enough cut away, and a link keeps its url as long as any of its text |
| Characters.KeysLinked | crates/base/winter-emulator/src/block.rs:171-183 | With a link open, text printed a character at a time is one link holding all of it in order, as long as it fits the budget |
| Characters.CommandRecorded | crates/base/winter-emulator/src/scrollback.rs:167-225 | While it fits the budget, a prompt, a command typed, what it prints and the code it ends with become one block with just those, in the session's directory, after the blocks there were |
| Records.FinishedKeepsRecord | crates/base/winter-emulator/src/block.rs:206-244 | A finished block keeps its command line, directory and exit code for good, elided or not |
| Records.CurrentRecords | crates/base/winter-emulator/src/scrollback.rs:221-236 | Where a command runs is the first directory reported while its block is written, and how it ended the last code |
| Records.SessionIsLastSet | crates/base/winter-emulator/src/scrollback.rs:200-252 | Link, phase, directory and host are what the last event to set them made of them: a prompt ends a link, a directory over the cap sets nothing, a host over it clears the host |
| Records.SessionStays | crates/base/winter-emulator/src/scrollback.rs:200-252 | What no event of a run sets stays, and marks once seen are seen for good |
| Records.TypedIsLongest | crates/base/winter-emulator/src/scrollback.rs:169-178 | Text printed into a command line is kept up to the longest front of it within the cap |
| Records.WrittenIsCounted | crates/base/winter-emulator/src/scrollback.rs:167-198 | What an event writes is what it counts, but for the url of a link gone on with, counted again with each piece, and for text at a prompt, counted and not kept |
| Records.PatchIsCounted | crates/base/winter-emulator/src/scrollback.rs:292-305 | A patch changes what is retained by what it does to its block's size, and counts that exactly where it grows |
| Records.OpenedIsKept | crates/base/winter-emulator/src/scrollback.rs:265-290 | An accepted open is retained twice over, as opened and as it is, and a refused one not at all |
| LiveSessions.KeptHoldsPatches | crates/base/winter-emulator/src/block.rs:99-125 | A live block not lost holds all the patches sent to it and no others, in the order they came, its size and one revision for each; what it was opened with stays |
| JsonText.SizeIsText | crates/base/winter-emulator/src/block.rs:129-142 | The size counted for a JSON value is the bytes of its text, written without spaces with its keys in order (RFC 8259) |
| PatchLaws.TestDecides | crates/base/winter-emulator/src/patch.rs:110-120 | A patch that begins with a `test` is the rest of it alone when the value found equals the operand, and otherwise leaves the document as it was |
| PatchLaws.LaterTestDecides | crates/base/winter-emulator/src/patch.rs:28-43 | A `test` anywhere else: what the operations before it leave is final unless they run through and it passes |
| PatchLaws.PatchGuarded | crates/base/winter-emulator/src/patch.rs:28-43 | The same of a whole patch within its cap of 256, of which the `test` is one |
| PatchLaws.StopsIffTestFails | crates/base/winter-emulator/src/patch.rs:28-43 | Only a failed `test` stops a patch, and a `test` changes nothing |
| PatchLaws.PassedOver | crates/base/winter-emulator/src/patch.rs:54-124 | An operation of no known kind, or with a field missing or of the wrong type, is passed over |
| PatchLaws.ReplaceOverwrites | crates/base/winter-emulator/src/patch.rs:71-79 | `replace` puts the value where something is, node for node, and touches nothing apart from it; where nothing is it does nothing |
| PatchLaws.AddElsewhere | crates/base/winter-emulator/src/patch.rs:166-190 | `add` leaves what is at every other place alone, but for items it shifts |
| PatchLaws.CopyLands | crates/base/winter-emulator/src/patch.rs:93-108 | `copy` puts the value found at its source at the target, the source unchanged where it is apart from it, unless it passes the node cap or the source is not there |
| DiffLaws.EachOpNeeded | clients/client-rs/src/diff.rs:16-51 | Every operation of a diff is called for: it removes a key that is gone, adds one that is new or an item past the end, or replaces a value that differs and is no object to go into |
| Pointer.EscapedByChars | clients/client-rs/src/diff.rs:53-56 | A token is escaped character by character as section 3 of RFC 6901 writes it |
| PairingLaws.SimilarIff | crates/base/winter-model/src/word_diff.rs:240-263 | Two lines are similar if and only if they share a front and an end, overlapping in neither, that together cover at least half of each |
| PairingLaws.EqualRunsLineByLine | crates/base/winter-model/src/word_diff.rs:171-179 | Runs of as many lines are paired line by line |
| PairingLaws.UnequalRunsWalked | crates/base/winter-model/src/word_diff.rs:180-238 | Otherwise every pairing ends in the first similar pair that the walk from its start meets, stepping on the side with more lines left, and the last in that or in all that is left |
| PairingLaws.LastTakesTheRest | crates/base/winter-model/src/word_diff.rs:203-238 | The last pairing takes in whatever lines are left of either run |
| HunkLaws.HunksIff | crates/base/winter-model/src/word_diff.rs:96-149 | The hunks decorated are exactly the whole runs of removed lines followed, past any no-newline markers, by a run of added ones |
| EditLaws.EditHighlighted | crates/base/winter-model/src/word_diff.rs:301-382 | What is highlighted of an edit is each of its lines less the whitespace at an end that borders text left alone, and all of an edit of whitespace |
| EditLaws.RemovalsFirst | crates/base/winter-model/src/word_diff.rs:486-516 | Between two common tokens all that is removed comes before anything added |
| Tokens.TextTokensAre | crates/base/winter-model/src/word_diff.rs:399-455 | The tokens spell the text, and are its newlines, its other characters one by one, and its runs of word characters and of blanks, each as long as it goes |
| ViewLaws.PlacedLands | crates/base/winter-model/src/paint.rs:954-971 | On the placed window, away from the ends of the rows: `Top` leaves the margin above the cursor's screen row, held to under half the pane, `Bottom` as many below, `Middle` numbers above and below that differ by at most one, and `CenterInUncovered` so within the rows a picker of two fifths leaves; at the ends, as near as they let it |
| ScreenRows.ScrollbarSays | crates/base/winter-model/src/paint.rs:650-670 | A view at rest has a scrollbar just when not all fits; it says where the view starts, what is in it and how many there are, and never more than there are |
| Wrap.WrappedLinesEndRight | crates/base/winter-model/src/paint.rs:843-867 | Every line ends where it should: at the end of the text if that fits, else before the last word that starts in reach, else at the margin |
| Recency.ShowKeepsOrder | crates/base/winter-model/src/layout.rs:206-211 | A tab shown is the most recent, and of any two others the more recent stays so |
| Recency.BesideLands | crates/base/winter-model/src/layout.rs:446-455 | A tab added stands right after the shown one, and the others keep their order |
| Recency.ReceiveLands | crates/base/winter-model/src/layout.rs:744-752 | A tab received is shown where it was dropped, and the others keep their order, in the strip and in how recently they were shown |
| TabHistory.FocusEach | crates/base/winter-model/src/layout.rs:495-510 | Tabs focused in any order leave every pane's tabs ordered by when each was last in front |
| TabHistory.CloseInFront | crates/base/winter-model/src/layout.rs:468-493 | After any run of tabs focused, closing the last brings back, shown and focused, the tab of its pane that was in front most recently before it |
| Snapshots.RestoredInOrder | crates/base/winter-model/src/layout.rs:182-196 | Restoring gives back each pane that has tabs, in order, with its tabs and the tab it showed, or its first where that is gone |
| Recency.RestoredOrder | crates/base/winter-model/src/layout.rs:182-196 | A pane restored has its shown tab most recent and the others in strip order |
| Snapshots.WholeTreeBack | crates/base/winter-model/src/layout.rs:1314-1356 | A snapshot with nothing to mend is saved again as it was |
| SplitAreas.BalanceIsBalanced | crates/base/winter-model/src/layout.rs:420-440 | Balancing a balanced window changes nothing |
| Layout.TransferBalances | crates/base/winter-model/src/layout.rs:744-761 | A pane's last tab moved away leaves the window balanced |
| WireLaws.EmitRead | crates/base/winter-proto/src/wire.rs:249-278 | An emit is read whatever the order of its parameters and whatever others are among them; one that says no trust is restricted, one that says no version is of the first |
| WireLaws.FileRead | crates/base/winter-proto/src/wire.rs:262-272 | A file an emit names is shown as bytes of no known type when it names none |
| WireLaws.OpenRead | crates/base/winter-proto/src/wire.rs:280-298 | An open and a patch are read the same way; an open that says no MIME type is refused as that |
| WireLaws.NewerRefused | crates/base/winter-proto/src/wire.rs:345-360 | A message of a newer version is refused as that version, whatever else it says; closing asks for none |
| WireLaws.Incomplete | crates/base/winter-proto/src/wire.rs:362-379 | A message that says no id, and one that carries nothing where it should, are refused as that |
| WireLaws.BadNumbers | crates/base/winter-proto/src/wire.rs:347-369 | A version or an id that is no number of its width is refused as that |
| WireLaws.Refused | crates/base/winter-proto/src/wire.rs:228-260 | Another OSC number, no verb, an unknown verb and a trust that is none of the three are each refused as that |
| WireLaws.MessageText | crates/base/winter-proto/src/wire.rs:125-195 | Each message as it is spelled, field by field |
| WireLaws.ParamsAreSpelled | crates/base/winter-proto/src/wire.rs:135-171 | The parameters of each, key by key |
| WireLaws.EscapedOnlyReserved | crates/base/winter-proto/src/wire.rs:197-206 | Only framing characters and ASCII controls are escaped, each by three characters for one |
| WireLaws.EscapedSpelled | crates/base/winter-proto/src/wire.rs:197-206 | In upper-case hex |
| WireLaws.UnescapedIs | crates/base/winter-proto/src/wire.rs:313-343 | A value is read as the text its unescaped bytes spell, and as it came where they spell none |
| WireLaws.UnescapedFirst | crates/base/winter-proto/src/wire.rs:319-337 | A `%` and two hex digits of either case are one byte, any other `%` itself |
| Utf8.DecodeIsExact | crates/base/winter-proto/src/wire.rs:338-342 | Bytes read as text are that text's own: no overlong spelling and no surrogate is let through |

## Left out

- Blocks.Fold: the size of a JSON value is a count of bytes, proved to be that of its text by `JsonText.SizeIsText`; how a number prints is not part of the model, numbers being kept as their text, so `0.0` and `-0.0` or `1` and `1.0` are different values.
- LiveClient.LiveBlock.Update: frames are messages in a list, not bytes on a stream that can fail, and a value's conversion to JSON is not part of the model; dropping the handle is `Close`.
- LiveClient.LiveBlock.UpdateFrom: the terminal of the handle's own contracts has room for everything; what a terminal that evicts makes of the same frames is `LiveSessions.SessionInStep`.
- LiveSessions.SessionInStep: the client's messages arrive in the order sent, none lost, and other programs do not use its id.
- Wire.MessageRoundTrip: base64 and JSON text are functions of a `Codec` assumed to undo each other, and the parser that strips the frame and splits the fields is a library.
- Wire.FileRoundTrip: reading the side-channel file is a function passed in, and its errors are only passed on.
- Tokens.Tokenize: which characters are letters or digits is a parameter, the Unicode tables being a library; whitespace is the set Rust's standard library names.
- Pairings.LinesSimilar: the similarity is compared as integers, twice the shared characters against the longer line, instead of as a float against one half.
- WordLcs.FillTable: the flat table of 32-bit numbers is a two-dimensional array of naturals; lists long enough to overflow it are past the token limit.
- WordDiff.DiffPairing: input lines hold no newline, as the hosts split them.
- PlaceView.RowsAbove: two fifths of the pane, rounded, is computed on integers instead of 32-bit floats.
- Viewport.Viewport.Place: a row's height is a total function of its number, and a jump target's flag is not part of the model.
- SplitTree.GraftSplices: the tree and its panes are values, replaced where the original changes boxed nodes in place; each node has one owner there, so no aliasing is lost, only the writes.
- SplitAreas.BalancedShares: sizes and ratios are reals, so the rounding of 32-bit floats is not captured.
- Layout.Layout.FromTree: a snapshot that names a tab twice or holds a dock below the root restores to whatever the code makes of it; nothing is promised of that window.
- Layout.Layout.TransferTabToPane: the unreachable failures of its lookups, for tabs its two callers have just found, are requirements.
- Scrollback.Scrollback.Print: byte counts are unbounded naturals, and two handles on one shared working directory are one value.
- OscGuard.OutputWithinCapIff: the parser beyond the guard is the part of a terminal parser that tracks OSC strings, with the bytes it passes over inside an escape sequence a parameter; the library itself, and its buffer, which leaves out controls, are not part of this model.
- LiveSessions.FloodForgetsIff: the text printed is printable ASCII; of wider characters, which count two to four bytes at a time, `LiveSessions.LeavesIff` tells it one by one.
- Serializing the scrollback and layouts to disk, plain-text export to files, SVG content and spec accessors: getters or I/O.
- Divider hit-testing and dragging, focus by direction, tab retention filters: floating-point distances or easy filters.
- List cursor, search and jump previews, frames, styles, icons and gutters: presentation.
- The terminal grid, its escape parser, GPU passes, themes, sockets, processes, paths, the workspace store and the command line: I/O or libraries.
- The Python client: the same diff without the fallback past 256 operations and with Python's equality.
