# adventui — a verified model of the input state machine

adventui is a terminal text-adventure engine written in Rust. A dispatcher thread
reads events and drives either the main menu or a running game. After each handled
key event except Esc it sends a snapshot of the model to the UI thread; non-key
events publish nothing. In the game, the text the player enters goes to a game
loader, which answers with an `Action`: a new scene, an inventory change, a
message, or the end of the game. The dispatcher applies that action to the
`GameState`.

This project models that core in Dafny:

- `game_state.dfy`:
  - `GameViews` holds the game record as a value (`GameView`) and one pure function per mutator.
  - `GameStates.GameState` is the mutable record. Each method is specified as the matching function of its old view.
- `main_menu_state.dfy`: the same split for the main menu (`MenuViews`, `MainMenus.MainMenuState`).
- `action.dfy`: the `Action` tagged union. Its decoding starts from a parsed field map whose `type` key names the variant.
- `game_loader.dfy`: the stub keyword responder.
- `dispatcher.dfy` (module `Dispatch`):
  - `KeyStep`, `BootstrapStep` and `Run` are pure step functions over model snapshots.
  - The `Dispatcher` class keeps the model in place, records the snapshots it publishes, and is proved to follow those functions event by event.
  - The loader is a function parameter, `(input, state) -> Action`.
- `game_renderer.dfy`: the pure layout helpers of the game screen:
  - the word wrap of `paragraph_list_to_lines`, kept as a loop;
  - the inventory width;
  - the truncation of inventory names;
  - the scroll window over the history.

Strings are sequences of characters, and the model assumes ASCII text. Under that
assumption the source's byte lengths and byte slices are character lengths and
character slices.

## Model

| member | source | states |
|---|---|---|
| GameStates.GameState.constructor | src/model/game_state.rs:13-23 | a new game has an empty inventory, entry and history, scroll 0, entry enabled, the title "New Game" and the dark-room description |
| GameStates.GameState.AppendEntry | src/model/game_state.rs:25-30 | appends the character unless the entry already holds 100, and keeps the entry within the cap |
| GameViews.AppendEntryBounded | src/model/game_state.rs:25-30 | below the cap the character is appended; at the cap the state is unchanged; the entry never exceeds 100 |
| GameViews.TypeAllKeepsPrefix | src/model/game_state.rs:25-30 | typing a string keeps the longest prefix of entry-plus-string that fits the cap, and leaves every other field alone |
| GameViews.TypeAllFromEmpty | src/model/game_state.rs:25-30 | typing into an empty entry yields the first min(100, n) typed characters |
| GameStates.GameState.RemoveLastEntry | src/model/game_state.rs:32-34 | pops the entry's last character and keeps the cap |
| GameViews.RemoveLastEntryDropsLast | src/model/game_state.rs:32-34 | drops exactly the last character; no-op on an empty entry; nothing else changes |
| GameViews.RemoveUndoesAppend | src/model/game_state.rs:25-34 | below the cap, backspace after typing a character restores the state |
| GameStates.GameState.PushInputToHistory | src/model/game_state.rs:36-39 | echoes the entry to history as "> entry", then clears it |
| GameViews.PushInputToHistoryEffect | src/model/game_state.rs:36-39 | history gains exactly "> " + entry at its end, the entry is empty, scroll is 0, the rest is unchanged |
| GameStates.GameState.AppendSceneHistory | src/model/game_state.rs:41-44 | pushes a line to history and resets scroll |
| GameViews.AppendSceneHistoryEffect | src/model/game_state.rs:41-44 | the line is appended at the end, scroll becomes 0, nothing else changes |
| GameStates.GameState.ScrollUp | src/model/game_state.rs:46-48 | scroll grows by the amount |
| GameStates.GameState.ScrollDown | src/model/game_state.rs:50-56 | scroll shrinks by the amount, saturating at 0 |
| GameViews.ScrollDownSaturates | src/model/game_state.rs:50-56 | an amount above the position gives 0, otherwise position minus amount; nothing else changes |
| GameViews.ScrollRoundTrip | src/model/game_state.rs:46-56 | scrolling down by n after scrolling up by n restores the state |
| GameStates.GameState.ScrollReset | src/model/game_state.rs:58-60 | scroll becomes 0 |
| GameStates.GameState.NewScene | src/model/game_state.rs:62-68 | replaces the scene and clears history and scroll |
| GameViews.NewSceneEffect | src/model/game_state.rs:62-68 | name and description are set, entry enabled, history empty, scroll 0; inventory and entry unchanged |
| GameStates.GameState.AddToInventory | src/model/game_state.rs:70-72 | appends the item at the end |
| GameStates.GameState.RemoveFromInventory | src/model/game_state.rs:74-76 | removes the item from the inventory |
| GameViews.Without | src/model/game_state.rs:74-76 | the result has every occurrence of the item removed and every other item kept with its multiplicity |
| GameViews.WithoutConcat | src/model/game_state.rs:74-76 | removal distributes over concatenation, so the kept items stay in order |
| GameViews.WithoutAbsent | src/model/game_state.rs:74-76 | removing an item that is absent changes nothing |
| GameViews.AddThenRemove | src/model/game_state.rs:70-76 | removing an item just added gives the old inventory minus that item, duplicates included |
| GameStates.GameState.DisableEntry | src/model/game_state.rs:78-80 | entry becomes disabled, nothing else changes |
| GameStates.GameState.EnableEntry | src/dispatcher/mod.rs:35 | entry becomes enabled, nothing else changes |
| MainMenus.MainMenuState.constructor | src/model/main_menu_state.rs:8-18 | options are New Game, Continue, Settings, Quit, and selection is 0 |
| MenuViews.NewMenuShape | src/model/main_menu_state.rs:8-18 | the new menu has the four options, selection 0, and is valid |
| MainMenus.MainMenuState.SelectNext | src/model/main_menu_state.rs:20-23 | selection becomes (s + 1) mod n by in-place updates; options untouched |
| MenuViews.SelectNextMoves | src/model/main_menu_state.rs:20-23 | the next selection is s + 1, or 0 from the last option; validity kept |
| MainMenus.MainMenuState.SelectPrev | src/model/main_menu_state.rs:25-29 | selection becomes (s + n - 1) mod n by in-place updates; options untouched |
| MenuViews.SelectPrevMoves | src/model/main_menu_state.rs:25-29 | the previous selection is s - 1, or n - 1 from the first option; validity kept |
| MenuViews.NextPrevRoundTrip | src/model/main_menu_state.rs:20-29 | next then previous, and previous then next, both restore the menu |
| MainMenus.MainMenuState.GetSelection | src/model/main_menu_state.rs:31-33 | returns the selected option, which is always one of the options |
| Actions.Decode | src/action/mod.rs:3-16 | a missing `type` is an error; a successful decode is always backed by the fields of the decoded action |
| Actions.TagIdentifiesVariant | src/action/mod.rs:4-11 | the `type` tag names exactly one of the five variants |
| Actions.DecodeEncode | src/action/mod.rs:3-16 | an action's own fields decode back to that action |
| Actions.DecodeExactly | src/action/mod.rs:4-16 | a map decodes to an action iff it holds that action's tag and fields (extra keys are ignored) |
| Actions.DecodeFailsIffNoAction | src/action/mod.rs:14-16 | decoding fails iff no action's fields are contained in the map; no default action is produced |
| Actions.UnknownTagRejected | src/action/mod.rs:4-16 | a `type` naming no variant is rejected with that tag |
| GameLoader.ProcessInput | src/game_loader/mod.rs:10-19 | "look" gives the dark-room text, a direction gives "You go dir.", anything else "I don't understand." |
| GameLoader.UnderstoodIffKeyword | src/game_loader/mod.rs:11-18 | the reply is not the default one iff the input is one of the five keywords |
| GameLoader.DirectionRepliesDistinct | src/game_loader/mod.rs:13-16 | different directions get different replies |
| GameLoader.MatchingIsExact | src/game_loader/mod.rs:11-17 | "North", " look" and "look " get the default reply: no case folding, no trimming |
| Dispatch.ApplyAction | src/dispatcher/mod.rs:92-115 | the loader's action leaves the entry as it is and scroll at 0; entry is enabled unless EndGame; history is emptied exactly by NewScene and otherwise gains the message; only the inventory actions touch the inventory |
| Dispatch.SubmitEntry | src/dispatcher/mod.rs:87-116 | after Enter the entry is empty, scroll is 0 and the cap holds; entry is enabled again unless the loader, shown the uncleared entry, ends the game |
| Dispatch.MenuKey | src/dispatcher/mod.rs:49-75 | only Esc terminates; the game screen is reached only by Enter, and then it is a fresh game with the bootstrap armed; a menu result keeps the options and a valid selection |
| Dispatch.GameKey | src/dispatcher/mod.rs:80-139 | the game screen stays, no bootstrap is armed and nothing is unimplemented; only Esc terminates; only Enter touches the inventory or the history |
| Dispatch.KeyStep | src/dispatcher/mod.rs:43-147 | a non-key event changes and publishes nothing; the bootstrap is armed only from the menu, with a fresh game; the unimplemented outcome arises only from Enter on the menu |
| Dispatch.BootstrapStep | src/dispatcher/mod.rs:28-41 | the step always continues, disarms the bootstrap and publishes its result once; it stays on the same screen, does nothing on the menu, and keeps the game's inventory and entry |
| Dispatch.ApplyActionPreservesValid | src/dispatcher/mod.rs:92-115 | applying any action keeps the entry within its cap |
| Dispatch.KeyStepPreservesValid | src/dispatcher/mod.rs:43-147 | a key event keeps the model valid, and so is every snapshot it publishes |
| Dispatch.BootstrapPreservesValid | src/dispatcher/mod.rs:28-41 | the new-game step keeps the model valid, and so is every snapshot it publishes |
| Dispatch.NonPressIgnored | src/dispatcher/mod.rs:43-80 | a Repeat or Release key changes nothing on either screen and republishes the model |
| Dispatch.MenuNavigation | src/dispatcher/mod.rs:49-55 | 'j'/Down moves to (s+1) mod n and 'k'/Up to (s+n-1) mod n; options kept; one snapshot published |
| Dispatch.MenuEnter | src/dispatcher/mod.rs:56-64 | Enter on "New Game" gives a fresh game and arms the bootstrap; any other option is the unimplemented outcome, publishing nothing |
| Dispatch.BootstrapOpensScene | src/dispatcher/mod.rs:28-41 | a NewScene reply to "start game" opens that scene with empty history, scroll 0 and entry enabled; any other reply leaves the game as it was |
| Dispatch.GameEditing | src/dispatcher/mod.rs:81-86 | Char appends and Backspace pops, whether or not entry is enabled |
| Dispatch.SubmitEntryEffect | src/dispatcher/mod.rs:87-116 | the loader sees the uncleared entry; afterwards the entry is empty; history ends with "> entry" and the message, or is empty after NewScene; entry is enabled unless EndGame; inventory follows the action |
| Dispatch.GameScrolling | src/dispatcher/mod.rs:117-128 | Up/PageUp scroll up by 1/10; Down/PageDown scroll down by 1/10, saturating at 0 |
| Dispatch.PublishingDiscipline | src/dispatcher/mod.rs:65-147 | Esc is exactly what terminates; a continuing step publishes exactly the new model; a terminating or defective step publishes nothing and changes nothing |
| Dispatch.Run | src/dispatcher/mod.rs:27-148 | a run never consumes more events than it is given |
| Dispatch.RunPublishesValid | src/dispatcher/mod.rs:27-148 | across any run, the final model and every published snapshot are valid |
| Dispatch.TypingInGame | src/dispatcher/mod.rs:81-83 | a run of character presses in the game equals typing the characters one by one, publishing one snapshot each |
| Dispatch.TypedEntryIsPrefix | src/dispatcher/mod.rs:81-83 | typing into an empty entry leaves the first min(100, n) typed characters |
| Dispatch.Dispatcher.constructor | src/dispatcher/mod.rs:22-26 | starts on the new main menu, with no new game pending, having published that menu once |
| Dispatch.Dispatcher.HandleEvent | src/dispatcher/mod.rs:43-147 | mutates the model in place exactly as KeyStep says and appends KeyStep's snapshots to the published ones |
| Dispatch.Dispatcher.Submit | src/dispatcher/mod.rs:87-116 | the in-place Enter sequence on the game state equals SubmitEntry of the old state |
| Dispatch.Dispatcher.Bootstrap | src/dispatcher/mod.rs:28-41 | performs BootstrapStep in place and publishes its snapshot |
| Dispatch.Dispatcher.Loop | src/dispatcher/mod.rs:27-148 | the event loop ends in the state, outcome and published snapshots that Run describes |
| GameRenderer.Words | src/ui/game_renderer.rs:152 | whitespace splitting yields non-empty words free of whitespace |
| GameRenderer.WordsOfJoin | src/ui/game_renderer.rs:152-160 | splitting words joined by single spaces gives the words back |
| GameRenderer.WrapFold | src/ui/game_renderer.rs:152-159 | each word finishes at most one line; no words give no lines and an empty current line; after a word the current line is not blank |
| GameRenderer.SourceWrap | src/ui/game_renderer.rs:152-160 | a paragraph wraps to between one line and one more line than it has words; an empty paragraph is one empty line; otherwise the last line is not blank |
| GameRenderer.WrapKeepsWords | src/ui/game_renderer.rs:152-160 | the wrapped lines concatenate to the words in order, each followed by one space |
| GameRenderer.WrapLinesFit | src/ui/game_renderer.rs:152-159 | every wrapped line is at most the width or holds a single word and its space |
| GameRenderer.SourceWrapBlankLine | src/ui/game_renderer.rs:152-160 | the loop as written opens a paragraph whose first word does not fit with a blank line |
| GameRenderer.FixedWrapHasNoBlankLine | src/ui/game_renderer.rs:152-160 | with the guard skipped on an empty line, no wrapped line of a non-empty paragraph is blank |
| GameRenderer.SourceWrapIsFixedWithBlank | src/ui/game_renderer.rs:152-160 | the source's wrap is the corrected wrap, plus one leading blank line exactly when the first word is too long |
| GameRenderer.ParagraphLines | src/ui/game_renderer.rs:147-165 | every paragraph contributes at least two lines: its wrap and its separator |
| GameRenderer.ParagraphListToLines | src/ui/game_renderer.rs:147-165 | the nested loops produce each paragraph's wrapped lines followed by one empty line, in order |
| GameRenderer.ParagraphLinesAppend | src/ui/game_renderer.rs:147-165 | the lines of a concatenation of paragraph lists are the concatenation of their lines |
| GameRenderer.ParagraphLinesBlocks | src/ui/game_renderer.rs:147-165 | no paragraphs give no lines; one paragraph gives its wrap and one "" separator |
| GameRenderer.ParagraphLinesFit | src/ui/game_renderer.rs:147-165 | every output line fits the width, holds a single word, or is a separator |
| GameRenderer.MaxLen | src/ui/game_renderer.rs:171 | the result bounds every item's length and is attained, or is 0 for no items |
| GameRenderer.InventoryWidth | src/ui/game_renderer.rs:167-175 | at most 20; exactly 12 for an empty inventory; at least 12 and max(12, longest + 2) capped at 20 when the u16 cast does not wrap |
| GameRenderer.InventoryLabel | src/ui/game_renderer.rs:109-112 | names up to 20 characters are kept; longer ones become their first 18 characters plus "..", exactly 20 |
| GameRenderer.InventoryLabels | src/ui/game_renderer.rs:105-113 | one label per item, in order, none longer than 20 characters |
| GameRenderer.HistoryWindow | src/ui/game_renderer.rs:77-85 | visible = min(height - 2, len) and skip = max(0, len - scroll - visible); skip + visible never exceeds len; scroll 0 reaches the last line |
| GameRenderer.VisibleLines | src/ui/game_renderer.rs:87-92 | the shown lines are the window's slice of the history; at scroll 0 they are its last lines |

## Left out

- Threads, the mpsc channels, the Terminate broadcast and `close`/`join` (src/dispatcher/mod.rs:21,66-71,130-135,156-163) concern concurrency and shutdown. Published snapshots are a ghost sequence on the dispatcher instead.
- Terminal drawing, layout, styling and cursor moves are terminal I/O. `event::read()` becomes an event parameter. Non-key events and key codes the dispatcher ignores are single placeholder constructors.
- YAML text parsing by serde_yaml is a foreign library. Decoding starts from a map of string fields, so non-string scalars, duplicate keys and YAML syntax errors are not modelled.
- `create_game` and `process_input(input, state) -> Action` are called by the dispatcher but are absent from src/game_loader/mod.rs. The loader is an uninterpreted function of the entry and the game state, so its side effects, failures and any state of its own are not modelled.
- Dispatch.Dispatcher.Loop: takes a finite list of events, where the source blocks forever on `event::read()`, and it uses one loader function for the whole run.
- Panics from `expect` on channel sends and event reads are not modelled.
- The `unimplemented!` on menu options other than "New Game" is the outcome `Unimplemented`. The step stops there, with the model unchanged.
- MenuViews.SelectNext / MenuViews.SelectPrev: require a non-empty option list. The source would panic on a remainder by zero, and its only constructor builds four options.
- Byte versus character lengths: the entry cap, `item.len()` and the byte slice `&item[..18]` are modelled under an ASCII assumption. The panic on slicing inside a multi-byte character is not modelled.
- `usize` overflow in `scroll_up` and in the length sums is not modelled; integers are unbounded.
- GameRenderer.HistoryWindow: requires height ≥ 2. The source's `height - 2` on `u16` would underflow below that. The `u16` cast of the history length is modelled as wrap-around modulo 65536. `width - 2` for the wrap width is outside the extracted helpers.
- The `isize` casts in the skip computation are treated as exact.
- src/model/mod.rs declares a stale `Model` with a lifetime parameter and no `Game` branch. `Model` is declared with both branches in the dispatcher module, as the dispatcher uses it.
- `enable_entry` is called by the dispatcher but missing from src/model/game_state.rs. It is modelled as setting the entry-enabled flag.
- The getters of `GameState` and `MainMenuState` are the fields of the views and are not separate members.

## Findings

| source | as written | input that shows it | evidently intended | confidence | as-written member | corrected member |
|---|---|---|---|---|---|---|
| src/ui/game_renderer.rs:152-160 | the overflow check runs on an empty line too, so a first word longer than width - 1 pushes an empty line before itself | paragraph "Supercalifragilistic" at width 10 wraps to ["", "Supercalifragilistic "] (then the "" separator) | a paragraph's wrapped lines contain no blank line; an over-long word starts the first line | medium, not executed | GameRenderer.SourceWrapBlankLine | GameRenderer.FixedWrapHasNoBlankLine |

`GameRenderer.SourceWrapIsFixedWithBlank` relates the two: the source's wrap is the corrected wrap with one extra leading blank line, exactly when the first word does not fit. `ParagraphListToLines` keeps the behaviour as written, because it models the source loop. The corrected wrap is `GameRenderer.FixedWrap`.
