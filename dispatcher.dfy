/*
 * The dispatcher's input state machine (src/dispatcher/mod.rs, lines 27-147),
 * taken out of its thread. One iteration of the source's `loop` is either the
 * new-game bootstrap (when the flag is armed) or the handling of one input
 * event. Reading the terminal becomes an event parameter, the game loader a
 * function parameter, and the channel to the renderer a ghost list of the
 * snapshots sent.
 */
module Dispatch {
  import opened Actions
  import opened GameViews
  import opened MenuViews
  import opened GameStates
  import opened MainMenus

  datatype KeyEventKind = Press | Repeat | Release

  /** The key codes the dispatcher distinguishes; every other code is `OtherKey`. */
  datatype KeyCode =
    | Char(c: char)
    | Enter
    | Backspace
    | Up
    | Down
    | PageUp
    | PageDown
    | Esc
    | OtherKey

  /** A terminal event: a key event, or anything else (resize, mouse, focus, paste). */
  datatype Event = Key(kind: KeyEventKind, code: KeyCode) | NonKey

  /**
   * The game loader as the dispatcher calls it: `process_input(input, state)`.
   * Its replies depend on the backend, so it is left uninterpreted.
   */
  type Loader = (string, GameView) -> Action

  /** The input the bootstrap step sends on behalf of the player. */
  const StartGameInput: string := "start game"

  /** A snapshot of the model, as sent to the renderer. */
  datatype ModelView = MenuScreen(menu: MenuView) | GameScreen(game: GameView)
  {
    predicate Valid() {
      match this
      case MenuScreen(m) => m.Valid()
      case GameScreen(g) => g.Valid()
    }
  }

  /** How an iteration ends: go on, leave the loop on Esc, or hit `unimplemented!`. */
  datatype Outcome = Continue | Terminate | Unimplemented

  /** The model after a step, whether the bootstrap is armed, the outcome and the snapshots sent. */
  datatype StepResult = StepResult(model: ModelView, newGame: bool, outcome: Outcome, published: seq<ModelView>)

  /** Continue with `m`, publishing it. */
  function Publish(m: ModelView, newGame: bool): StepResult {
    StepResult(m, newGame, Continue, [m])
  }

  // ---------------------------------------------------------------------------
  // The step functions

  /** Lines 92-115: the effect of the loader's action on the game state. */
  function ApplyAction(g: GameView, a: Action): (r: GameView)
    ensures r.userEntry == g.userEntry && r.scrollPosition == 0
    ensures r.entryEnabled <==> !a.EndGame?
    ensures r.sceneHistory == [] <==> a.NewScene?
    ensures !a.NewScene? ==>
      r.sceneHistory == g.sceneHistory + [a.message] && r.sceneName == g.sceneName && r.sceneDesc == g.sceneDesc
    ensures a.Information? || a.EndGame? || a.NewScene? ==> r.inventory == g.inventory
  {
    match a
    case NewScene(name, desc) => EnableEntry(GameViews.NewScene(g, name, desc))
    case AddToInventory(item, message) =>
      EnableEntry(AppendSceneHistory(GameViews.AddToInventory(g, item), message))
    case RemoveFromInventory(item, message) =>
      EnableEntry(AppendSceneHistory(GameViews.RemoveFromInventory(g, item), message))
    case Information(message) => EnableEntry(AppendSceneHistory(g, message))
    case EndGame(message) => GameViews.DisableEntry(AppendSceneHistory(g, message))
  }

  /** The state the loader is shown on Enter: entry disabled, entry not yet cleared. */
  function Submitted(g: GameView): GameView {
    GameViews.DisableEntry(g)
  }

  /** Lines 87-116: Enter in the game. */
  function SubmitEntry(g: GameView, loader: Loader): (r: GameView)
    ensures r.userEntry == "" && r.scrollPosition == 0 && r.Valid()
    ensures r.entryEnabled <==> !loader(g.userEntry, g.(entryEnabled := false)).EndGame?
  {
    var shown := Submitted(g);
    var action := loader(shown.userEntry, shown);
    ApplyAction(GameViews.PushInputToHistory(shown), action)
  }

  /** Lines 49-75: a key press on the main menu. */
  function MenuKey(m: MenuView, code: KeyCode): (r: StepResult)
    requires m.Valid()
    ensures r.outcome == Terminate <==> code == Esc
    ensures r.newGame <==> r.model.GameScreen?
    ensures r.newGame ==> r.model == GameScreen(NewGame()) && code == Enter
    ensures r.model.MenuScreen? ==> r.model.menu.options == m.options && r.model.menu.Valid()
  {
    match code
    case Char(c) =>
      if c == 'j' then Publish(MenuScreen(MenuViews.SelectNext(m)), false)
      else if c == 'k' then Publish(MenuScreen(MenuViews.SelectPrev(m)), false)
      else Publish(MenuScreen(m), false)
    case Down => Publish(MenuScreen(MenuViews.SelectNext(m)), false)
    case Up => Publish(MenuScreen(MenuViews.SelectPrev(m)), false)
    case Enter =>
      if Selection(m) == "New Game" then Publish(GameScreen(NewGame()), true)
      else StepResult(MenuScreen(m), false, Unimplemented, [])
    case Esc => StepResult(MenuScreen(m), false, Terminate, [])
    case _ => Publish(MenuScreen(m), false)
  }

  /** Lines 80-139: a key press in the game. */
  function GameKey(g: GameView, code: KeyCode, loader: Loader): (r: StepResult)
    ensures r.model.GameScreen? && !r.newGame && r.outcome != Unimplemented
    ensures r.outcome == Terminate <==> code == Esc
    ensures code != Enter ==>
      r.model.game.inventory == g.inventory && r.model.game.sceneHistory == g.sceneHistory
  {
    match code
    case Char(c) => Publish(GameScreen(GameViews.AppendEntry(g, c)), false)
    case Backspace => Publish(GameScreen(GameViews.RemoveLastEntry(g)), false)
    case Enter => Publish(GameScreen(SubmitEntry(g, loader)), false)
    case Up => Publish(GameScreen(GameViews.ScrollUp(g, 1)), false)
    case Down => Publish(GameScreen(GameViews.ScrollDown(g, 1)), false)
    case PageUp => Publish(GameScreen(GameViews.ScrollUp(g, 10)), false)
    case PageDown => Publish(GameScreen(GameViews.ScrollDown(g, 10)), false)
    case Esc => StepResult(GameScreen(g), false, Terminate, [])
    case OtherKey => Publish(GameScreen(g), false)
  }

  /**
   * Lines 43-147: one event read while the bootstrap is not armed. Only key
   * presses act; every other key event still publishes the unchanged model,
   * and a non-key event does nothing at all.
   */
  function KeyStep(model: ModelView, ev: Event, loader: Loader): (r: StepResult)
    requires model.Valid()
    ensures ev.NonKey? ==> r == StepResult(model, false, Continue, [])
    ensures r.newGame ==> model.MenuScreen? && r.model == GameScreen(NewGame())
    ensures r.outcome == Unimplemented ==> model.MenuScreen? && ev == Key(Press, Enter)
  {
    match ev
    case NonKey => StepResult(model, false, Continue, [])
    case Key(kind, code) =>
      if kind != Press then Publish(model, false)
      else
        match model
        case MenuScreen(m) => MenuKey(m, code)
        case GameScreen(g) => GameKey(g, code, loader)
  }

  /**
   * Lines 28-41: the bootstrap of a new game. The loader is asked for the
   * opening scene with the input "start game"; only a NewScene reply is used.
   */
  function BootstrapStep(model: ModelView, loader: Loader): (r: StepResult)
    ensures r.outcome == Continue && !r.newGame && r.published == [r.model]
    ensures r.model.GameScreen? <==> model.GameScreen?
    ensures model.MenuScreen? ==> r.model == model
    ensures model.GameScreen? ==>
      r.model.game.inventory == model.game.inventory && r.model.game.userEntry == model.game.userEntry
  {
    match model
    case MenuScreen(_) => Publish(model, false)
    case GameScreen(g) =>
      match loader(StartGameInput, g)
      case NewScene(name, desc) => Publish(GameScreen(EnableEntry(GameViews.NewScene(g, name, desc))), false)
      case _ => Publish(model, false)
  }

  /** What a run of the loop over a list of events produces. */
  datatype RunResult = RunResult(model: ModelView, pending: bool, outcome: Outcome, published: seq<ModelView>, consumed: nat)

  /**
   * Lines 27-148: the loop, run until it terminates, hits a defect, or the
   * events run out. The bootstrap does not read an event.
   */
  function Run(model: ModelView, pending: bool, events: seq<Event>, loader: Loader): (r: RunResult)
    requires model.Valid()
    ensures r.consumed <= |events|
    decreases |events|, if pending then 1 else 0
  {
    if pending then
      var b := BootstrapStep(model, loader);
      BootstrapPreservesValid(model, loader);
      var rest := Run(b.model, false, events, loader);
      rest.(published := b.published + rest.published)
    else if events == [] then RunResult(model, false, Continue, [], 0)
    else
      var s := KeyStep(model, events[0], loader);
      KeyStepPreservesValid(model, events[0], loader);
      if s.outcome != Continue then RunResult(s.model, s.newGame, s.outcome, s.published, 1)
      else
        var rest := Run(s.model, s.newGame, events[1..], loader);
        rest.(published := s.published + rest.published, consumed := rest.consumed + 1)
  }

  // ---------------------------------------------------------------------------
  // Properties of one step

  /** Applying any action keeps the entry within its cap. */
  lemma ApplyActionPreservesValid(g: GameView, a: Action)
    requires g.Valid()
    ensures ApplyAction(g, a).Valid()
  {
  }

  /** Every step keeps the model's invariant: the entry cap and a valid menu selection. */
  lemma KeyStepPreservesValid(model: ModelView, ev: Event, loader: Loader)
    requires model.Valid()
    ensures KeyStep(model, ev, loader).model.Valid()
    ensures forall p :: p in KeyStep(model, ev, loader).published ==> p.Valid()
  {
    if ev.Key? && ev.kind == Press {
      match model
      case MenuScreen(m) =>
        SelectNextMoves(m);
        SelectPrevMoves(m);
      case GameScreen(g) =>
        if ev.code.Char? {
          AppendEntryBounded(g, ev.code.c);
        }
    }
  }

  lemma BootstrapPreservesValid(model: ModelView, loader: Loader)
    requires model.Valid()
    ensures BootstrapStep(model, loader).model.Valid()
    ensures forall p :: p in BootstrapStep(model, loader).published ==> p.Valid()
  {
  }

  /** Key releases and repeats change nothing on either screen; the unchanged model is published. */
  lemma NonPressIgnored(model: ModelView, kind: KeyEventKind, code: KeyCode, loader: Loader)
    requires model.Valid() && kind != Press
    ensures KeyStep(model, Key(kind, code), loader) == StepResult(model, false, Continue, [model])
  {
  }

  /** On the menu, 'j'/Down and 'k'/Up move the selection with wrap-around and change nothing else. */
  lemma MenuNavigation(m: MenuView, code: KeyCode, loader: Loader)
    requires m.Valid()
    requires code in {Char('j'), Down, Char('k'), Up}
    ensures var r := KeyStep(MenuScreen(m), Key(Press, code), loader);
      && r.outcome == Continue && !r.newGame && r.published == [r.model]
      && r.model.MenuScreen? && r.model.menu.options == m.options
      && r.model.menu.selection == (if code in {Char('j'), Down} then (m.selection + 1) % |m.options|
                                    else (m.selection + |m.options| - 1) % |m.options|)
  {
  }

  /**
   * Enter on "New Game" replaces the menu by a fresh game and arms the
   * bootstrap; on any other option it is the source's `unimplemented!`.
   */
  lemma MenuEnter(m: MenuView, loader: Loader)
    requires m.Valid()
    ensures var r := KeyStep(MenuScreen(m), Key(Press, Enter), loader);
      if Selection(m) == "New Game" then
        r == StepResult(GameScreen(NewGame()), true, Continue, [GameScreen(NewGame())])
      else r.outcome == Unimplemented && r.model == MenuScreen(m) && r.published == []
  {
  }

  /** The bootstrap seeds the opening scene from a NewScene reply and discards any other reply. */
  lemma BootstrapOpensScene(g: GameView, loader: Loader)
    ensures var r := BootstrapStep(GameScreen(g), loader);
      && r.outcome == Continue && !r.newGame && r.published == [r.model]
      && match loader(StartGameInput, g)
         case NewScene(name, desc) =>
           r.model == GameScreen(g.(sceneName := name, sceneDesc := desc, entryEnabled := true,
                                    sceneHistory := [], scrollPosition := 0))
         case _ => r.model == GameScreen(g)
  {
  }

  /** Typing and backspace in the game edit the entry whether or not entry is enabled. */
  lemma GameEditing(g: GameView, c: char, loader: Loader)
    requires g.Valid()
    ensures KeyStep(GameScreen(g), Key(Press, Char(c)), loader).model
         == GameScreen(GameViews.AppendEntry(g, c))
    ensures KeyStep(GameScreen(g), Key(Press, Backspace), loader).model
         == GameScreen(GameViews.RemoveLastEntry(g))
  {
  }

  /**
   * Enter in the game: the loader sees the entry as typed (entry disabled);
   * afterwards the entry is empty, and the history ends with the echoed entry
   * and the action's message, or is empty after a new scene; entry is enabled
   * again unless the game ended; the inventory follows the action.
   */
  lemma {:induction false} SubmitEntryEffect(g: GameView, loader: Loader)
    requires g.Valid()
    ensures var r := KeyStep(GameScreen(g), Key(Press, Enter), loader);
      var a := loader(g.userEntry, g.(entryEnabled := false));
      && r.outcome == Continue && !r.newGame && r.published == [r.model] && r.model.GameScreen?
      && var h := r.model.game;
      && h.userEntry == "" && h.scrollPosition == 0
      && h.entryEnabled == !a.EndGame?
      && (a.NewScene? ==>
            h.sceneHistory == [] && h.sceneName == a.name && h.sceneDesc == a.desc && h.inventory == g.inventory)
      && (!a.NewScene? ==>
            h.sceneHistory == g.sceneHistory + ["> " + g.userEntry, a.message]
            && h.sceneName == g.sceneName && h.sceneDesc == g.sceneDesc)
      && (a.AddToInventory? ==> h.inventory == g.inventory + [a.item])
      && (a.RemoveFromInventory? ==> h.inventory == Without(g.inventory, a.item))
      && (a.Information? || a.EndGame? ==> h.inventory == g.inventory)
  {
    var shown := Submitted(g);
    assert shown == g.(entryEnabled := false);
    var pushed := GameViews.PushInputToHistory(shown);
    assert pushed.sceneHistory == g.sceneHistory + ["> " + g.userEntry];
    var a := loader(shown.userEntry, shown);
    if !a.NewScene? {
      assert pushed.sceneHistory + [a.message] == g.sceneHistory + ["> " + g.userEntry, a.message];
    }
  }

  /** Up/Down scroll by one line, PageUp/PageDown by ten, saturating at the bottom. */
  lemma GameScrolling(g: GameView, loader: Loader)
    requires g.Valid()
    ensures KeyStep(GameScreen(g), Key(Press, Up), loader).model.game.scrollPosition == g.scrollPosition + 1
    ensures KeyStep(GameScreen(g), Key(Press, PageUp), loader).model.game.scrollPosition == g.scrollPosition + 10
    ensures KeyStep(GameScreen(g), Key(Press, Down), loader).model.game.scrollPosition
         == if g.scrollPosition >= 1 then g.scrollPosition - 1 else 0
    ensures KeyStep(GameScreen(g), Key(Press, PageDown), loader).model.game.scrollPosition
         == if g.scrollPosition >= 10 then g.scrollPosition - 10 else 0
  {
  }

  /**
   * Esc ends the loop without a snapshot; a defect publishes nothing either;
   * every other key event continues and publishes exactly the new model.
   */
  lemma PublishingDiscipline(model: ModelView, kind: KeyEventKind, code: KeyCode, loader: Loader)
    requires model.Valid()
    ensures var r := KeyStep(model, Key(kind, code), loader);
      && (kind == Press && code == Esc <==> r.outcome == Terminate)
      && (r.outcome == Continue <==> r.published == [r.model])
      && (r.outcome != Continue ==> r.published == [] && r.model == model)
  {
  }

  // ---------------------------------------------------------------------------
  // Properties of whole runs

  /** Every snapshot a run publishes satisfies the model's invariant. */
  lemma {:induction false} RunPublishesValid(model: ModelView, pending: bool, events: seq<Event>, loader: Loader)
    requires model.Valid()
    ensures Run(model, pending, events, loader).model.Valid()
    ensures forall p :: p in Run(model, pending, events, loader).published ==> p.Valid()
    decreases |events|, if pending then 1 else 0
  {
    if pending {
      BootstrapPreservesValid(model, loader);
      RunPublishesValid(BootstrapStep(model, loader).model, false, events, loader);
    } else if events != [] {
      var s := KeyStep(model, events[0], loader);
      KeyStepPreservesValid(model, events[0], loader);
      if s.outcome == Continue {
        RunPublishesValid(s.model, s.newGame, events[1..], loader);
      }
    }
  }

  lemma AppendAssoc(a: seq<ModelView>, b: seq<ModelView>, c: seq<ModelView>)
    ensures a + (b + c) == (a + b) + c
  {
  }

  /** One bootstrap iteration followed by the rest of the run. */
  lemma RunBootstrapFirst(model: ModelView, events: seq<Event>, loader: Loader)
    requires model.Valid()
    ensures var b := BootstrapStep(model, loader);
      && b.model.Valid() && !b.newGame && b.outcome == Continue
      && var rest := Run(b.model, false, events, loader);
      Run(model, true, events, loader) == rest.(published := b.published + rest.published)
  {
    BootstrapPreservesValid(model, loader);
  }

  /** One event iteration followed by the rest of the run, unless the step stops the loop. */
  lemma RunKeyFirst(model: ModelView, events: seq<Event>, loader: Loader)
    requires model.Valid() && events != []
    ensures var s := KeyStep(model, events[0], loader);
      && s.model.Valid()
      && (s.outcome != Continue ==>
            Run(model, false, events, loader) == RunResult(s.model, s.newGame, s.outcome, s.published, 1))
      && (s.outcome == Continue ==>
            var rest := Run(s.model, s.newGame, events[1..], loader);
            Run(model, false, events, loader)
              == rest.(published := s.published + rest.published, consumed := rest.consumed + 1))
  {
    KeyStepPreservesValid(model, events[0], loader);
  }

  /** The presses of the characters of `cs`, in order. */
  function CharPresses(cs: string): (evs: seq<Event>)
    ensures |evs| == |cs|
    ensures forall i :: 0 <= i < |cs| ==> evs[i] == Key(Press, Char(cs[i]))
  {
    if cs == [] then [] else [Key(Press, Char(cs[0]))] + CharPresses(cs[1..])
  }

  /**
   * Typing a string in the game consumes every key and leaves the entry equal
   * to the accepted characters in order, never longer than the cap; one
   * snapshot is published per key.
   */
  lemma {:induction false} TypingInGame(g: GameView, cs: string, loader: Loader)
    requires g.Valid()
    ensures var r := Run(GameScreen(g), false, CharPresses(cs), loader);
      && r.model == GameScreen(TypeAll(g, cs)) && r.outcome == Continue && !r.pending
      && r.consumed == |cs| && |r.published| == |cs|
    decreases |cs|
  {
    if cs != [] {
      var evs := CharPresses(cs);
      assert evs[1..] == CharPresses(cs[1..]);
      AppendEntryBounded(g, cs[0]);
      TypingInGame(GameViews.AppendEntry(g, cs[0]), cs[1..], loader);
    }
  }

  /** Hence the entry after typing is the longest prefix of the typed text that fits the cap. */
  lemma TypedEntryIsPrefix(cs: string, g: GameView, loader: Loader)
    requires g.Valid() && g.userEntry == ""
    ensures var r := Run(GameScreen(g), false, CharPresses(cs), loader);
      r.model.GameScreen? && r.model.game.userEntry == cs[..Min(EntryCap, |cs|)]
  {
    TypingInGame(g, cs, loader);
    TypeAllFromEmpty(g, cs);
  }

  // ---------------------------------------------------------------------------
  // The dispatcher object

  /** The screen state the dispatcher owns: one of the two state objects. */
  datatype Model = MainMenu(menu: MainMenuState) | Game(game: GameState)
  {
    /** The one object this model consists of. */
    function Obj(): object {
      match this
      case MainMenu(m) => m
      case Game(g) => g
    }
  }

  class Dispatcher {
    var model: Model
    var isNewGame: bool
    /** The snapshots sent to the renderer, oldest first. */
    ghost var published: seq<ModelView>

    function View(): ModelView
      reads this, model.Obj()
    {
      match model
      case MainMenu(m) => MenuScreen(m.View())
      case Game(g) => GameScreen(g.View())
    }

    /** The model is valid, and so is every snapshot sent so far. */
    ghost predicate Valid()
      reads this, model.Obj()
    {
      View().Valid() && forall p :: p in published ==> p.Valid()
    }

    /** Lines 22-26: start on the main menu and publish it. */
    constructor ()
      ensures Valid() && View() == MenuScreen(NewMenu()) && !isNewGame
      ensures published == [View()]
    {
      var menu := new MainMenuState();
      model := MainMenu(menu);
      isNewGame := false;
      published := [MenuScreen(menu.View())];
    }

    /** Lines 43-147: handle one event while the bootstrap is not armed. */
    method HandleEvent(ev: Event, loader: Loader) returns (outcome: Outcome)
      requires Valid() && !isNewGame
      modifies this, model.Obj()
      ensures Valid()
      ensures var r := KeyStep(old(View()), ev, loader);
        && View() == r.model && isNewGame == r.newGame && outcome == r.outcome
        && published == old(published) + r.published
      ensures model.Obj() == old(model.Obj()) || fresh(model.Obj())
    {
      ghost var before := View();
      KeyStepPreservesValid(before, ev, loader);
      if ev.NonKey? {
        return Continue;
      }
      var kind, code := ev.kind, ev.code;
      if kind == Press {
        match model {
          case MainMenu(state) =>
            if code == Char('j') || code == Down {
              state.SelectNext();
            } else if code == Char('k') || code == Up {
              state.SelectPrev();
            } else if code == Enter {
              var chosen := state.GetSelection();
              if chosen == "New Game" {
                var g := new GameState();
                model := Game(g);
                isNewGame := true;
              } else {
                return Unimplemented;
              }
            } else if code == Esc {
              return Terminate;
            }
          case Game(state) =>
            match code {
              case Char(c) => state.AppendEntry(c);
              case Backspace => state.RemoveLastEntry();
              case Enter => Submit(state, loader);
              case Up => state.ScrollUp(1);
              case Down => state.ScrollDown(1);
              case PageUp => state.ScrollUp(10);
              case PageDown => state.ScrollDown(10);
              case Esc => return Terminate;
              case OtherKey =>
            }
        }
      }
      published := published + [View()];
      outcome := Continue;
    }

    /** Lines 88-115: Enter in the game, on the state object itself. */
    static method Submit(state: GameState, loader: Loader)
      modifies state
      ensures state.View() == SubmitEntry(old(state.View()), loader)
    {
      state.DisableEntry();
      var action := loader(state.userEntry, state.View());
      state.PushInputToHistory();
      match action
      case NewScene(name, desc) =>
        state.NewScene(name, desc);
        state.EnableEntry();
      case AddToInventory(item, message) =>
        state.AddToInventory(item);
        state.AppendSceneHistory(message);
        state.EnableEntry();
      case RemoveFromInventory(item, message) =>
        state.RemoveFromInventory(item);
        state.AppendSceneHistory(message);
        state.EnableEntry();
      case Information(message) =>
        state.AppendSceneHistory(message);
        state.EnableEntry();
      case EndGame(message) =>
        state.AppendSceneHistory(message);
        state.DisableEntry();
    }

    /** Lines 28-41: the bootstrap iteration, run when the flag is armed. */
    method Bootstrap(loader: Loader)
      requires Valid() && isNewGame
      modifies this, model.Obj()
      ensures Valid()
      ensures var r := BootstrapStep(old(View()), loader);
        && View() == r.model && isNewGame == r.newGame
        && published == old(published) + r.published
      ensures model == old(model)
    {
      BootstrapPreservesValid(View(), loader);
      isNewGame := false;
      match model {
        case Game(state) =>
          var action := loader(StartGameInput, state.View());
          if action.NewScene? {
            state.NewScene(action.name, action.desc);
            state.EnableEntry();
          }
        case MainMenu(_) =>
      }
      published := published + [View()];
    }

    /**
     * Lines 27-148: the loop over a list of events. It stops on Esc, on a
     * defect, or when the events run out with no bootstrap left to do.
     */
    method Loop(events: seq<Event>, loader: Loader) returns (outcome: Outcome, consumed: nat)
      requires Valid()
      modifies this, model.Obj()
      ensures Valid()
      ensures var r := Run(old(View()), old(isNewGame), events, loader);
        && View() == r.model && isNewGame == r.pending && outcome == r.outcome
        && consumed == r.consumed && published == old(published) + r.published
    {
      ghost var total := Run(View(), isNewGame, events, loader);
      consumed := 0;
      outcome := Continue;
      assert events[consumed..] == events;
      while true
        invariant Valid() && consumed <= |events| && outcome == Continue
        invariant model.Obj() == old(model.Obj()) || fresh(model.Obj())
        invariant var rest := Run(View(), isNewGame, events[consumed..], loader);
          && total.model == rest.model && total.pending == rest.pending && total.outcome == rest.outcome
          && total.consumed == consumed + rest.consumed
          && old(published) + total.published == published + rest.published
        decreases |events| - consumed, if isNewGame then 1 else 0
      {
        ghost var before, sent := View(), published;
        if isNewGame {
          RunBootstrapFirst(before, events[consumed..], loader);
          Bootstrap(loader);
          ghost var b := BootstrapStep(before, loader);
          AppendAssoc(sent, b.published, Run(b.model, false, events[consumed..], loader).published);
          continue;
        }
        if consumed == |events| {
          return;
        }
        RunKeyFirst(before, events[consumed..], loader);
        assert events[consumed..][1..] == events[consumed + 1..];
        ghost var step := KeyStep(before, events[consumed], loader);
        outcome := HandleEvent(events[consumed], loader);
        consumed := consumed + 1;
        if outcome != Continue {
          return;
        }
        ghost var rest := Run(step.model, step.newGame, events[consumed..], loader);
        AppendAssoc(sent, step.published, rest.published);
      }
    }
  }
}
