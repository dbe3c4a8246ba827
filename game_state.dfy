/*
 * The game screen's state (src/model/game_state.rs).
 *
 * GameViews holds the state as a value together with one pure function per
 * mutator; these are the specification the GameState class is proved against
 * and what the dispatcher's step function is written in. Strings are
 * sequences of characters; the source measures the entry in UTF-8 bytes, which
 * agrees with the character count for ASCII input.
 */
module GameViews {

  /** Maximum length of the player's entry buffer. */
  const EntryCap: nat := 100

  const NewGameTitle: string := "New Game"

  const DarkRoomDescription: string :=
    "You are in a dark room. There is a door to the north. There is a door to the south. There is a door to the east. There is a door to the west. There is a door to the up. There is a door to the down. There is a door to the northeast. There is a door to the northwest. There is a door to the southeast. There is a door to the southwest. There is a door to the in. There is a door to the out. There is a door to the left."

  /** A snapshot of every field of a GameState. */
  datatype GameView = GameView(
    inventory: seq<string>,
    sceneName: string,
    sceneDesc: string,
    userEntry: string,
    entryEnabled: bool,
    sceneHistory: seq<string>,
    scrollPosition: nat)
  {
    /** The state's invariant: the entry never exceeds its cap. */
    predicate Valid() {
      |userEntry| <= EntryCap
    }
  }

  function NewGame(): GameView {
    GameView([], NewGameTitle, DarkRoomDescription, "", true, [], 0)
  }

  function AppendEntry(g: GameView, c: char): GameView {
    if |g.userEntry| >= EntryCap then g else g.(userEntry := g.userEntry + [c])
  }

  function RemoveLastEntry(g: GameView): GameView {
    if g.userEntry == [] then g else g.(userEntry := g.userEntry[..|g.userEntry| - 1])
  }

  function AppendSceneHistory(g: GameView, s: string): GameView {
    g.(sceneHistory := g.sceneHistory + [s], scrollPosition := 0)
  }

  /** The line that records the player's entry in the scene history. */
  function EchoLine(entry: string): string {
    "> " + entry
  }

  function PushInputToHistory(g: GameView): GameView {
    AppendSceneHistory(g, EchoLine(g.userEntry)).(userEntry := "")
  }

  function ScrollUp(g: GameView, amount: nat): GameView {
    g.(scrollPosition := g.scrollPosition + amount)
  }

  function ScrollDown(g: GameView, amount: nat): GameView {
    if amount > g.scrollPosition then g.(scrollPosition := 0)
    else g.(scrollPosition := g.scrollPosition - amount)
  }

  function ScrollReset(g: GameView): GameView {
    g.(scrollPosition := 0)
  }

  function NewScene(g: GameView, name: string, desc: string): GameView {
    g.(sceneName := name, sceneDesc := desc, entryEnabled := true,
       sceneHistory := [], scrollPosition := 0)
  }

  function AddToInventory(g: GameView, item: string): GameView {
    g.(inventory := g.inventory + [item])
  }

  function RemoveFromInventory(g: GameView, item: string): GameView {
    g.(inventory := Without(g.inventory, item))
  }

  function DisableEntry(g: GameView): GameView {
    g.(entryEnabled := false)
  }

  function EnableEntry(g: GameView): GameView {
    g.(entryEnabled := true)
  }

  /** `s` with every occurrence of `x` deleted, the rest kept in order (`Vec::retain`). */
  function Without(s: seq<string>, x: string): (r: seq<string>)
    ensures multiset(r) == multiset(s)[x := 0]
    ensures |r| <= |s|
  {
    if s == [] then []
    else
      var rest := Without(s[1..], x);
      assert s == [s[0]] + s[1..];
      if s[0] == x then rest else [s[0]] + rest
  }

  /** Typing the characters of `cs` one key at a time. */
  function TypeAll(g: GameView, cs: string): GameView
    decreases |cs|
  {
    if cs == [] then g else TypeAll(AppendEntry(g, cs[0]), cs[1..])
  }

  function Min(a: nat, b: nat): nat {
    if a <= b then a else b
  }

  // ---------------------------------------------------------------------------
  // Properties

  /** Appending keeps the entry within its cap and changes nothing but the entry. */
  lemma AppendEntryBounded(g: GameView, c: char)
    requires g.Valid()
    ensures AppendEntry(g, c).Valid()
    ensures AppendEntry(g, c) == g.(userEntry := AppendEntry(g, c).userEntry)
    ensures |g.userEntry| < EntryCap <==> AppendEntry(g, c).userEntry == g.userEntry + [c]
    ensures |g.userEntry| >= EntryCap ==> AppendEntry(g, c) == g
  {
  }

  /**
   * After typing `cs` the entry is the old entry followed by the accepted
   * characters in order: the longest prefix of `old + cs` that fits the cap.
   */
  lemma {:induction false} TypeAllKeepsPrefix(g: GameView, cs: string)
    requires g.Valid()
    ensures var n := Min(EntryCap, |g.userEntry| + |cs|);
      TypeAll(g, cs) == g.(userEntry := (g.userEntry + cs)[..n])
    ensures TypeAll(g, cs).Valid()
    decreases |cs|
  {
    var n := Min(EntryCap, |g.userEntry| + |cs|);
    if cs == [] {
      assert (g.userEntry + cs)[..n] == g.userEntry;
    } else {
      var g' := AppendEntry(g, cs[0]);
      TypeAllKeepsPrefix(g', cs[1..]);
      if |g.userEntry| >= EntryCap {
        assert g' == g;
        assert n == |g.userEntry|;
        assert (g.userEntry + cs)[..n] == g.userEntry;
        assert (g.userEntry + cs[1..])[..n] == g.userEntry;
      } else {
        assert g'.userEntry == g.userEntry + [cs[0]];
        assert g'.userEntry + cs[1..] == g.userEntry + cs;
      }
    }
  }

  /** From an empty entry, typing `cs` leaves its first (at most) 100 characters. */
  lemma TypeAllFromEmpty(g: GameView, cs: string)
    requires g.userEntry == ""
    ensures TypeAll(g, cs).userEntry == cs[..Min(EntryCap, |cs|)]
  {
    TypeAllKeepsPrefix(g, cs);
    assert g.userEntry + cs == cs;
  }

  /** Backspace drops exactly the last character, and is a no-op on an empty entry. */
  lemma RemoveLastEntryDropsLast(g: GameView)
    ensures g.userEntry == [] ==> RemoveLastEntry(g) == g
    ensures g.userEntry != [] ==>
      RemoveLastEntry(g).userEntry + [g.userEntry[|g.userEntry| - 1]] == g.userEntry
    ensures RemoveLastEntry(g) == g.(userEntry := RemoveLastEntry(g).userEntry)
  {
  }

  /** Backspace undoes an accepted keystroke. */
  lemma RemoveUndoesAppend(g: GameView, c: char)
    requires |g.userEntry| < EntryCap
    ensures RemoveLastEntry(AppendEntry(g, c)) == g
  {
    assert (g.userEntry + [c])[..|g.userEntry|] == g.userEntry;
  }

  /** The echoed entry ends the history, the entry is emptied and the view scrolls to the bottom. */
  lemma PushInputToHistoryEffect(g: GameView)
    ensures var r := PushInputToHistory(g);
      && r.sceneHistory == g.sceneHistory + ["> " + g.userEntry]
      && r.userEntry == "" && r.scrollPosition == 0
      && r == g.(sceneHistory := r.sceneHistory, userEntry := "", scrollPosition := 0)
      && r.Valid()
  {
  }

  /** A history line goes at the end; only the history and the scroll position change. */
  lemma AppendSceneHistoryEffect(g: GameView, s: string)
    ensures var r := AppendSceneHistory(g, s);
      && |r.sceneHistory| == |g.sceneHistory| + 1
      && r.sceneHistory[..|g.sceneHistory|] == g.sceneHistory
      && r.sceneHistory[|g.sceneHistory|] == s
      && r == g.(sceneHistory := r.sceneHistory, scrollPosition := 0)
  {
  }

  /** Scrolling down saturates at the bottom of the history. */
  lemma ScrollDownSaturates(g: GameView, amount: nat)
    ensures amount <= g.scrollPosition ==>
      ScrollDown(g, amount).scrollPosition + amount == g.scrollPosition
    ensures amount >= g.scrollPosition ==> ScrollDown(g, amount).scrollPosition == 0
    ensures ScrollDown(g, amount).scrollPosition <= g.scrollPosition
    ensures ScrollDown(g, amount) == g.(scrollPosition := ScrollDown(g, amount).scrollPosition)
  {
  }

  /** Scrolling down by `n` undoes scrolling up by `n`, and the converse when nothing saturates. */
  lemma ScrollRoundTrip(g: GameView, amount: nat)
    ensures ScrollDown(ScrollUp(g, amount), amount) == g
    ensures amount <= g.scrollPosition ==> ScrollUp(ScrollDown(g, amount), amount) == g
  {
  }

  /** A new scene resets everything about the scene but keeps the inventory and the entry. */
  lemma NewSceneEffect(g: GameView, name: string, desc: string)
    ensures var r := NewScene(g, name, desc);
      && r.sceneName == name && r.sceneDesc == desc && r.entryEnabled
      && r.sceneHistory == [] && r.scrollPosition == 0
      && r.inventory == g.inventory && r.userEntry == g.userEntry
  {
  }

  /** Removal keeps the other items in their order: it distributes over concatenation. */
  lemma {:induction false} WithoutConcat(a: seq<string>, b: seq<string>, x: string)
    ensures Without(a + b, x) == Without(a, x) + Without(b, x)
    decreases |a|
  {
    if a == [] {
      assert a + b == b;
    } else {
      assert (a + b)[1..] == a[1..] + b;
      WithoutConcat(a[1..], b, x);
    }
  }

  /** An inventory without the item is left exactly as it was. */
  lemma {:induction false} WithoutAbsent(s: seq<string>, x: string)
    requires x !in s
    ensures Without(s, x) == s
    decreases |s|
  {
    if s != [] {
      WithoutAbsent(s[1..], x);
      assert s == [s[0]] + s[1..];
    }
  }

  /** Adding an item puts it last; removing it afterwards removes every copy, old ones included. */
  lemma AddThenRemove(g: GameView, item: string)
    ensures AddToInventory(g, item).inventory == g.inventory + [item]
    ensures RemoveFromInventory(AddToInventory(g, item), item).inventory
         == Without(g.inventory, item)
    ensures item !in RemoveFromInventory(g, item).inventory
  {
    WithoutConcat(g.inventory, [item], item);
    assert Without([item], item) == [];
    var r := Without(g.inventory, item);
    assert multiset(r)[item] == 0;
  }
}

/** The GameState object that the dispatcher mutates in place. */
module GameStates {
  import opened GameViews

  class GameState {
    var inventory: seq<string>
    var sceneName: string
    var sceneDesc: string
    var userEntry: string
    var entryEnabled: bool
    var sceneHistory: seq<string>
    var scrollPosition: nat

    /** All fields as a value (what the source's getters and `clone` expose). */
    function View(): GameView
      reads this
    {
      GameView(inventory, sceneName, sceneDesc, userEntry, entryEnabled, sceneHistory, scrollPosition)
    }

    predicate Valid()
      reads this
    {
      View().Valid()
    }

    constructor ()
      ensures inventory == [] && userEntry == "" && sceneHistory == []
      ensures scrollPosition == 0 && entryEnabled
      ensures sceneName == "New Game" && sceneDesc == DarkRoomDescription
      ensures View() == NewGame() && Valid()
    {
      inventory := [];
      sceneName := NewGameTitle;
      sceneDesc := DarkRoomDescription;
      userEntry := "";
      entryEnabled := true;
      sceneHistory := [];
      scrollPosition := 0;
    }

    method AppendEntry(c: char)
      modifies this
      ensures View() == GameViews.AppendEntry(old(View()), c)
      ensures old(Valid()) ==> Valid()
    {
      if |userEntry| >= EntryCap {
        return;
      }
      userEntry := userEntry + [c];
    }

    method RemoveLastEntry()
      modifies this
      ensures View() == GameViews.RemoveLastEntry(old(View()))
      ensures old(Valid()) ==> Valid()
    {
      if userEntry != [] {
        userEntry := userEntry[..|userEntry| - 1];
      }
    }

    method PushInputToHistory()
      modifies this
      ensures View() == GameViews.PushInputToHistory(old(View()))
      ensures Valid()
    {
      AppendSceneHistory(EchoLine(userEntry));
      userEntry := "";
    }

    method AppendSceneHistory(s: string)
      modifies this
      ensures View() == GameViews.AppendSceneHistory(old(View()), s)
    {
      sceneHistory := sceneHistory + [s];
      ScrollReset();
    }

    method ScrollUp(amount: nat)
      modifies this
      ensures View() == GameViews.ScrollUp(old(View()), amount)
    {
      scrollPosition := scrollPosition + amount;
    }

    method ScrollDown(amount: nat)
      modifies this
      ensures View() == GameViews.ScrollDown(old(View()), amount)
    {
      if amount > scrollPosition {
        scrollPosition := 0;
        return;
      }
      scrollPosition := scrollPosition - amount;
    }

    method ScrollReset()
      modifies this
      ensures View() == GameViews.ScrollReset(old(View()))
    {
      scrollPosition := 0;
    }

    method NewScene(name: string, desc: string)
      modifies this
      ensures View() == GameViews.NewScene(old(View()), name, desc)
    {
      sceneName := name;
      sceneDesc := desc;
      entryEnabled := true;
      sceneHistory := [];
      ScrollReset();
    }

    method AddToInventory(item: string)
      modifies this
      ensures View() == GameViews.AddToInventory(old(View()), item)
    {
      inventory := inventory + [item];
    }

    method RemoveFromInventory(item: string)
      modifies this
      ensures View() == GameViews.RemoveFromInventory(old(View()), item)
    {
      inventory := Without(inventory, item);
    }

    method DisableEntry()
      modifies this
      ensures View() == GameViews.DisableEntry(old(View()))
    {
      entryEnabled := false;
    }

    /** Called by the dispatcher; it only sets the flag. */
    method EnableEntry()
      modifies this
      ensures View() == GameViews.EnableEntry(old(View()))
    {
      entryEnabled := true;
    }
  }
}
