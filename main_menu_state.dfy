/*
 * The main menu's state (src/model/main_menu_state.rs): a fixed list of options
 * and a selection index that wraps around in both directions.
 */
module MenuViews {

  datatype MenuView = MenuView(options: seq<string>, selection: nat)
  {
    /** The selection always indexes an option. */
    predicate Valid() {
      0 < |options| && selection < |options|
    }
  }

  const MenuOptions: seq<string> := ["New Game", "Continue", "Settings", "Quit"]

  function NewMenu(): MenuView {
    MenuView(MenuOptions, 0)
  }

  /** `select_next`; the source divides by the option count, so it needs a non-empty list. */
  function SelectNext(m: MenuView): MenuView
    requires |m.options| > 0
  {
    m.(selection := (m.selection + 1) % |m.options|)
  }

  function SelectPrev(m: MenuView): MenuView
    requires |m.options| > 0
  {
    m.(selection := (m.selection + |m.options| - 1) % |m.options|)
  }

  /** The label under the cursor (`get_selection`). */
  function Selection(m: MenuView): string
    requires m.Valid()
  {
    m.options[m.selection]
  }

  // ---------------------------------------------------------------------------
  // Properties

  /** A fresh menu lists the four options with the first one selected. */
  lemma NewMenuShape()
    ensures NewMenu().options == ["New Game", "Continue", "Settings", "Quit"]
    ensures NewMenu().Valid() && Selection(NewMenu()) == "New Game"
  {
  }

  /** Moving down advances by one and wraps from the last option to the first; the options stay. */
  lemma SelectNextMoves(m: MenuView)
    requires m.Valid()
    ensures SelectNext(m).Valid() && SelectNext(m).options == m.options
    ensures m.selection + 1 < |m.options| ==> SelectNext(m).selection == m.selection + 1
    ensures m.selection + 1 == |m.options| ==> SelectNext(m).selection == 0
  {
  }

  /** Moving up goes back by one and wraps from the first option to the last; the options stay. */
  lemma SelectPrevMoves(m: MenuView)
    requires m.Valid()
    ensures SelectPrev(m).Valid() && SelectPrev(m).options == m.options
    ensures m.selection > 0 ==> SelectPrev(m).selection == m.selection - 1
    ensures m.selection == 0 ==> SelectPrev(m).selection == |m.options| - 1
  {
    var n := |m.options|;
    if m.selection > 0 {
      assert m.selection + n - 1 == (m.selection - 1) + n;
    }
  }

  /** Down then up, and up then down, both return to the original selection. */
  lemma NextPrevRoundTrip(m: MenuView)
    requires m.Valid()
    ensures SelectPrev(SelectNext(m)) == m
    ensures SelectNext(SelectPrev(m)) == m
  {
    SelectNextMoves(m);
    SelectPrevMoves(m);
    SelectPrevMoves(SelectNext(m));
    SelectNextMoves(SelectPrev(m));
  }
}

/** The menu object that the dispatcher mutates in place. */
module MainMenus {
  import opened MenuViews

  class MainMenuState {
    var options: seq<string>
    var selection: nat

    function View(): MenuView
      reads this
    {
      MenuView(options, selection)
    }

    predicate Valid()
      reads this
    {
      View().Valid()
    }

    constructor ()
      ensures options == ["New Game", "Continue", "Settings", "Quit"] && selection == 0
      ensures View() == NewMenu() && Valid()
    {
      options := MenuOptions;
      selection := 0;
    }

    /** Only the selection may change; the option list is outside the frame. */
    method SelectNext()
      requires Valid()
      modifies this`selection
      ensures selection == (old(selection) + 1) % |options|
      ensures View() == MenuViews.SelectNext(old(View())) && Valid()
    {
      selection := selection + 1;
      selection := selection % |options|;
    }

    method SelectPrev()
      requires Valid()
      modifies this`selection
      ensures selection == (old(selection) + |options| - 1) % |options|
      ensures View() == MenuViews.SelectPrev(old(View())) && Valid()
    {
      selection := selection + |options|;
      selection := selection - 1;
      selection := selection % |options|;
    }

    method GetSelection() returns (chosen: string)
      requires Valid()
      ensures chosen == Selection(View()) && chosen in options
    {
      chosen := options[selection];
    }
  }
}
