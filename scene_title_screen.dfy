// The title-screen menu (SceneTitleScreen.py): two options, START and QUIT.
// Any arrow key toggles the selection and Return or keypad Enter acts on the
// option selected at that moment. Acting calls into the game object; the model
// returns those calls in order.
module SceneTitleScreen {
  import opened Input

  datatype MenuOption = START | QUIT

  /** The game calls `_selectOption` makes: `game.startGame()` or `game.quitGame()`. */
  datatype GameCall = StartGame | QuitGame

  predicate IsArrow(k: Key) {
    k == KeyUp || k == KeyDown || k == KeyLeft || k == KeyRight
  }

  predicate IsEnter(k: Key) {
    k == KeyReturn || k == KeyKpEnter
  }

  /** The other option. */
  function Toggled(o: MenuOption): (t: MenuOption)
    ensures t != o
  {
    if o == START then QUIT else START
  }

  /** The game call for an option. */
  function Dispatch(o: MenuOption): (c: GameCall)
    ensures c == StartGame <==> o == START
  {
    match o
    case START => StartGame
    case QUIT => QuitGame
  }

  /** The selection after handling the keydowns in order, from selection o. */
  function SelectionAfter(o: MenuOption, keys: seq<Key>): MenuOption
  {
    if keys == [] then o
    else
      var before := SelectionAfter(o, keys[..|keys| - 1]);
      if IsArrow(keys[|keys| - 1]) then Toggled(before) else before
  }

  /** The game calls made while handling the keydowns in order, from selection o. */
  function CallsAfter(o: MenuOption, keys: seq<Key>): seq<GameCall>
  {
    if keys == [] then []
    else
      var last := keys[|keys| - 1];
      CallsAfter(o, keys[..|keys| - 1]) +
      (if IsEnter(last) then [Dispatch(SelectionAfter(o, keys[..|keys| - 1]))] else [])
  }

  class TitleScreen {
    var selected: MenuOption

    constructor ()
      ensures selected == START
    {
      selected := START;
    }

    /** Entering the scene always starts on START. */
    method SceneEnter()
      modifies this
      ensures selected == START
    {
      selected := START;
    }

    /** Acts on an option: the game call Dispatch picks for it. */
    method SelectOption(option: MenuOption) returns (call: GameCall)
      ensures call == Dispatch(option)
      ensures call == QuitGame <==> option == QUIT
    {
      call := Dispatch(option);
    }

    /** Handles this frame's keydowns, in order. */
    method CheckKeys(keys: seq<Key>) returns (calls: seq<GameCall>)
      modifies this
      ensures selected == SelectionAfter(old(selected), keys)
      ensures calls == CallsAfter(old(selected), keys)
    {
      calls := [];
      for k := 0 to |keys|
        invariant selected == SelectionAfter(old(selected), keys[..k])
        invariant calls == CallsAfter(old(selected), keys[..k])
      {
        assert keys[..k + 1][..k] == keys[..k];
        var key := keys[k];
        if IsArrow(key) {
          selected := if selected == START then QUIT else START;
        }
        if IsEnter(key) {
          var call := SelectOption(selected);
          calls := calls + [call];
        }
      }
      assert keys[..|keys|] == keys;
    }
  }

  /** Keys that are neither arrows nor Enter change nothing and call nothing. */
  lemma {:induction false} OtherKeysIgnored(o: MenuOption, keys: seq<Key>)
    requires forall i | 0 <= i < |keys| :: !IsArrow(keys[i]) && !IsEnter(keys[i])
    ensures SelectionAfter(o, keys) == o && CallsAfter(o, keys) == []
  {
    if keys != [] {
      OtherKeysIgnored(o, keys[..|keys| - 1]);
    }
  }

  /** n arrow presses leave the selection as it was when n is even, and toggle it when n is odd. */
  lemma {:induction false} ArrowParity(o: MenuOption, keys: seq<Key>)
    requires forall i | 0 <= i < |keys| :: IsArrow(keys[i])
    ensures SelectionAfter(o, keys) == if |keys| % 2 == 0 then o else Toggled(o)
    ensures CallsAfter(o, keys) == []
  {
    if keys != [] {
      ArrowParity(o, keys[..|keys| - 1]);
    }
  }

  /** Selection after keys then more keys: the second batch starts from where the first ended. */
  lemma {:induction false} SelectionAfterAppend(o: MenuOption, a: seq<Key>, b: seq<Key>)
    ensures SelectionAfter(o, a + b) == SelectionAfter(SelectionAfter(o, a), b)
    decreases |b|
  {
    if b == [] {
      assert a + b == a;
    } else {
      assert (a + b)[..|a + b| - 1] == a + b[..|b| - 1];
      SelectionAfterAppend(o, a, b[..|b| - 1]);
    }
  }

  /** Enter after n arrows in one batch acts on the option the arrows left selected. */
  lemma EnterAfterArrows(o: MenuOption, arrows: seq<Key>, enter: Key)
    requires forall i | 0 <= i < |arrows| :: IsArrow(arrows[i])
    requires IsEnter(enter)
    ensures CallsAfter(o, arrows + [enter]) ==
              [Dispatch(if |arrows| % 2 == 0 then o else Toggled(o))]
  {
    ArrowParity(o, arrows);
    assert (arrows + [enter])[..|arrows|] == arrows;
  }

  /** One game call per Enter keydown: the number of calls is the number of Enter presses. */
  lemma {:induction false} OneCallPerEnter(o: MenuOption, keys: seq<Key>)
    ensures |CallsAfter(o, keys)| == multiset(keys)[KeyReturn] + multiset(keys)[KeyKpEnter]
  {
    if keys != [] {
      OneCallPerEnter(o, keys[..|keys| - 1]);
      assert keys == keys[..|keys| - 1] + [keys[|keys| - 1]];
    }
  }
}
