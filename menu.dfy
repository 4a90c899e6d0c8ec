/** Main-menu navigation: edge-detected joystick input moves a selection over
    five items with wrap-around, and a Center press chooses the selected item. */
module Menu {

  const MENU_ITEM_COUNT: nat := 5

  /** Joystick bits as the board's joystick driver reports them. */
  const JOYSTICK_CENTER: bv8 := 0x01
  const JOYSTICK_UP: bv8 := 0x02
  const JOYSTICK_DOWN: bv8 := 0x04

  /** Initial value of the "previous joystick state": every bit set, so a
      button already held when the menu is entered does not fire. */
  const NO_PREVIOUS: bv8 := 0xFF

  /** The menu items in display order. */
  datatype MenuItem = StartGame | ResetScore | ShowHighScore | Credits | Exit

  function ItemAt(i: nat): MenuItem
    requires i < MENU_ITEM_COUNT
  {
    [StartGame, ResetScore, ShowHighScore, Credits, Exit][i]
  }

  /** Display position of an item; positions and items correspond one to one. */
  function IndexOf(item: MenuItem): (i: nat)
    ensures i < MENU_ITEM_COUNT && ItemAt(i) == item
  {
    match item
    case StartGame => 0
    case ResetScore => 1
    case ShowHighScore => 2
    case Credits => 3
    case Exit => 4
  }

  predicate Pressed(joy: bv8, button: bv8) {
    joy & button != 0
  }

  /** A button fires only on its released-to-pressed transition. */
  predicate Edge(prev: bv8, joy: bv8, button: bv8) {
    Pressed(joy, button) && !Pressed(prev, button)
  }

  /** What one poll of the joystick does. */
  datatype Event = MoveDown | MoveUp | Select | Idle

  /** At most one event per poll, in priority Down, then Up, then Center. A
      state that repeats the previous one, and the first poll after entry,
      fire nothing; every event comes from a fresh edge of its own button. */
  function EventOf(prev: bv8, joy: bv8): (e: Event)
    ensures prev == joy ==> e == Idle
    ensures prev == NO_PREVIOUS ==> e == Idle
    ensures e == MoveDown ==> Edge(prev, joy, JOYSTICK_DOWN)
    ensures e == MoveUp ==> Edge(prev, joy, JOYSTICK_UP)
    ensures e == Select ==> Edge(prev, joy, JOYSTICK_CENTER)
    ensures e == Idle ==>
              !Edge(prev, joy, JOYSTICK_DOWN) && !Edge(prev, joy, JOYSTICK_UP) && !Edge(prev, joy, JOYSTICK_CENTER)
  {
    if Edge(prev, joy, JOYSTICK_DOWN) then MoveDown
    else if Edge(prev, joy, JOYSTICK_UP) then MoveUp
    else if Edge(prev, joy, JOYSTICK_CENTER) then Select
    else Idle
  }

  /** Down beats Up, and Up beats Center, when several edges arrive together. */
  lemma Priority(prev: bv8, joy: bv8)
    ensures Edge(prev, joy, JOYSTICK_DOWN) ==> EventOf(prev, joy) == MoveDown
    ensures Edge(prev, joy, JOYSTICK_UP) && !Edge(prev, joy, JOYSTICK_DOWN) ==> EventOf(prev, joy) == MoveUp
    ensures Edge(prev, joy, JOYSTICK_CENTER) && !Edge(prev, joy, JOYSTICK_DOWN) && !Edge(prev, joy, JOYSTICK_UP) ==>
              EventOf(prev, joy) == Select
  {
  }

  /** The selection after one event: Down and Up move by one and wrap around
      modulo the item count, anything else keeps it. */
  function NextIndex(i: nat, e: Event): (j: nat)
    requires i < MENU_ITEM_COUNT
    ensures j < MENU_ITEM_COUNT
    ensures e == MoveDown && i == MENU_ITEM_COUNT - 1 ==> j == 0
    ensures e == MoveUp && i == 0 ==> j == MENU_ITEM_COUNT - 1
    ensures e != MoveDown && e != MoveUp ==> j == i
  {
    match e
    case MoveDown => (i + 1) % MENU_ITEM_COUNT
    case MoveUp => (i - 1 + MENU_ITEM_COUNT) % MENU_ITEM_COUNT
    case _ => i
  }

  /** Up undoes Down and Down undoes Up. */
  lemma UpDownInverse(i: nat)
    requires i < MENU_ITEM_COUNT
    ensures NextIndex(NextIndex(i, MoveDown), MoveUp) == i
    ensures NextIndex(NextIndex(i, MoveUp), MoveDown) == i
  {
  }

  /** Where navigation ends: an item chosen at some poll (counted from the
      first poll), or, when the polls run out, the selection reached and the
      last joystick state seen. */
  datatype Outcome = Chosen(index: nat, poll: nat) | Pending(index: nat, prev: bv8)

  /** An outcome of a later part of a run, seen from `k` polls earlier. */
  function Offset(o: Outcome, k: nat): Outcome {
    if o.Chosen? then Chosen(o.index, o.poll + k) else o
  }

  /** The navigation loop over a finite run of joystick samples. */
  function Navigate(index: nat, prev: bv8, joys: seq<bv8>): (o: Outcome)
    requires index < MENU_ITEM_COUNT
    ensures o.index < MENU_ITEM_COUNT
    ensures o.Chosen? ==> o.poll < |joys|
    ensures o.Pending? && joys != [] ==> o.prev == joys[|joys| - 1]
    ensures o.Pending? && joys == [] ==> o == Pending(index, prev)
    decreases |joys|
  {
    if joys == [] then Pending(index, prev)
    else
      var e := EventOf(prev, joys[0]);
      if e == Select then Chosen(index, 0)
      else Offset(Navigate(NextIndex(index, e), joys[0], joys[1..]), 1)
  }

  /** `n` polls of the same joystick state. */
  function Repeat(joy: bv8, n: nat): (s: seq<bv8>)
    ensures |s| == n && forall k :: 0 <= k < n ==> s[k] == joy
  {
    seq(n, _ => joy)
  }

  /** Holding the joystick in one state fires nothing, however long it is held. */
  lemma {:induction false} HoldingFiresNothing(index: nat, joy: bv8, n: nat)
    requires index < MENU_ITEM_COUNT
    ensures Navigate(index, joy, Repeat(joy, n)) == Pending(index, joy)
  {
    if n > 0 {
      assert Repeat(joy, n)[1..] == Repeat(joy, n - 1);
      HoldingFiresNothing(index, joy, n - 1);
    }
  }

  /** Buttons held when the menu is entered fire nothing while they stay held. */
  lemma {:induction false} HeldOnEntryFiresNothing(index: nat, joy: bv8, n: nat)
    requires index < MENU_ITEM_COUNT && n > 0
    ensures Navigate(index, NO_PREVIOUS, Repeat(joy, n)) == Pending(index, joy)
  {
    assert Repeat(joy, n)[1..] == Repeat(joy, n - 1);
    HoldingFiresNothing(index, joy, n - 1);
  }

  /** A press held over `n` polls acts once: it moves the selection once, or
      chooses the item on its first poll. */
  lemma {:induction false} HeldPressActsOnce(index: nat, prev: bv8, joy: bv8, n: nat)
    requires index < MENU_ITEM_COUNT && n > 0
    ensures var e := EventOf(prev, joy);
            Navigate(index, prev, Repeat(joy, n)) ==
              if e == Select then Chosen(index, 0) else Pending(NextIndex(index, e), joy)
  {
    assert Repeat(joy, n)[1..] == Repeat(joy, n - 1);
    var e := EventOf(prev, joy);
    if e != Select {
      HoldingFiresNothing(NextIndex(index, e), joy, n - 1);
    }
  }

  /** `k` press-and-release cycles of one button, starting released. */
  function Taps(button: bv8, k: nat): (s: seq<bv8>)
    ensures |s| == 2 * k
  {
    if k == 0 then [] else Taps(button, k - 1) + [button, 0]
  }

  /** Navigation over a concatenation of runs continues where the first run
      left off. */
  lemma {:induction false} NavigateAppend(index: nat, prev: bv8, a: seq<bv8>, b: seq<bv8>)
    requires index < MENU_ITEM_COUNT
    requires Navigate(index, prev, a).Pending?
    ensures var o := Navigate(index, prev, a);
            Navigate(index, prev, a + b) == Offset(Navigate(o.index, o.prev, b), |a|)
    decreases |a|
  {
    if a == [] {
      assert a + b == b;
    } else {
      var e := EventOf(prev, a[0]);
      assert (a + b)[0] == a[0];
      assert (a + b)[1..] == a[1..] + b;
      NavigateAppend(NextIndex(index, e), a[0], a[1..], b);
    }
  }

  /** Each tap of Down moves the selection one item further, wrapping around:
      `k` taps from item `i` select item `(i + k) mod 5`. */
  lemma {:induction false} DownTapsAdvance(index: nat, k: nat)
    requires index < MENU_ITEM_COUNT
    ensures Navigate(index, 0, Taps(JOYSTICK_DOWN, k)) == Pending((index + k) % MENU_ITEM_COUNT, 0)
  {
    if k > 0 {
      var earlier := Taps(JOYSTICK_DOWN, k - 1);
      var mid := (index + (k - 1)) % MENU_ITEM_COUNT;
      DownTapsAdvance(index, k - 1);
      assert Taps(JOYSTICK_DOWN, k) == earlier + [JOYSTICK_DOWN, 0];
      NavigateAppend(index, 0, earlier, [JOYSTICK_DOWN, 0]);
      OneTap(mid);
      SuccessorMod(index, k);
    }
  }

  /** One more tap after `k - 1` taps, counted modulo the item count. */
  lemma SuccessorMod(index: nat, k: nat)
    requires k > 0
    ensures ((index + (k - 1)) % MENU_ITEM_COUNT + 1) % MENU_ITEM_COUNT == (index + k) % MENU_ITEM_COUNT
  {
  }

  lemma OneTap(index: nat)
    requires index < MENU_ITEM_COUNT
    ensures Navigate(index, 0, [JOYSTICK_DOWN, 0]) == Pending((index + 1) % MENU_ITEM_COUNT, 0)
  {
    assert EventOf(0, JOYSTICK_DOWN) == MoveDown;
    assert [JOYSTICK_DOWN, 0][1..] == [0 as bv8];
    assert EventOf(JOYSTICK_DOWN, 0) == Idle;
  }
}
