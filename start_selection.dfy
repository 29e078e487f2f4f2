/** The start-position screen (game.py, grid_and_player_selection, lines 250-412)
    without its drawing: the per-axis choice lists, the "picked" flags and texts of
    up to four players, and what a press on Start leads to. */
module StartSelection {
  import opened Decimal
  import opened Coords
  import opened StartButton

  /** The texts one selection list offers for a grid axis of the given size:
      "1", "2", ... up to str(count), in that order (one value per cell, numbered from 1). */
  method ChoiceList(count: int) returns (items: seq<string>)
    ensures |items| == if count < 0 then 0 else count
    ensures forall i :: 0 <= i < |items| ==> items[i] == NatToString(i + 1)
    ensures forall i :: 0 <= i < |items| ==> AllDigits(items[i]) && Value(items[i]) == i + 1
  {
    items := [];
    var j := 0;
    while j < count
      invariant 0 <= j && (j <= count || j == 0)
      invariant |items| == j
      invariant forall i :: 0 <= i < j ==> items[i] == NatToString(i + 1)
      invariant forall i :: 0 <= i < j ==> Value(items[i]) == i + 1
    {
      ValueOfNatToString(j + 1);
      items := items + [NatToString(j + 1)];
      j := j + 1;
    }
  }

  /** Every text the list offers names a distinct cell of the axis: reading two of
      them back gives their positions, so they are equal only at the same position. */
  lemma ChoicesDistinct(i: nat, j: nat)
    ensures NatToString(i + 1) == NatToString(j + 1) <==> i == j
  {
    NatToStringInjective(i + 1, j + 1);
  }

  datatype Axis = X | Y

  /** One player's start choice: per axis, whether a value was picked and the picked text. */
  datatype Slot = Slot(xPicked: bool, x: string, yPicked: bool, y: string)

  /** The screen's state: the player count it was opened with and four slots,
      one per player the screen could show. */
  datatype Selection = Selection(players: int, slots: seq<Slot>)

  /** What a mouse press leads to: nothing, the "cannot match" message, or the game start. */
  datatype Outcome = Idle | CannotMatch | GameStart

  predicate Valid(s: Selection) {
    |s.slots| == 4
  }

  function Picked(slot: Slot, axis: Axis): bool {
    match axis
    case X => slot.xPicked
    case Y => slot.yPicked
  }

  function Text(slot: Slot, axis: Axis): string {
    match axis
    case X => slot.x
    case Y => slot.y
  }

  /** The screen as it opens: nothing picked, except that the slots of players
      beyond the chosen count are marked picked so that they do not hold up Start. */
  function Initial(players: int): (s: Selection)
    ensures Valid(s) && s.players == players
    ensures 2 <= players <= 4 ==>
      forall k, axis :: 0 <= k < 4 ==> (Picked(s.slots[k], axis) <==> k >= players)
  {
    var third := players < 3;
    var fourth := players < 4;
    Selection(players, [Slot(false, "", false, ""), Slot(false, "", false, ""),
                        Slot(third, "", third, ""), Slot(fourth, "", fourth, "")])
  }

  /** A new selection in one of the eight lists: that list's flag is set and its
      text recorded; every other list keeps its flag and text. */
  function Pick(s: Selection, player: nat, axis: Axis, text: string): (r: Selection)
    requires Valid(s) && player < 4
    ensures Valid(r) && r.players == s.players
    ensures Picked(r.slots[player], axis) && Text(r.slots[player], axis) == text
    ensures forall k, a :: 0 <= k < 4 && (k != player || a != axis) ==>
      Picked(r.slots[k], a) == Picked(s.slots[k], a) && Text(r.slots[k], a) == Text(s.slots[k], a)
  {
    var slot := s.slots[player];
    var picked := match axis
      case X => slot.(xPicked := true, x := text)
      case Y => slot.(yPicked := true, y := text);
    s.(slots := s.slots[player := picked])
  }

  /** Whether all eight flags are set: the condition for Start to look any further. */
  predicate AllPicked(s: Selection)
    requires Valid(s)
  {
    forall k :: 0 <= k < 4 ==> s.slots[k].xPicked && s.slots[k].yPicked
  }

  /** Player k's chosen coordinates, as the pair of picked texts. */
  function Chosen(s: Selection, k: nat): (string, string)
    requires Valid(s) && k < 4
  {
    (s.slots[k].x, s.slots[k].y)
  }

  /** A press on Start, with the pair comparisons written out as the screen makes them. */
  function PressStart(s: Selection): Outcome
    requires Valid(s)
  {
    if !AllPicked(s) then Idle
    else if s.players < 3 then
      if CheckCoords(Chosen(s, 0), Chosen(s, 1)) then CannotMatch
      else GameStart
    else if s.players < 4 then
      if CheckCoords(Chosen(s, 0), Chosen(s, 1)) then CannotMatch
      else if CheckCoords(Chosen(s, 0), Chosen(s, 2)) then CannotMatch
      else if CheckCoords(Chosen(s, 1), Chosen(s, 2)) then CannotMatch
      else GameStart
    else
      if CheckCoords(Chosen(s, 0), Chosen(s, 1)) then CannotMatch
      else if CheckCoords(Chosen(s, 0), Chosen(s, 2)) then CannotMatch
      else if CheckCoords(Chosen(s, 1), Chosen(s, 2)) then CannotMatch
      else if CheckCoords(Chosen(s, 0), Chosen(s, 3)) then CannotMatch
      else if CheckCoords(Chosen(s, 1), Chosen(s, 3)) then CannotMatch
      else if CheckCoords(Chosen(s, 2), Chosen(s, 3)) then CannotMatch
      else GameStart
  }

  predicate PairwiseDistinct<T(==)>(cs: seq<T>) {
    forall i, j :: 0 <= i < j < |cs| ==> cs[i] != cs[j]
  }

  /** The chosen coordinates of the players taking part, in player order. */
  function StartPositions(s: Selection): seq<(string, string)>
    requires Valid(s) && 0 <= s.players <= 4
  {
    seq(s.players, k requires 0 <= k < s.players => Chosen(s, k))
  }

  /** For two, three or four players, Start does nothing until every flag is set,
      and then starts the game exactly when the players' chosen coordinates are
      pairwise distinct; any shared coordinate shows "cannot match" instead. */
  lemma PressStartMeaning(s: Selection)
    requires Valid(s) && 2 <= s.players <= 4
    ensures PressStart(s) == if !AllPicked(s) then Idle
                             else if PairwiseDistinct(StartPositions(s)) then GameStart
                             else CannotMatch
  {
    var cs := StartPositions(s);
    if AllPicked(s) {
      if PairwiseDistinct(cs) {
        assert cs[0] != cs[1];
        if s.players >= 3 {
          assert cs[0] != cs[2] && cs[1] != cs[2];
        }
        if s.players == 4 {
          assert cs[0] != cs[3] && cs[1] != cs[3] && cs[2] != cs[3];
        }
      } else {
        var i, j :| 0 <= i < j < |cs| && cs[i] == cs[j];
        assert CheckCoords(Chosen(s, i), Chosen(s, j));
      }
    }
  }

  /** One new selection: whose list, which axis, and the text chosen. */
  datatype Event = Event(player: nat, axis: Axis, text: string)

  predicate OnLists(events: seq<Event>) {
    forall i :: 0 <= i < |events| ==> events[i].player < 4
  }

  /** A text was picked in the given list at some point of the history. */
  predicate EverPicked(events: seq<Event>, player: nat, axis: Axis) {
    exists i :: 0 <= i < |events| && events[i].player == player && events[i].axis == axis
  }

  /** The screen after a history of selections, applied first to last. */
  function Replay(s: Selection, events: seq<Event>): (r: Selection)
    requires Valid(s) && OnLists(events)
    ensures Valid(r) && r.players == s.players
    decreases |events|
  {
    if events == [] then s
    else Replay(Pick(s, events[0].player, events[0].axis, events[0].text), events[1..])
  }

  /** A flag is set after a history exactly when it was set before or its list was
      picked in the history: flags are never cleared. */
  lemma {:induction false} ReplayPicked(s: Selection, events: seq<Event>, k: nat, axis: Axis)
    requires Valid(s) && OnLists(events) && k < 4
    ensures Picked(Replay(s, events).slots[k], axis) <==> Picked(s.slots[k], axis) || EverPicked(events, k, axis)
    decreases |events|
  {
    if events != [] {
      var e := events[0];
      var next := Pick(s, e.player, e.axis, e.text);
      ReplayPicked(next, events[1..], k, axis);
      assert forall i :: 0 < i < |events| ==> events[1..][i - 1] == events[i];
    }
  }

  /** The text of the last pick in the given list, or `default` if the history has none. */
  function LastText(events: seq<Event>, player: nat, axis: Axis, default: string): string
    decreases |events|
  {
    if events == [] then default
    else
      var e := events[|events| - 1];
      if e.player == player && e.axis == axis then e.text
      else LastText(events[..|events| - 1], player, axis, default)
  }

  /** Replaying one more selection is picking it on the replayed screen. */
  lemma {:induction false} ReplaySnoc(s: Selection, events: seq<Event>, e: Event)
    requires Valid(s) && OnLists(events) && e.player < 4
    ensures OnLists(events + [e])
    ensures Replay(s, events + [e]) == Pick(Replay(s, events), e.player, e.axis, e.text)
    decreases |events|
  {
    if events == [] {
      assert [] + [e] == [e];
    } else {
      assert (events + [e])[0] == events[0] && (events + [e])[1..] == events[1..] + [e];
      ReplaySnoc(Pick(s, events[0].player, events[0].axis, events[0].text), events[1..], e);
    }
  }

  /** Each pick overwrites its list's text, so after a history every list holds the
      text of its last pick, or what it held before if it was never picked. */
  lemma {:induction false} ReplayText(s: Selection, events: seq<Event>, k: nat, axis: Axis)
    requires Valid(s) && OnLists(events) && k < 4
    ensures Text(Replay(s, events).slots[k], axis) == LastText(events, k, axis, Text(s.slots[k], axis))
    decreases |events|
  {
    if events != [] {
      var front, e := events[..|events| - 1], events[|events| - 1];
      assert events == front + [e];
      ReplayText(s, front, k, axis);
      ReplaySnoc(s, front, e);
    }
  }

  /** Start gets past its flag test exactly when every player taking part has
      picked both an x and a y; players beyond the count never need to. */
  lemma ReadyExactlyWhenRequiredPicked(players: int, events: seq<Event>)
    requires 2 <= players <= 4 && OnLists(events)
    ensures AllPicked(Replay(Initial(players), events)) <==>
      forall k: nat :: k < players ==> EverPicked(events, k, X) && EverPicked(events, k, Y)
  {
    var s := Replay(Initial(players), events);
    forall k: nat, axis | k < 4
      ensures Picked(s.slots[k], axis) <==> k >= players || EverPicked(events, k, axis)
    {
      ReplayPicked(Initial(players), events, k, axis);
    }
    if forall k: nat :: k < players ==> EverPicked(events, k, X) && EverPicked(events, k, Y) {
      forall k | 0 <= k < 4
        ensures s.slots[k].xPicked && s.slots[k].yPicked
      {
        assert Picked(s.slots[k], X) && Picked(s.slots[k], Y);
      }
    }
  }

  /** The coordinates each player taking part picked last, after a history. */
  function LastPicks(players: int, events: seq<Event>): seq<(string, string)>
    requires 0 <= players <= 4
  {
    seq(players, k requires 0 <= k < players => (LastText(events, k, X, ""), LastText(events, k, Y, "")))
  }

  /** A press on Start after a history of selections, for two, three or four players:
      nothing until every player taking part has picked both axes, then the game
      starts exactly when the last picks of those players are pairwise distinct. */
  lemma StartAfterHistory(players: int, events: seq<Event>)
    requires 2 <= players <= 4 && OnLists(events)
    ensures PressStart(Replay(Initial(players), events)) ==
      if !(forall k: nat :: k < players ==> EverPicked(events, k, X) && EverPicked(events, k, Y)) then Idle
      else if PairwiseDistinct(LastPicks(players, events)) then GameStart
      else CannotMatch
  {
    var s := Replay(Initial(players), events);
    ReadyExactlyWhenRequiredPicked(players, events);
    PressStartMeaning(s);
    forall k | 0 <= k < players
      ensures StartPositions(s)[k] == LastPicks(players, events)[k]
    {
      ReplayText(Initial(players), events, k, X);
      ReplayText(Initial(players), events, k, Y);
    }
    assert StartPositions(s) == LastPicks(players, events);
  }

  /** The cells of the players taking part, as column and row numbers. */
  function Cells(cols: seq<int>, rows: seq<int>): seq<(int, int)>
    requires |cols| == |rows|
  {
    seq(|cols|, k requires 0 <= k < |cols| => (cols[k], rows[k]))
  }

  /** When every text was taken from the choice lists (the decimal text of a cell
      number), comparing texts is comparing cells: the game starts exactly when the
      players stand on pairwise different cells. */
  lemma StartOnDistinctCells(s: Selection, cols: seq<nat>, rows: seq<nat>)
    requires Valid(s) && 2 <= s.players <= 4 && AllPicked(s)
    requires |cols| == s.players && |rows| == s.players
    requires forall k :: 0 <= k < s.players ==>
      s.slots[k].x == NatToString(cols[k]) && s.slots[k].y == NatToString(rows[k])
    ensures PressStart(s) == GameStart <==> PairwiseDistinct(Cells(cols, rows))
  {
    PressStartMeaning(s);
    var texts, cells := StartPositions(s), Cells(cols, rows);
    forall i, j | 0 <= i < j < s.players
      ensures texts[i] == texts[j] <==> cells[i] == cells[j]
    {
      NatToStringInjective(cols[i], cols[j]);
      NatToStringInjective(rows[i], rows[j]);
    }
  }

  /** A mouse press on the screen: only a press on the drawn Start button acts. */
  function Click(s: Selection, mx: int, my: int): (r: Outcome)
    requires Valid(s)
    ensures r != Idle ==> OnStartButton(s.players, mx, my) && AllPicked(s)
    ensures OnStartButton(s.players, mx, my) ==> r == PressStart(s)
  {
    if OnStartButton(s.players, mx, my) then PressStart(s) else Idle
  }

  /** A mouse press as the screen tests it, with the fixed rectangle. */
  function ClickAsWritten(s: Selection, mx: int, my: int): (r: Outcome)
    requires Valid(s)
    ensures r != Idle ==> HitAsWritten(mx, my) && AllPicked(s)
    ensures HitAsWritten(mx, my) ==> r == PressStart(s)
  {
    if HitAsWritten(mx, my) then PressStart(s) else Idle
  }

  /** As written, with two or three players no press inside the window ever
      reaches the start check, whatever was picked. */
  lemma ClickAsWrittenIgnored(s: Selection, mx: int, my: int)
    requires Valid(s) && 2 <= s.players <= 3
    requires InWindow(s.players, mx, my)
    ensures ClickAsWritten(s, mx, my) == Idle
  {
  }

  /** With the test on the drawn button, a press on any pixel of the button lies in
      the window and starts the game for every player count, once the picks are
      complete and distinct. */
  lemma ClickStarts(s: Selection, mx: int, my: int)
    requires Valid(s) && 2 <= s.players <= 4
    requires AllPicked(s) && PairwiseDistinct(StartPositions(s))
    requires OnStartButton(s.players, mx, my)
    ensures InWindow(s.players, mx, my)
    ensures Click(s, mx, my) == GameStart
  {
    PressStartMeaning(s);
  }
}
