/**
 The decision part of the three callback handlers of bot_main.py
 (`DeactivateItemHandler`, `ActivateItemHandler`, `NextPreviousItemsHandler`)
 and of the patterns that route a button's callback data to one of them:
 which item changes and which message, if any, replaces the pressed one.
 Sending, answering and editing Telegram messages are not modelled; the
 edit the handler would make is returned as a `Reply`.
 */
module Handlers {
  import opened Wrappers
  import opened Tokens
  import opened Registry
  import opened Views
  import Bot

  /** What the handler leaves on screen: the message is left as it was, or
      it is edited to show this text and keyboard. */
  datatype Reply = Silent | Edit(text: string, markup: Option<Keyboard>)

  /** `DeactivateItemHandler` once the id is read: the item with that id is
      deactivated; if there is one, the active list, or the full list at the
      page start in the token, replaces the message. A full-list token
      without a readable page start fails after the item was deactivated. */
  function AfterDeactivate(s: Snapshot, id: int, back: Back): (Snapshot, Reply)
    requires WellFormed(s)
  {
    var name := NameForSlot(s, id);
    if name !in s.keys then (s, Silent)
    else
      var s' := SetActive(s, name, false);
      SetActiveSpec(s, name, false);
      match back
      case ToActive => (s', Edit(ActiveTitle, Some(ActiveKeyboard(Entries(s')))))
      case ToFull(None) => (s', Silent)
      case ToFull(Some(pos)) => (s', Edit(FullView(Entries(s'), pos).0, FullView(Entries(s'), pos).1))
  }

  /** `ActivateItemHandler` once the id and page start are read. */
  function AfterActivate(s: Snapshot, id: int, pos: int): (Snapshot, Reply)
    requires WellFormed(s)
  {
    var name := NameForSlot(s, id);
    if name !in s.keys then (s, Silent)
    else
      var s' := SetActive(s, name, true);
      SetActiveSpec(s, name, true);
      (s', Edit(FullView(Entries(s'), pos).0, FullView(Entries(s'), pos).1))
  }

  /** `NextPreviousItemsHandler` once the page start is read: the page ten
      rows on or back, if it starts inside the list. */
  function AfterNavigate(s: Snapshot, forward: bool, pos: int): (Snapshot, Reply)
    requires WellFormed(s)
  {
    var view := FullView(Entries(s), Target(forward, pos));
    (s, if view.1.None? then Silent else Edit(view.0, view.1))
  }

  /** A button press with callback data `data`: routed by the registered
      patterns and read by the chosen handler; data no handler accepts, or
      whose numbers `int` rejects, changes nothing. A press never changes
      the keys, the ids, the users or any default, and changes the active
      flag of at most one item. */
  function Press(s: Snapshot, data: string): (r: (Snapshot, Reply))
    requires WellFormed(s)
    ensures WellFormed(r.0)
    ensures Decode(data).None? ==> r == (s, Silent)
    ensures FlipsAtMostOne(s, r.0)
  {
    match Decode(data)
    case None => (s, Silent)
    case Some(Deactivate(id, back)) =>
      SetActiveSpec(s, NameForSlot(s, id), false);
      SetActiveFlipsOne(s, NameForSlot(s, id), false);
      AfterDeactivate(s, id, back)
    case Some(Activate(id, pos)) =>
      SetActiveSpec(s, NameForSlot(s, id), true);
      SetActiveFlipsOne(s, NameForSlot(s, id), true);
      AfterActivate(s, id, pos)
    case Some(Navigate(forward, pos)) => AfterNavigate(s, forward, pos)
  }

  // ---------------------------------------------------------------------------
  // The handlers, on the registry object

  /** `DeactivateItemHandler.__call__` after `int(data[2])`. */
  method DeactivateItem(state: Bot.ItemsState, id: int, back: Back) returns (reply: Reply)
    requires state.Valid()
    modifies state, state.items.Values
    ensures state.Valid() && (state.Model(), reply) == AfterDeactivate(old(state.Model()), id, back)
  {
    var name := state.GetItemById(id);
    var found := state.Deactivate(name);
    if !found {
      return Silent;
    }
    match back
    case ToActive =>
      var title, keyboard := state.ActiveItemListKeyboard();
      reply := Edit(title, Some(keyboard));
    case ToFull(None) =>
      reply := Silent;
    case ToFull(Some(pos)) =>
      var title, keyboard := state.FullItemListKeyboard(pos);
      reply := Edit(title, keyboard);
  }

  /** `ActivateItemHandler.__call__` after `int(data[2])` and `int(data[3])`. */
  method ActivateItem(state: Bot.ItemsState, id: int, pos: int) returns (reply: Reply)
    requires state.Valid()
    modifies state, state.items.Values
    ensures state.Valid() && (state.Model(), reply) == AfterActivate(old(state.Model()), id, pos)
  {
    var name := state.GetItemById(id);
    var found := state.Activate(name);
    if !found {
      return Silent;
    }
    var title, keyboard := state.FullItemListKeyboard(pos);
    reply := Edit(title, keyboard);
  }

  /** `NextPreviousItemsHandler.__call__` after `int(data[2])`: the page start
      moves by ten, and the message is edited only if that page exists. */
  method NextPrevious(state: Bot.ItemsState, forward: bool, pos: int) returns (reply: Reply)
    requires state.Valid()
    ensures (state.Model(), reply) == AfterNavigate(state.Model(), forward, pos)
  {
    var current := Target(forward, pos);
    var title, keyboard := state.FullItemListKeyboard(current);
    if keyboard.Some? {
      reply := Edit(title, keyboard);
    } else {
      reply := Silent;
    }
  }

  /** A callback query with data `data`, routed as `main` registers the
      handlers. */
  method HandleCallback(state: Bot.ItemsState, data: string) returns (reply: Reply)
    requires state.Valid()
    modifies state, state.items.Values
    ensures state.Valid() && (state.Model(), reply) == Press(old(state.Model()), data)
  {
    match Decode(data)
    case None =>
      reply := Silent;
    case Some(Deactivate(id, back)) =>
      reply := DeactivateItem(state, id, back);
    case Some(Activate(id, pos)) =>
      reply := ActivateItem(state, id, pos);
    case Some(Navigate(forward, pos)) =>
      reply := NextPrevious(state, forward, pos);
  }

  // ---------------------------------------------------------------------------
  // Pressing the buttons the keyboards show

  /** The j-th button of the active list deactivates the item it shows, and
      only that one, and the message becomes the active list without it. */
  lemma PressActiveRow(s: Snapshot, j: int) returns (i: int)
    requires WellFormed(s) && 0 <= j < |ActiveKeyboard(Entries(s))|
    ensures 0 <= i < |s.keys| && s.flags[s.keys[i]].active
    ensures ActiveKeyboard(Entries(s))[j][0].text == Label(true, s.keys[i])
    ensures var s' := SetActive(s, s.keys[i], false);
      && Press(s, ActiveKeyboard(Entries(s))[j][0].data) == (s', Edit(ActiveTitle, Some(ActiveKeyboard(Entries(s')))))
      && !s'.flags[s.keys[i]].active
  {
    var es := Entries(s);
    var rows := ActiveKeyboardExact(es);
    i := rows[j];
    var e := es[i];
    assert e in es;
    ButtonsResolve(s);
    var data := ActiveKeyboard(es)[j][0].data;
    assert Decode(data) == Some(Deactivate(e.id, ToActive));
    assert Press(s, data) == AfterDeactivate(s, e.id, ToActive);
  }

  /** The button of row i on the page of the full list that starts at pos
      flips that item, and only that one, and the message becomes the same
      page of the updated list. */
  lemma PressFullRow(s: Snapshot, pos: int, i: int)
    requires WellFormed(s) && 0 <= pos <= i < WindowEnd(|s.keys|, pos)
    ensures FullView(Entries(s), pos).1.Some?
    ensures var kb := FullView(Entries(s), pos).1.value;
      var k := s.keys[i];
      var s' := SetActive(s, k, !s.flags[k].active);
      && kb[i - pos][0].text == Label(s.flags[k].active, k)
      && Press(s, kb[i - pos][0].data) == (s', Edit(FullView(Entries(s'), pos).0, FullView(Entries(s'), pos).1))
      && s'.flags[k].active == !s.flags[k].active
  {
    var es := Entries(s);
    FullViewExact(es, pos);
    var kb: Keyboard := FullView(es, pos).1.value;
    assert es[i] in es;
    PressFullAction(s, es[i], pos, kb[i - pos][0].data);
  }

  /** Data that decodes to the full-list action of a listed item flips that
      item and shows the same page of the updated list. */
  lemma PressFullAction(s: Snapshot, e: Entry, pos: int, data: string)
    requires WellFormed(s) && e in Entries(s) && Decode(data) == Some(FullAction(e, pos))
    ensures var s' := SetActive(s, e.name, !e.active);
      Press(s, data) == (s', Edit(FullView(Entries(s'), pos).0, FullView(Entries(s'), pos).1))
  {
    ButtonsResolve(s);
    SetActiveSpec(s, e.name, !e.active);
  }

  /** The navigation buttons of the page at pos change nothing and show the
      page ten rows back or on, or leave the message when that page would
      start outside the list. */
  lemma PressNavigation(s: Snapshot, pos: int, forward: bool)
    requires WellFormed(s) && 0 <= pos < |s.keys|
    ensures FullView(Entries(s), pos).1.Some?
    ensures var kb := FullView(Entries(s), pos).1.value;
      var next := Target(forward, pos);
      var r := Press(s, kb[|kb| - 1][if forward then 1 else 0].data);
      && r.0 == s
      && (0 <= next < |s.keys| ==> r.1 == Edit(FullView(Entries(s), next).0, FullView(Entries(s), next).1))
      && (next < 0 || next >= |s.keys| ==> r.1 == Silent)
  {
    var es := Entries(s);
    FullViewExact(es, pos);
    FullViewExact(es, Target(forward, pos));
  }
}
