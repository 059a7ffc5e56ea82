/**
 The two keyboards of bot_main.py, `active_item_list_keyboard` and
 `full_item_list_keyboard`, as functions of the items in insertion order.
 A button is its label text and its callback data; the keyboard is its list
 of button rows.
 */
module Views {
  import opened Wrappers
  import opened Seqs
  import opened Tokens
  import opened Registry

  /** The status glyphs of `make_button`: green circle, red circle. */
  const Green: char := '\U{1F7E2}'
  const Red: char := '\U{1F534}'

  datatype Button = Button(text: string, data: string)

  type Keyboard = seq<seq<Button>>

  /** f"{symbol} {name}" */
  function Label(active: bool, name: string): string
  {
    [if active then Green else Red] + " " + name
  }

  /** An item as the keyboard builders see it: its name, its active flag and
      the id `get_id_by_item` gives it. */
  datatype Entry = Entry(name: string, active: bool, id: int)

  /** The items in insertion order. */
  function Entries(s: Snapshot): (es: seq<Entry>)
    requires WellFormed(s)
    ensures |es| == |s.keys|
    ensures forall i :: 0 <= i < |es| ==>
      es[i] == Entry(s.keys[i], s.flags[s.keys[i]].active, s.ids[s.keys[i]])
  {
    seq(|s.keys|, i requires 0 <= i < |s.keys| => Entry(s.keys[i], s.flags[s.keys[i]].active, s.ids[s.keys[i]]))
  }

  // ---------------------------------------------------------------------------
  // The active-only list

  const ActiveTitle: string := "To buy list"

  predicate IsActive(e: Entry)
  {
    e.active
  }

  function ActiveRow(e: Entry): seq<Button>
  {
    [Button(Label(e.active, e.name), Encode(Deactivate(e.id, ToActive)))]
  }

  /** One row per active item, in order. */
  function ActiveKeyboard(es: seq<Entry>): (kb: Keyboard)
    ensures forall j :: 0 <= j < |kb| ==> |kb[j]| == 1
  {
    FilterMapKeptAt(es, IsActive, ActiveRow);
    FilterMap(es, IsActive, ActiveRow)
  }

  /** The active list grows by one row per active item. */
  lemma ActiveKeyboardSnoc(es: seq<Entry>, i: int)
    requires 0 <= i < |es|
    ensures ActiveKeyboard(es[..i + 1]) == ActiveKeyboard(es[..i]) + (if es[i].active then [ActiveRow(es[i])] else [])
  {
    assert es[..i + 1][..i] == es[..i];
  }

  /** The active list has one single-button row per active item, in order and
      nothing else; each button shows the item with the green glyph and its
      token reads back as "deactivate this id, then show the active list". */
  lemma ActiveKeyboardExact(es: seq<Entry>) returns (rows: seq<int>)
    ensures |ActiveKeyboard(es)| == |rows|
    ensures forall j, j' :: 0 <= j < j' < |rows| ==> rows[j] < rows[j']
    ensures forall i :: 0 <= i < |es| && es[i].active ==> i in rows
    ensures forall j :: 0 <= j < |rows| ==>
      && 0 <= rows[j] < |es| && es[rows[j]].active
      && |ActiveKeyboard(es)[j]| == 1
      && ActiveKeyboard(es)[j][0].text == Label(true, es[rows[j]].name)
      && Decode(ActiveKeyboard(es)[j][0].data) == Some(Deactivate(es[rows[j]].id, ToActive))
  {
    rows := FilterMapSelects(es, IsActive, ActiveRow);
    forall j | 0 <= j < |rows|
      ensures Decode(ActiveKeyboard(es)[j][0].data) == Some(Deactivate(es[rows[j]].id, ToActive))
    {
      DecodeEncode(Deactivate(es[rows[j]].id, ToActive));
    }
  }

  // ---------------------------------------------------------------------------
  // The paginated full list

  /** What the button of an item asks for on the full list at page start pos. */
  function FullAction(e: Entry, pos: int): Callback
  {
    if e.active then Deactivate(e.id, ToFull(Some(pos))) else Activate(e.id, pos)
  }

  function FullRow(e: Entry, pos: int): seq<Button>
  {
    [Button(Label(e.active, e.name), Encode(FullAction(e, pos)))]
  }

  function WindowRows(window: seq<Entry>, pos: int): (rows: Keyboard)
    ensures |rows| == |window|
  {
    seq(|window|, j requires 0 <= j < |window| => FullRow(window[j], pos))
  }

  /** The window grows by one row per item. */
  lemma WindowRowsSnoc(es: seq<Entry>, start: int, i: int, pos: int)
    requires 0 <= start <= i < |es|
    ensures WindowRows(es[start..i + 1], pos) == WindowRows(es[start..i], pos) + [FullRow(es[i], pos)]
  {
    assert es[start..i + 1] == es[start..i] + [es[i]];
  }

  function NavRow(pos: int): seq<Button>
  {
    [Button("<<=", Encode(Navigate(false, pos))), Button("=>>", Encode(Navigate(true, pos)))]
  }

  /** The end of the window that starts at pos. */
  function WindowEnd(n: int, pos: int): int
  {
    if pos + PageSize <= n then pos + PageSize else n
  }

  /** ("", None) for a page start outside the list; otherwise the title
      "Full list start:end", the window's rows and the navigation row. */
  function FullView(es: seq<Entry>, pos: int): (string, Option<Keyboard>)
  {
    if pos >= |es| || pos < 0 then ("", None)
    else
      var end := WindowEnd(|es|, pos);
      ("Full list " + IntToString(pos) + ":" + IntToString(end),
       Some(WindowRows(es[pos..end], pos) + [NavRow(pos)]))
  }

  /** Each window row shows its item and reads back as that item's action. */
  lemma WindowRowsDecode(window: seq<Entry>, pos: int)
    ensures forall j :: 0 <= j < |window| ==>
      && |WindowRows(window, pos)[j]| == 1
      && WindowRows(window, pos)[j][0].text == Label(window[j].active, window[j].name)
      && Decode(WindowRows(window, pos)[j][0].data) == Some(FullAction(window[j], pos))
  {
    forall j | 0 <= j < |window|
      ensures Decode(WindowRows(window, pos)[j][0].data) == Some(FullAction(window[j], pos))
    {
      DecodeEncode(FullAction(window[j], pos));
    }
  }

  /** The full list at page start pos: nothing iff pos is outside [0, N);
      otherwise one row per item of es[pos .. min(pos + 10, N)], in order,
      each reading back as "deactivate" for an active item and "activate" for
      an inactive one (both returning to pos), followed by exactly one row of
      two buttons that read back as "previous page" and "next page" from pos. */
  lemma FullViewExact(es: seq<Entry>, pos: int)
    ensures FullView(es, pos).1.None? <==> pos < 0 || pos >= |es|
    ensures FullView(es, pos).1.None? ==> FullView(es, pos).0 == ""
    ensures FullView(es, pos).1.Some? ==>
      var kb := FullView(es, pos).1.value;
      var end := WindowEnd(|es|, pos);
      && 0 <= pos < end <= |es|
      && FullView(es, pos).0 == "Full list " + IntToString(pos) + ":" + IntToString(end)
      && |kb| == end - pos + 1
      && (forall i :: pos <= i < end ==>
          && |kb[i - pos]| == 1
          && kb[i - pos][0].text == Label(es[i].active, es[i].name)
          && Decode(kb[i - pos][0].data) ==
             Some(if es[i].active then Deactivate(es[i].id, ToFull(Some(pos))) else Activate(es[i].id, pos)))
      && |kb[end - pos]| == 2
      && Decode(kb[end - pos][0].data) == Some(Navigate(false, pos))
      && Decode(kb[end - pos][1].data) == Some(Navigate(true, pos))
  {
    if 0 <= pos < |es| {
      var end := WindowEnd(|es|, pos);
      var w := es[pos..end];
      WindowRowsDecode(w, pos);
      var kb := WindowRows(w, pos) + [NavRow(pos)];
      assert FullView(es, pos).1.value == kb;
      forall i | pos <= i < end
        ensures kb[i - pos] == WindowRows(w, pos)[i - pos] && w[i - pos] == es[i]
      {
      }
      DecodeEncode(Navigate(false, pos));
      DecodeEncode(Navigate(true, pos));
    }
  }

  /** Pages tile the list: item i is row i mod 10 of the page that starts at
      10 * (i div 10), the page reached from page 0 by i div 10 presses of
      the next-page button. */
  lemma {:induction false} PagesTile(es: seq<Entry>, i: int)
    requires 0 <= i < |es|
    ensures var pos := PageStart(i / PageSize);
      && pos == i - i % PageSize
      && FullView(es, pos).1.Some?
      && i % PageSize < |FullView(es, pos).1.value| - 1
      && FullView(es, pos).1.value[i % PageSize] == FullRow(es[i], pos)
  {
    PageStartIsMultiple(i / PageSize);
  }

  /** The page start reached from 0 after k presses of the next-page button. */
  function PageStart(k: nat): int
  {
    if k == 0 then 0 else Target(true, PageStart(k - 1))
  }

  lemma {:induction false} PageStartIsMultiple(k: nat)
    ensures PageStart(k) == k * PageSize
  {
    if k > 0 {
      PageStartIsMultiple(k - 1);
    }
  }

  // ---------------------------------------------------------------------------
  // From the registry

  /** On every view of a well-formed registry, a button's id names, through
      `get_item_by_id`, the very item the button shows. */
  lemma ButtonsResolve(s: Snapshot)
    requires WellFormed(s)
    ensures forall e :: e in Entries(s) ==> NameForSlot(s, e.id) == e.name && e.name in s.keys
  {
    SlotRoundTrip(s);
  }
}
