/**
 The two state classes of bot_main.py: `ItemState`, one shopping-list item
 whose flags its methods set in place, and `ItemsState`, the registry that
 owns the items. The registry's dicts are fields that its methods rebuild in
 loops, as the source does; the ghost field `flags` mirrors the flags of the
 item objects, `Model()` reads the fields as a `Snapshot`, and each method's
 contract says what it does to that snapshot in terms of the functions of
 modules Registry and Views.
 The source read (`read_items_list()`) is a parameter: the rows and the user
 list the reader returned.
 */
module Bot {
  import opened Wrappers
  import opened Seqs
  import opened Spreadsheet
  import opened Tokens
  import opened Registry
  import opened Views

  class ItemState {
    const name: string
    var default: bool
    var active: bool

    /** A new item starts active iff its default. */
    constructor(name: string, default: bool)
      ensures this.name == name && this.default == default && active == default
    {
      this.name := name;
      this.default := default;
      this.active := default;
    }

    function IsActive(): bool
      reads this
    {
      active
    }

    method Activate()
      modifies this
      ensures active && default == old(default)
    {
      active := true;
    }

    method Deactivate()
      modifies this
      ensures !active && default == old(default)
    {
      active := false;
    }

    method Reset()
      modifies this
      ensures active == default && default == old(default)
    {
      active := default;
    }

    /** The button's text starts with the green glyph iff the item is active,
        then a space and the item's name; its callback data is `data`. */
    function MakeButton(data: string): (b: Button)
      reads this
      ensures |b.text| == |name| + 2 && b.text[2..] == name && b.text[1] == ' '
      ensures (b.text[0] == Green) == active && (b.text[0] == Red) == !active
      ensures b.data == data
    {
      Button(Label(active, name), data)
    }
  }

  /** The items a dict points to carry exactly the flags `flags` lists. */
  ghost predicate Mirrors(m: map<string, ItemState>, flags: map<string, Flags>)
    reads m.Values
  {
    && (forall k :: k in flags <==> k in m)
    && (forall k :: k in m ==> flags[k] == Flags(m[k].default, m[k].active))
  }

  /** Forgetting key k forgets its mirrored flags. */
  lemma MirrorsDrop(m: map<string, ItemState>, f: map<string, Flags>, k: string)
    requires Mirrors(m, f)
    ensures Mirrors(m - {k}, f - {k})
  {
  }

  /** Whatever the item at k carried before, pointing k at `item` mirrors
      its flags at k. */
  lemma MirrorsPut(m: map<string, ItemState>, f: map<string, Flags>, k: string, item: ItemState)
    requires Mirrors(m - {k}, f - {k})
    ensures Mirrors(m[k := item], f[k := Flags(item.default, item.active)])
  {
    forall k' | k' != k
      ensures k' in f <==> k' in m
    {
      assert k' in f <==> k' in f - {k};
      assert k' in m <==> k' in m - {k};
    }
    forall k' | k' in m && k' != k
      ensures k' in f && f[k'] == Flags(m[k'].default, m[k'].active)
    {
      assert k' in m - {k};
      assert k' in f - {k};
      assert (m - {k})[k'] == m[k'] && (f - {k})[k'] == f[k'];
    }
  }

  /** The invariant of `ItemsState`, on its three dicts: each key is listed
      once and has an item and an id; each item carries its own key as its
      name (so no two keys share an item object); no two keys share an id. */
  ghost predicate Coherent(keys: seq<string>, items: map<string, ItemState>, ids: map<string, nat>)
  {
    && Distinct(keys)
    && (forall k :: k in items <==> k in keys)
    && (forall k :: k in ids <==> k in keys)
    && (forall k :: k in items ==> items[k].name == k)
    && (forall x, y :: x in ids && y in ids && ids[x] == ids[y] ==> x == y)
  }

  /** The dict's key order after the first i rows: each name once, in order
      of first appearance. */
  ghost predicate Listed(read: seq<Row>, i: nat, ks: seq<string>)
  {
    i <= |read| && ks == Dedup(Names(read[..i])) && Distinct(ks)
  }

  /** One more row: its name joins the key order unless it is already there. */
  lemma KeysStep(read: seq<Row>, i: nat, ks: seq<string>)
    requires i < |read| && Listed(read, i, ks)
    ensures Listed(read, i + 1, if read[i].name in ks then ks else ks + [read[i].name])
  {
    NamesSnoc(read, i);
    DedupSnoc(Names(read[..i]), read[i].name);
  }

  /** What the loop of `ItemsState.__init__` has built after the first i rows:
      the keys in first-insertion order, one new item per key carrying the
      flags of the merge with no live items, and each key numbered by its
      last row. */
  ghost predicate Built(read: seq<Row>, i: nat, ks: seq<string>, m: map<string, ItemState>, ids: map<string, nat>)
    reads m.Values
  {
    && Listed(read, i, ks)
    && (forall k :: k in m <==> k in ks)
    && (forall k :: k in ids <==> k in ks)
    && (forall k :: k in m ==> m[k].name == k)
    && Mirrors(m, MergeFlags(map[], read[..i]))
    && ids == Enumerate(Names(read[..i]))
  }

  /** One turn of that loop: the row's name gets a new item with the row's
      default, and the row number as its id. */
  method AddRow(read: seq<Row>, i: nat, ks: seq<string>, m: map<string, ItemState>, ids: map<string, nat>)
    returns (ks': seq<string>, m': map<string, ItemState>, ids': map<string, nat>)
    requires i < |read| && Built(read, i, ks, m, ids)
    ensures Built(read, i + 1, ks', m', ids')
  {
    var row := read[i];
    var item := new ItemState(row.name, row.default);
    KeysStep(read, i, ks);
    NamesSnoc(read, i);
    EnumerateSnoc(Names(read[..i]), row.name);
    MergeFlagsSnoc(map[], read, i);
    MirrorsDrop(m, MergeFlags(map[], read[..i]), row.name);
    MirrorsPut(m, MergeFlags(map[], read[..i]), row.name, item);
    ks' := if row.name in m then ks else ks + [row.name];
    m' := m[row.name := item];
    ids' := ids[row.name := i];
  }

  /** Every key the two dicts share points at the same object in both. */
  ghost predicate Keeps(before: map<string, ItemState>, after: map<string, ItemState>)
  {
    forall k :: k in after && k in before ==> after[k] == before[k]
  }

  /** The part of the merge loop's state that no item's flags affect: after
      the first i rows, the keys in first-insertion order, each key's item
      carrying that key as its name, and a known item kept as the same
      object. */
  ghost predicate Shaped(live: map<string, Flags>, known: map<string, ItemState>,
                         ks: seq<string>, m: map<string, ItemState>)
  {
    && (forall k :: k in m <==> k in ks)
    && (forall k :: k in m ==> m[k].name == k)
    && Keeps(known, m)
    && (forall k :: k in known <==> k in live)
  }

  /** The known items still carry the active flags they had. */
  ghost predicate Actives(known: map<string, ItemState>, live: map<string, Flags>)
    reads known.Values
  {
    forall k :: k in known && k in live ==> known[k].active == live[k].active
  }

  /** The loop of `ItemsState.__init__`, over every row read. */
  method Build(read: seq<Row>) returns (ks: seq<string>, m: map<string, ItemState>, ids: map<string, nat>)
    ensures ks == Dedup(Names(read)) && ids == Enumerate(Names(read))
    ensures Coherent(ks, m, ids) && Mirrors(m, MergeFlags(map[], read))
  {
    ks, m, ids := [], map[], map[];
    for i := 0 to |read|
      invariant Built(read, i, ks, m, ids)
    {
      ks, m, ids := AddRow(read, i, ks, m, ids);
    }
    assert read[..|read|] == read;
    EnumerateInjective(Names(read));
  }

  /** What the merge loop of `update_list` has built after the first i rows,
      given the items known before (`known`) and their flags (`live`). */
  ghost predicate Merged(read: seq<Row>, i: nat, live: map<string, Flags>, known: map<string, ItemState>,
                         ks: seq<string>, m: map<string, ItemState>)
    reads m.Values, known.Values
  {
    && Listed(read, i, ks)
    && Shaped(live, known, ks, m)
    && Actives(known, live)
    && Mirrors(m, MergeFlags(live, read[..i]))
  }

  /** One more row, naming rn, whose item is `item`: a known item if rn
      names one. */
  lemma ShapeStep(rn: string, live: map<string, Flags>, known: map<string, ItemState>,
                  ks: seq<string>, m: map<string, ItemState>, item: ItemState)
    requires Shaped(live, known, ks, m) && item.name == rn
    requires rn in known ==> item == known[rn]
    ensures Shaped(live, known, if rn in m then ks else ks + [rn], m[rn := item])
  {
    var ks' := if rn in m then ks else ks + [rn];
    var m' := m[rn := item];
    assert forall k :: k in m' <==> k in ks';
    assert forall k :: k in m' ==> m'[k].name == k;
    assert Keeps(known, m');
  }

  /** A row naming a known item: the new dict points at the same object,
      which then takes the row's default. */
  method CarryOver(read: seq<Row>, i: nat, ghost live: map<string, Flags>, known: map<string, ItemState>,
                   ks: seq<string>, m: map<string, ItemState>)
    returns (ks': seq<string>, m': map<string, ItemState>)
    requires i < |read| && read[i].name in known && Merged(read, i, live, known, ks, m)
    requires forall k :: k in known ==> known[k].name == k
    modifies known[read[i].name]
    ensures Merged(read, i + 1, live, known, ks', m')
    ensures m' == m[read[i].name := known[read[i].name]]
  {
    var row := read[i];
    var item := known[row.name];
    KeysStep(read, i, ks);
    ShapeStep(row.name, live, known, ks, m, item);
    MergeFlagsSnoc(live, read, i);
    ghost var f := MergeFlags(live, read[..i]);
    assert MergeFlags(live, read[..i + 1]) == f[row.name := Flags(row.default, item.active)];
    ks' := if row.name in m then ks else ks + [row.name];
    m' := m[row.name := item];
    MirrorsDrop(m, f, row.name);
    assert item !in (m - {row.name}).Values by {
      assert forall k :: k in m && k != row.name ==> m[k].name != item.name;
    }
    SetDefault(item, row.default, m - {row.name}, f - {row.name}, known, live);
    MirrorsPut(m, f, row.name, item);
  }

  /** The carried-over item takes the row's default: only that item's default changes,
      so the other items still mirror their flags and every active flag stays. */
  method SetDefault(item: ItemState, d: bool, ghost rest: map<string, ItemState>, ghost f: map<string, Flags>,
                    ghost known: map<string, ItemState>, ghost live: map<string, Flags>)
    requires item !in rest.Values && Mirrors(rest, f) && Actives(known, live)
    modifies item
    ensures item.default == d && item.active == old(item.active)
    ensures Mirrors(rest, f) && Actives(known, live)
  {
    item.default := d;
    forall k | k in known && k in live
      ensures known[k].active == live[k].active
    {
      assert known[k].active == old(known[k].active);
    }
  }

  /** A row naming no known item: a new item, reset. */
  method AddNew(read: seq<Row>, i: nat, ghost live: map<string, Flags>, known: map<string, ItemState>,
                ks: seq<string>, m: map<string, ItemState>)
    returns (ks': seq<string>, m': map<string, ItemState>)
    requires i < |read| && read[i].name !in known && Merged(read, i, live, known, ks, m)
    ensures Merged(read, i + 1, live, known, ks', m')
    ensures read[i].name in m' && fresh(m'[read[i].name]) && m' == m[read[i].name := m'[read[i].name]]
  {
    var row := read[i];
    var item := NewItem(row.name, row.default);
    KeysStep(read, i, ks);
    ShapeStep(row.name, live, known, ks, m, item);
    MergeFlagsSnoc(live, read, i);
    ks' := if row.name in m then ks else ks + [row.name];
    m' := m[row.name := item];
    MirrorsDrop(m, MergeFlags(live, read[..i]), row.name);
    MirrorsPut(m, MergeFlags(live, read[..i]), row.name, item);
  }

  /** A new item for a row naming no known item, reset to its default. */
  method NewItem(name: string, default: bool) returns (item: ItemState)
    ensures fresh(item) && item.name == name && item.default == default && item.active == default
  {
    item := new ItemState(name, default);
    item.Reset();
  }

  /** The merge loop of `update_list`: `new_list` built from the read, the
      items known before (`known`, whose flags are `live`) carried over. */
  method MergeRead(known: map<string, ItemState>, ghost live: map<string, Flags>, read: seq<Row>)
    returns (ks: seq<string>, m: map<string, ItemState>)
    requires Mirrors(known, live)
    requires forall k :: k in known ==> known[k].name == k
    modifies known.Values
    ensures ks == Dedup(Names(read)) && Coherent(ks, m, Enumerate(ks))
    ensures Mirrors(m, MergeFlags(live, read))
    ensures Keeps(known, m)
    ensures forall k :: k in m && k !in known ==> fresh(m[k])
  {
    ks, m := [], map[];
    for i := 0 to |read|
      invariant Merged(read, i, live, known, ks, m)
      invariant forall k :: k in m && k !in known ==> fresh(m[k])
    {
      if read[i].name in known {
        ks, m := CarryOver(read, i, live, known, ks, m);
      } else {
        ks, m := AddNew(read, i, live, known, ks, m);
      }
    }
    assert read[..|read|] == read;
    EnumerateLast(ks);
    EnumerateInjective(ks);
  }

  /** The id loop of `update_list`: each key numbered by its position, into an empty dict. */
  method Numbering(ks: seq<string>) returns (ids: map<string, nat>)
    ensures ids == Enumerate(ks)
  {
    ids := map[];
    for i := 0 to |ks|
      invariant ids == Enumerate(ks[..i])
    {
      EnumerateSnoc(ks[..i], ks[i]);
      assert ks[..i + 1] == ks[..i] + [ks[i]];
      ids := ids[ks[i] := i];
    }
    assert ks[..|ks|] == ks;
  }

  /** The loop at the end of `reset`: every item, in dict order, back at
      its default. */
  method ResetItems(ks: seq<string>, m: map<string, ItemState>, ghost f: map<string, Flags>)
    requires Distinct(ks) && (forall k :: k in m <==> k in ks) && (forall k :: k in m ==> m[k].name == k)
    requires Mirrors(m, f)
    modifies m.Values
    ensures Mirrors(m, map k | k in f :: f[k].(active := f[k].default))
  {
    for i := 0 to |ks|
      invariant forall j :: 0 <= j < |ks| ==>
        Flags(m[ks[j]].default, m[ks[j]].active) ==
        if j < i then f[ks[j]].(active := f[ks[j]].default) else f[ks[j]]
    {
      m[ks[i]].Reset();
    }
  }

  class ItemsState {
    /** Insertion order of `items_state` and of `item_to_id`. */
    var keys: seq<string>
    /** `items_state` */
    var items: map<string, ItemState>
    /** `item_to_id` */
    var itemToId: map<string, nat>
    var users: seq<int>
    /** The (default, active) flags of the item objects. */
    ghost var flags: map<string, Flags>

    ghost predicate Valid()
      reads this, items.Values
    {
      Coherent(keys, items, itemToId) && Mirrors(items, flags)
    }

    ghost function Model(): Snapshot
      reads this
    {
      Snapshot(keys, flags, itemToId, users)
    }

    /** `ItemsState()` after `read_items_list()` returned (read, users). */
    constructor(read: seq<Row>, users: seq<int>)
      ensures Valid() && Model() == Initial(read, users)
    {
      var ks, m, ids := Build(read);
      keys := ks;
      items := m;
      itemToId := ids;
      this.users := users;
      flags := MergeFlags(map[], read);
    }

    /** `update_list` after `read_items_list()` returned (read, newUsers).
        Surviving items keep their object (its default overwritten); new
        items are new objects. */
    method UpdateList(read: seq<Row>, newUsers: seq<int>)
      requires Valid()
      modifies this, items.Values
      ensures Valid() && Model() == Refresh(old(Model()), read, newUsers)
      ensures Keeps(old(items), items)
      ensures forall k :: k in items && k !in old(items) ==> fresh(items[k])
    {
      var newKeys, newList := MergeRead(items, flags, read);
      var ids := Numbering(newKeys);
      Install(newUsers, newKeys, newList, ids, MergeFlags(flags, read));
    }

    /** The assignments that end `update_list`: the rebuilt dicts replace
        the old ones. */
    method Install(newUsers: seq<int>, newKeys: seq<string>, newList: map<string, ItemState>,
                   ids: map<string, nat>, ghost newFlags: map<string, Flags>)
      requires Coherent(newKeys, newList, ids) && Mirrors(newList, newFlags)
      modifies this
      ensures Valid()
      ensures users == newUsers && keys == newKeys && items == newList && itemToId == ids && flags == newFlags
    {
      users, items, keys, itemToId, flags := newUsers, newList, newKeys, ids, newFlags;
    }

    /** `get_item_by_id(num)`: the first item, in dict order, with id num, or
        "" when no item has it. */
    method GetItemById(num: int) returns (name: string)
      requires Valid()
      ensures name == NameForSlot(Model(), num)
      ensures (exists k :: k in itemToId && itemToId[k] == num) ==> name in itemToId && itemToId[name] == num
      ensures (forall k :: k in itemToId ==> itemToId[k] != num) ==> name == ""
    {
      var i := 0;
      while i < |keys|
        invariant 0 <= i <= |keys|
        invariant FirstWithId(keys[i..], itemToId, num) == FirstWithId(keys, itemToId, num)
        invariant forall j :: 0 <= j < i ==> itemToId[keys[j]] != num
      {
        if itemToId[keys[i]] == num {
          return keys[i];
        }
        assert keys[i..][1..] == keys[i + 1..];
        i := i + 1;
      }
      return "";
    }

    /** `get_id_by_item(name)`; None stands for the "" the source returns. The
        id of a known item leads back to it. */
    function GetIdByItem(name: string): (r: Option<nat>)
      requires Valid()
      reads this, items.Values
      ensures r.Some? <==> name in keys
      ensures r.Some? ==> NameForSlot(Model(), r.value) == name
    {
      SlotRoundTrip(Model());
      if name in itemToId then Some(itemToId[name]) else None
    }

    /** The ghost flags catch up with the items after one of them changed. */
    ghost method Record(f: map<string, Flags>)
      requires Coherent(keys, items, itemToId) && Mirrors(items, f)
      modifies this
      ensures Valid() && flags == f
      ensures keys == old(keys) && items == old(items) && itemToId == old(itemToId) && users == old(users)
    {
      flags := f;
    }

    /** `activate(name)`: true iff name is an item; then that item, and only
        that one, is active. */
    method Activate(name: string) returns (found: bool)
      requires Valid()
      modifies this, items.Values
      ensures Valid() && found == (name in keys)
      ensures Model() == SetActive(old(Model()), name, true)
      ensures items == old(items)
    {
      if name in items {
        var item := items[name];
        MirrorsDrop(items, flags, name);
        assert item !in (items - {name}).Values by {
          assert forall k :: k in items && k != name ==> items[k].name != item.name;
        }
        item.Activate();
        MirrorsPut(items, flags, name, item);
        Record(flags[name := flags[name].(active := true)]);
        return true;
      }
      return false;
    }

    /** `deactivate(name)`: true iff name is an item; then that item, and only
        that one, is inactive. */
    method Deactivate(name: string) returns (found: bool)
      requires Valid()
      modifies this, items.Values
      ensures Valid() && found == (name in keys)
      ensures Model() == SetActive(old(Model()), name, false)
      ensures items == old(items)
    {
      if name in items {
        var item := items[name];
        MirrorsDrop(items, flags, name);
        assert item !in (items - {name}).Values by {
          assert forall k :: k in items && k != name ==> items[k].name != item.name;
        }
        item.Deactivate();
        MirrorsPut(items, flags, name, item);
        Record(flags[name := flags[name].(active := false)]);
        return true;
      }
      return false;
    }

    /** `reset` after `read_items_list()` returned (read, newUsers): a refresh,
        then every item back at its default. */
    method Reset(read: seq<Row>, newUsers: seq<int>)
      requires Valid()
      modifies this, items.Values
      ensures Valid() && Model() == ResetAll(Refresh(old(Model()), read, newUsers))
    {
      UpdateList(read, newUsers);
      ResetItems(keys, items, flags);
      Record(map k | k in flags :: flags[k].(active := flags[k].default));
    }

    /** `active_item_list_keyboard()`: the title and the active list. */
    method ActiveItemListKeyboard() returns (title: string, keyboard: Keyboard)
      requires Valid()
      ensures title == ActiveTitle
      ensures keyboard == ActiveKeyboard(Entries(Model()))
    {
      keyboard := [];
      ghost var es := Entries(Model());
      for i := 0 to |keys|
        invariant keyboard == ActiveKeyboard(es[..i])
      {
        var rows := ActiveRows(i);
        keyboard := keyboard + rows;
        ActiveKeyboardSnoc(es, i);
      }
      assert es[..|keys|] == es;
      title := ActiveTitle;
    }

    /** One turn of that loop: a row for the i-th item if it is active, whose
        button deactivates it (then shows the active list). */
    method ActiveRows(i: int) returns (rows: Keyboard)
      requires Valid() && 0 <= i < |keys|
      ensures rows == if Entries(Model())[i].active then [ActiveRow(Entries(Model())[i])] else []
    {
      var item := keys[i];
      var state := items[item];
      rows := [];
      if state.IsActive() {
        var id := GetIdByItem(item);
        rows := [[state.MakeButton(Encode(Callback.Deactivate(id.value, ToActive)))]];
      }
    }

    /** The loop of `full_item_list_keyboard`: one row per item from start
        up to end, whose button activates or deactivates it. */
    method Window(start: int, end: int, pos: int) returns (rows: Keyboard)
      requires Valid() && 0 <= start <= end <= |keys|
      ensures rows == WindowRows(Entries(Model())[start..end], pos)
    {
      ghost var es := Entries(Model());
      rows := [];
      for i := start to end
        invariant rows == WindowRows(es[start..i], pos)
      {
        var row := WindowRow(i, pos);
        rows := rows + [row];
        WindowRowsSnoc(es, start, i, pos);
      }
    }

    /** One row of that loop: the i-th item's button, which deactivates an
        active item (then shows the page at pos) and activates an inactive one. */
    method WindowRow(i: int, pos: int) returns (row: seq<Button>)
      requires Valid() && 0 <= i < |keys|
      ensures row == FullRow(Entries(Model())[i], pos)
    {
      var item := keys[i];
      var state := items[item];
      var id := GetIdByItem(item);
      if state.IsActive() {
        row := [state.MakeButton(Encode(Callback.Deactivate(id.value, ToFull(Some(pos)))))];
      } else {
        row := [state.MakeButton(Encode(Callback.Activate(id.value, pos)))];
      }
    }

    /** `full_item_list_keyboard(pos)`: ("", None) outside the list, else the
        title and the page of the full list that starts at pos. */
    method FullItemListKeyboard(pos: int) returns (title: string, keyboard: Option<Keyboard>)
      requires Valid()
      ensures (title, keyboard) == FullView(Entries(Model()), pos)
    {
      var length := |keys|;
      if pos >= length || pos < 0 {
        return "", None;
      }
      var start := pos;
      var end := if pos + PageSize <= length then pos + PageSize else length;
      var rows := Window(start, end, pos);
      rows := rows + [[Button("<<=", Encode(Callback.Navigate(false, pos))), Button("=>>", Encode(Callback.Navigate(true, pos)))]];
      return "Full list " + IntToString(start) + ":" + IntToString(end), Some(rows);
    }
  }
}
