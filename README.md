# Shopping-list bot: a verified model of its item registry

The bot keeps a shopping list whose items come from a spreadsheet. Each item
has a name, a default flag and an active ("still to buy") flag. Users see two
inline keyboards:

- the active list, with one button per item still to buy;
- the full list, in pages of ten, with one button per item and a row of
  previous/next buttons.

Pressing a button sends back a callback token such as `full_list|activate|3|10`.
The bot splits the token on `|`, flips the item and redraws the keyboard.

This project models that core in Dafny:

- `spreadsheet.dfy` (module `Spreadsheet`): the reader's loop that zips the
  items column with the default column and drops blank names, and the
  filter of the users column (read_spreadsheet.py:32-40). The two columns
  are parameters.
- `tokens.dfy` (module `Tokens`): decimal formatting and Python's `int` on
  digit strings, `split('|')` and its inverse join, and the callback tokens.
  `Decode` gives the handler and arguments a token reaches through the
  registered patterns, and `DecodeEncode` proves that every token a
  keyboard writes is read back as the same callback.
- `registry.dfy` (module `Registry`): the registry as a value (`Snapshot`):
  - key order, per-item flags, the name-to-id dict and the users;
  - one function per operation (`Initial`, `Refresh`, `SetActive`, `ResetAll`,
    `NameForSlot`, `SlotForName`);
  - lemmas for the merge rules, the id lookups and reset.
- `views.dfy` (module `Views`): the two keyboards as functions of the items
  in insertion order, with exact descriptions of their rows and tokens.
- `bot.dfy` (module `Bot`): the classes `ItemState` and `ItemsState`.
  - Fields are updated in place and the dicts are rebuilt in loops, as in
    the source.
  - A ghost field `flags` mirrors the item objects' flags.
  - `Model()` reads the fields as a `Snapshot`, and every method is proved
    against the `Registry` and `Views` function for it.
- `handlers.dfy` (module `Handlers`): the decisions of the three callback
  handlers.
  - `Press` is the state change and reply for any callback data.
  - `HandleCallback` runs the same steps on the registry object.
  - The lemmas show what each button a keyboard shows does when pressed.
- `base.dfy`: `Option`, plus sequence helpers for a filtered comprehension,
  the key order of a dict filled by assignment, and an `enumerate` fill.

The source read (`read_items_list()`) is an input: the rows and the user list
the reader returned are parameters of the constructor, `UpdateList` and `Reset`.

Duplicate names in the read are modelled as Python dicts behave: a key keeps
the place of its first insertion and takes the value of its last assignment.
The constructor numbers each item by the row number of its last row, so with a
repeated name its ids are not the positions 0 .. N-1 (`RepeatedNameSkipsSlot`).
The ids still differ from item to item, so both lookups stay inverse
(`SlotRoundTrip`). `update_list` always renumbers by position (`RefreshShape`).

## Model

| member | source | states |
|---|---|---|
| Seqs.FilterMapSelects | read_spreadsheet.py:32-40 | a filtered comprehension keeps exactly the kept elements, in their original order, each mapped by f |
| Seqs.DedupPrefix | bot_main.py:67-75 | the key order after a prefix of the assignments is a prefix of the final key order |
| Seqs.DedupMembers | bot_main.py:55-57 | the key order lists every assigned key exactly once, and nothing else |
| Seqs.DedupDistinct | bot_main.py:55-57 | with distinct keys, the dict order is the assignment order |
| Seqs.EnumerateLast | bot_main.py:55-57 | an enumerate fill maps each element to the position of its last occurrence, and maps nothing else |
| Seqs.EnumerateInjective | bot_main.py:55-57 | an enumerate fill never gives two elements the same number |
| Seqs.EnumerateDistinct | bot_main.py:78-79 | over distinct keys, an enumerate fill maps each key to its own position |
| Spreadsheet.Zipped | read_spreadsheet.py:33-34 | the zip has one row per cell of the items column |
| Spreadsheet.ReadItemRows | read_spreadsheet.py:32-37 | the loop returns the named zipped rows in order, and every returned name is non-empty |
| Spreadsheet.ItemRowsExact | read_spreadsheet.py:32-37 | the output is at most as long as the items column; it has exactly the rows with a non-empty name, in column order, each with default true iff its default cell exists and is non-empty |
| Spreadsheet.UserIdsExact | read_spreadsheet.py:39-40 | the user list converts exactly the non-empty cells of the column, in order |
| Tokens.NatToStringDigits | bot_main.py:127 | a formatted natural number is a non-empty digit string whose value is the number |
| Tokens.IntRoundTrip | bot_main.py:198 | `int` of a formatted integer gives the integer back |
| Tokens.Split | bot_main.py:196 | splitting always yields at least one field |
| Tokens.SplitPlainPrefix | bot_main.py:196 | a separator-free field followed by more text stays glued to the first field of that text |
| Tokens.SplitJoin | bot_main.py:196 | splitting separator-free fields joined by the separator gives the fields back |
| Tokens.IntToStringPlain | bot_main.py:147-151 | a formatted integer contains no separator |
| Tokens.FieldsPlain | bot_main.py:127 | no field of a token contains the separator |
| Tokens.ParseFields | bot_main.py:196-206 | the handlers read the fields of any token back as the callback they were written for |
| Tokens.DecodeEncode | bot_main.py:147-151 | every token the keyboards write decodes to the same list, action, id and page start |
| Registry.Names | bot_main.py:67 | the names the merge loop visits are one per row of the read, in row order |
| Registry.NamesPrefix | bot_main.py:67 | the names of a prefix of the read are the prefix of its names |
| Registry.NamesSnoc | bot_main.py:67 | one more row adds its name at the end |
| Registry.MergeFlagsSpec | bot_main.py:59-79 | an item exists iff the read names it; its default comes from the last row naming it; a known item keeps its active flag and a new one starts at its default |
| Registry.FirstWithIdFinds | bot_main.py:81-84 | the id lookup finds the first key, in dict order, with that id |
| Registry.FirstWithIdMissing | bot_main.py:86 | the id lookup gives "" when no key has that id |
| Registry.SlotRoundTrip | bot_main.py:81-92 | a name has an id iff it is an item, and looking up the item of that id gives the name back |
| Registry.EnumeratedSlots | bot_main.py:76-92 | when ids are positions, each position 0 .. N-1 names its own item, both lookups are inverse, and every other number names nothing |
| Registry.InitialState | bot_main.py:46-57 | after construction there is one item per distinct name, active iff the default of its last row, with the row number of that row as its id; the users are the read's; with distinct names the ids are the positions |
| Registry.RepeatedNameSkipsSlot | bot_main.py:55-57 | with two rows "milk", the constructor leaves one item whose id is 1, and id 0 names nothing |
| Registry.RefreshShape | bot_main.py:59-79 | after the refresh, the items are exactly the names of the read, in order of first appearance, numbered by position; the users are replaced |
| Registry.RefreshMerge | bot_main.py:67-79 | a surviving item keeps its active flag and takes the new default; a new item starts at its default; a dropped item is gone from both dicts |
| Registry.SetActiveSpec | bot_main.py:94-111 | activate or deactivate sets the named item's active flag and nothing else; an unknown name changes nothing |
| Registry.SetActiveFlipsOne | bot_main.py:94-111 | activate or deactivate changes the active flag of at most one item, and no key, id, user or default |
| Registry.LastToggleWins | bot_main.py:94-111 | toggling the same item twice is the second toggle alone, so activate and deactivate are idempotent |
| Registry.ResetState | bot_main.py:113-117 | after reset the items are exactly the latest read's names, numbered by position, each active iff its default from that read |
| Views.ActiveKeyboard | bot_main.py:127 | every row of the active list holds one button |
| Views.ActiveKeyboardExact | bot_main.py:119-129 | the active list has one single-button row per active item, in order, and nothing else; each button shows the item with the active glyph, and its token decodes to "deactivate this id, then show the active list" |
| Views.WindowRows | bot_main.py:145-149 | the window has one row per item |
| Views.WindowRowsSnoc | bot_main.py:145-149 | the window grows by one row per item |
| Views.WindowRowsDecode | bot_main.py:145-149 | each window row shows its item, and its token decodes to deactivate if the item is active and activate if not, with the page start |
| Views.FullViewExact | bot_main.py:131-153 | the full list is ("", None) iff the page start is outside the list; otherwise its title is "Full list pos:end", it has one row per item of the window in order, each with the right action, then exactly one row of two buttons that decode to previous and next page |
| Views.PagesTile | bot_main.py:141-145 | pages tile the list: item i is row i mod 10 of the page that starts at 10 * (i div 10) |
| Views.PageStartIsMultiple | bot_main.py:247 | k presses of the next-page button from page 0 reach page start 10k |
| Views.ButtonsResolve | bot_main.py:127 | on any well-formed registry, a button's id looks up the very item the button shows |
| Bot.ItemState.constructor | bot_main.py:18-23 | a new item has the given name and default, and is active iff its default |
| Bot.ItemState.Activate | bot_main.py:28-30 | the item becomes active; its default is unchanged |
| Bot.ItemState.Deactivate | bot_main.py:32-34 | the item becomes inactive; its default is unchanged |
| Bot.ItemState.Reset | bot_main.py:36-38 | the item is active iff its default; its default is unchanged |
| Bot.ItemState.MakeButton | bot_main.py:40-43 | the label is the glyph, a space and the name; the glyph is green iff the item is active and red iff not; the data is the token passed in |
| Bot.MirrorsDrop | bot_main.py:69-70 | bookkeeping for the ghost flags: before the item at one key is replaced or changed in place, every other key's item still carries its recorded flags |
| Bot.MirrorsPut | bot_main.py:69-72 | pointing a key at an item records that item's flags at the key |
| Bot.KeysStep | bot_main.py:56 | one more row adds its name to the key order unless the name is already there |
| Bot.AddRow | bot_main.py:55-57 | one turn of the constructor loop keeps the keys in first-insertion order, one new item per key, and each key numbered by its last row |
| Bot.Build | bot_main.py:55-57 | the constructor loop gives the deduplicated names as keys, the enumerate numbering as ids, and items whose flags are those of the merge with no known items |
| Bot.ShapeStep | bot_main.py:67-72 | adding one row's item keeps the key order, the item names and the reuse of known item objects |
| Bot.CarryOver | bot_main.py:68-70 | a row naming a known item carries over the same object with the row's default and its live active flag |
| Bot.SetDefault | bot_main.py:70 | setting one item's default changes no other item's flags and no active flag |
| Bot.AddNew | bot_main.py:71-73 | a row naming no known item adds a new object, active iff its default |
| Bot.NewItem | bot_main.py:72-73 | a new, reset item has the given name and default and is active iff its default |
| Bot.MergeRead | bot_main.py:60-75 | the merge loop gives the deduplicated names as keys; their flags are the merge of the live flags with the read; known items keep their objects and new ones are fresh |
| Bot.Numbering | bot_main.py:76-79 | the renumbering maps each key to its position |
| Bot.ResetItems | bot_main.py:116-117 | after the reset loop every item is active iff its default |
| Bot.ItemsState.constructor | bot_main.py:46-57 | the new registry is valid and equals the initial state of the read |
| Bot.ItemsState.UpdateList | bot_main.py:59-79 | the registry stays valid and becomes the refresh of its old state by the read; surviving items keep their objects and new ones are fresh |
| Bot.ItemsState.Install | bot_main.py:75-79 | the rebuilt dicts and the users replace the old ones and the registry is valid |
| Bot.ItemsState.GetItemById | bot_main.py:81-86 | the result is a name with that id if any has it, and "" if none does |
| Bot.ItemsState.GetIdByItem | bot_main.py:88-92 | a name has an id iff it is an item, and that id leads back to it |
| Bot.ItemsState.Activate | bot_main.py:94-101 | the result is true iff the name is an item; the registry becomes SetActive(old, name, true) |
| Bot.ItemsState.Deactivate | bot_main.py:103-111 | the result is true iff the name is an item; the registry becomes SetActive(old, name, false) |
| Bot.ItemsState.Reset | bot_main.py:113-117 | the registry becomes the refresh by the read with every item back at its default |
| Bot.ItemsState.ActiveItemListKeyboard | bot_main.py:119-129 | the title is "To buy list" and the keyboard is the active list of the current items; the state is not changed |
| Bot.ItemsState.ActiveRows | bot_main.py:126-127 | one loop turn gives the item's row if it is active and nothing if not |
| Bot.ItemsState.Window | bot_main.py:143-149 | the loop gives one row per item of the window, in order |
| Bot.ItemsState.WindowRow | bot_main.py:146-149 | one loop turn gives the item's full-list row |
| Bot.ItemsState.FullItemListKeyboard | bot_main.py:131-153 | the result is the full list of the current items at that page start |
| Handlers.Press | bot_main.py:190-254 | a press keeps the registry well formed; data no handler reads changes nothing; no key, id, user or default changes, and at most one active flag does |
| Handlers.DeactivateItem | bot_main.py:198-212 | the deactivate handler gives the state and reply of its specification |
| Handlers.ActivateItem | bot_main.py:221-232 | the activate handler gives the state and reply of its specification |
| Handlers.NextPrevious | bot_main.py:243-254 | the navigation handler changes nothing and shows the page ten rows on or back, or leaves the message when there is no such page |
| Handlers.HandleCallback | bot_main.py:196-254 | routing the data to a handler gives the state and reply of Press |
| Handlers.PressActiveRow | bot_main.py:119-129 | pressing the j-th button of the active list deactivates the item it shows, and only that one, and redraws the active list |
| Handlers.PressFullRow | bot_main.py:145-149 | pressing an item's button on a full-list page flips that item, and only that one, and redraws the same page |
| Handlers.PressFullAction | bot_main.py:202-232 | data decoding to an item's full-list action flips that item and redraws the same page |
| Handlers.PressNavigation | bot_main.py:238-254 | the navigation buttons change nothing; they show the page ten rows back or on if it starts inside the list, and leave the message otherwise |

## Left out

- The Telegram transport is not modelled: async handlers, `send_message`, `edit_message_text`, `query.answer`, `start`, `main`, `run_polling` and the message handlers of the main menu. A handler's edit is returned as a `Reply` value.
- `UserFilter` is not modelled. It is a membership test inside the Telegram library's filter machinery.
- Logging is not modelled; it is observability only.
- Telegram keyboard objects are records: a button is its label and its callback data, and a keyboard is its rows.
- The spreadsheet access is not modelled: gspread authentication, the column reads (read_spreadsheet.py:16-30,39) and the `__main__` print blocks. The columns and the read are parameters.
- read_filelist.py is not part of this model. It only opens a file and calls library string functions.
- Tokens.ParseInt: accepts only an optional sign followed by ASCII digits. Python's `int` also accepts surrounding whitespace, underscores between digits and non-ASCII digits. The keyboards never write such tokens.
- Spreadsheet.UserIdsExact: Python's `int` on a user cell is the parameter `toInt`. A cell `int` rejects (an exception in the source) is not modelled.
- Tokens.Decode: the patterns' `.+` does not match a newline. Every token the patterns would reject this way is also rejected by `ParseInt`, so the model does not distinguish the two.
- Handlers.AfterDeactivate: a full-list deactivate token without a readable page start deactivates the item and then raises in the source. The model gives the deactivated state and no reply. The keyboards never write such a token.
- The item flags are tracked through the ghost field `flags` of `ItemsState`, which mirrors the item objects. The registry methods' contracts use `old` and `fresh`; what they state is also proved on values by the `Registry` lemmas, `Press` and the `Press...` lemmas.
