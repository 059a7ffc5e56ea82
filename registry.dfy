/**
 The item registry of bot_main.py (`ItemsState`) as a value: the key order of
 its `items_state` dict, each item's (default, active) flags, the
 `item_to_id` dict and the user list. The class in bot.dfy keeps one of these
 as its abstract state; the functions here say what each of its operations
 does to it, and the lemmas say what that means.
 */
module Registry {
  import opened Wrappers
  import opened Seqs
  import opened Spreadsheet

  /** The two flags of an `ItemState`. */
  datatype Flags = Flags(default: bool, active: bool)

  /** keys: insertion order of `items_state` (and of `item_to_id`, which is
      always filled in the same order); flags: per item; ids: `item_to_id`. */
  datatype Snapshot = Snapshot(keys: seq<string>, flags: map<string, Flags>, ids: map<string, nat>, users: seq<int>)

  /** What every operation keeps: one entry per key in each dict, and no id
      shared by two items. */
  ghost predicate WellFormed(s: Snapshot)
  {
    && Distinct(s.keys)
    && (forall k :: k in s.flags <==> k in s.keys)
    && (forall k :: k in s.ids <==> k in s.keys)
    && (forall x, y :: x in s.ids && y in s.ids && s.ids[x] == s.ids[y] ==> x == y)
  }

  /** Every item's id is its 0-based position in insertion order. */
  ghost predicate Enumerated(s: Snapshot)
  {
    forall i :: 0 <= i < |s.keys| ==> s.keys[i] in s.ids && s.ids[s.keys[i]] == i
  }

  function Names(read: seq<Row>): (names: seq<string>)
    ensures |names| == |read|
  {
    seq(|read|, i requires 0 <= i < |read| => read[i].name)
  }

  lemma NamesPrefix(read: seq<Row>, m: nat)
    requires m <= |read|
    ensures Names(read[..m]) == Names(read)[..m]
  {
  }

  lemma NamesSnoc(read: seq<Row>, i: nat)
    requires i < |read|
    ensures Names(read[..i + 1]) == Names(read[..i]) + [read[i].name]
  {
  }

  /** Row j is the last row of the read naming k. */
  ghost predicate LastRow(read: seq<Row>, k: string, j: int)
  {
    0 <= j < |read| && read[j].name == k && forall j' :: j < j' < |read| ==> read[j'].name != k
  }

  /** The item dict the merge loop of `update_list` builds from a read, given
      the live flags of the items known before: a known item keeps its active
      flag, a new one starts at its default. With no live items this is the
      dict the constructor builds. */
  function MergeFlags(live: map<string, Flags>, read: seq<Row>): map<string, Flags>
  {
    if read == [] then map[]
    else
      var n := |read| - 1;
      var row := read[n];
      MergeFlags(live, read[..n])[row.name := Flags(row.default, if row.name in live then live[row.name].active else row.default)]
  }

  lemma MergeFlagsSnoc(live: map<string, Flags>, read: seq<Row>, i: nat)
    requires i < |read|
    ensures MergeFlags(live, read[..i + 1]) ==
      MergeFlags(live, read[..i])[read[i].name := Flags(read[i].default, if read[i].name in live then live[read[i].name].active else read[i].default)]
  {
    assert read[..i + 1][..i] == read[..i];
  }

  /** The merge rule, item by item: an item is present iff the read names it;
      its default comes from the last row naming it; a surviving item keeps
      its live active flag and a new one starts at that default. */
  lemma {:induction false} MergeFlagsSpec(live: map<string, Flags>, read: seq<Row>)
    ensures forall k :: k in MergeFlags(live, read) <==> k in Names(read)
    ensures forall k :: k in MergeFlags(live, read) ==>
      && k in Enumerate(Names(read))
      && var j := Enumerate(Names(read))[k];
      && LastRow(read, k, j)
      && MergeFlags(live, read)[k] == Flags(read[j].default, if k in live then live[k].active else read[j].default)
  {
    if read != [] {
      var n := |read| - 1;
      var row := read[n];
      var prefix := read[..n];
      MergeFlagsSpec(live, prefix);
      NamesPrefix(read, n);
      assert Names(read) == Names(prefix) + [row.name];
      var m, p := MergeFlags(live, read), MergeFlags(live, prefix);
      var e, ep := Enumerate(Names(read)), Enumerate(Names(prefix));
      assert e == ep[row.name := n];
      assert m == p[row.name := Flags(row.default, if row.name in live then live[row.name].active else row.default)];
      forall k | k in m
        ensures k in e && LastRow(read, k, e[k])
        ensures m[k] == Flags(read[e[k]].default, if k in live then live[k].active else read[e[k]].default)
      {
        if k != row.name {
          assert prefix[ep[k]] == read[ep[k]];
        }
      }
    }
  }

  /** The state right after construction from a read. */
  function Initial(read: seq<Row>, users: seq<int>): Snapshot
  {
    var names := Names(read);
    Snapshot(Dedup(names), MergeFlags(map[], read), Enumerate(names), users)
  }

  /** The state after `update_list` with a fresh read. */
  function Refresh(s: Snapshot, read: seq<Row>, users: seq<int>): Snapshot
  {
    var keys := Dedup(Names(read));
    Snapshot(keys, MergeFlags(s.flags, read), Enumerate(keys), users)
  }

  /** `activate(name)` (on == true) and `deactivate(name)` (on == false). */
  function SetActive(s: Snapshot, name: string, on: bool): Snapshot
  {
    if name in s.flags then s.(flags := s.flags[name := s.flags[name].(active := on)]) else s
  }

  /** Every item back at its default, as the loop at the end of `reset` leaves it. */
  function ResetAll(s: Snapshot): Snapshot
  {
    s.(flags := map k | k in s.flags :: s.flags[k].(active := s.flags[k].default))
  }

  /** The first key, in dict order, whose id is num; "" when there is none. */
  function FirstWithId(keys: seq<string>, ids: map<string, nat>, num: int): string
  {
    if keys == [] then ""
    else if keys[0] in ids && ids[keys[0]] == num then keys[0]
    else FirstWithId(keys[1..], ids, num)
  }

  /** `get_item_by_id(num)` */
  function NameForSlot(s: Snapshot, num: int): string
  {
    FirstWithId(s.keys, s.ids, num)
  }

  /** `get_id_by_item(name)`; None stands for the "" the source returns. */
  function SlotForName(s: Snapshot, name: string): Option<nat>
  {
    if name in s.ids then Some(s.ids[name]) else None
  }

  // ---------------------------------------------------------------------------
  // The lookups

  lemma {:induction false} FirstWithIdFinds(keys: seq<string>, ids: map<string, nat>, i: int)
    requires 0 <= i < |keys| && keys[i] in ids
    requires forall j :: 0 <= j < i ==> keys[j] !in ids || ids[keys[j]] != ids[keys[i]]
    ensures FirstWithId(keys, ids, ids[keys[i]]) == keys[i]
  {
    if i > 0 {
      FirstWithIdFinds(keys[1..], ids, i - 1);
    }
  }

  lemma {:induction false} FirstWithIdMissing(keys: seq<string>, ids: map<string, nat>, num: int)
    requires forall j :: 0 <= j < |keys| ==> keys[j] !in ids || ids[keys[j]] != num
    ensures FirstWithId(keys, ids, num) == ""
  {
    if keys != [] {
      FirstWithIdMissing(keys[1..], ids, num);
    }
  }

  /** `get_item_by_id(get_id_by_item(k)) == k` for every current item; an
      unknown name has no id. */
  lemma SlotRoundTrip(s: Snapshot)
    requires WellFormed(s)
    ensures forall k :: k in s.keys <==> SlotForName(s, k).Some?
    ensures forall k :: k in s.keys ==> NameForSlot(s, SlotForName(s, k).value) == k
  {
    forall k | k in s.keys ensures NameForSlot(s, s.ids[k]) == k {
      var i :| 0 <= i < |s.keys| && s.keys[i] == k;
      FirstWithIdFinds(s.keys, s.ids, i);
    }
  }

  /** When ids are positions, they cover exactly [0, N): each position names
      its own item, both lookups are inverse, and any other number names
      nothing. */
  lemma EnumeratedSlots(s: Snapshot)
    requires WellFormed(s) && Enumerated(s)
    ensures forall i :: 0 <= i < |s.keys| ==>
      NameForSlot(s, i) == s.keys[i] && SlotForName(s, NameForSlot(s, i)) == Some(i)
    ensures forall num :: (num < 0 || num >= |s.keys|) ==> NameForSlot(s, num) == ""
  {
    forall i | 0 <= i < |s.keys| ensures NameForSlot(s, i) == s.keys[i] {
      FirstWithIdFinds(s.keys, s.ids, i);
    }
    forall num | num < 0 || num >= |s.keys| ensures NameForSlot(s, num) == "" {
      FirstWithIdMissing(s.keys, s.ids, num);
    }
  }

  // ---------------------------------------------------------------------------
  // Construction and refresh

  /** After construction: one item per distinct name, in order of first
      appearance, each active iff its default from the last row naming it;
      each id is the row number of that last row. With distinct names the ids
      are the positions 0 .. N-1. */
  lemma InitialState(read: seq<Row>, users: seq<int>)
    ensures WellFormed(Initial(read, users))
    ensures Initial(read, users).users == users
    ensures forall k :: k in Initial(read, users).keys <==> k in Names(read)
    ensures forall k :: k in Initial(read, users).keys ==>
      var j := Initial(read, users).ids[k];
      LastRow(read, k, j) && Initial(read, users).flags[k] == Flags(read[j].default, read[j].default)
    ensures Distinct(Names(read)) ==>
      Initial(read, users).keys == Names(read) && Enumerated(Initial(read, users))
  {
    var names := Names(read);
    DedupMembers(names);
    EnumerateLast(names);
    EnumerateInjective(names);
    MergeFlagsSpec(map[], read);
    if Distinct(names) {
      DedupDistinct(names);
      EnumerateDistinct(names);
    }
  }

  /** The constructor does not number items by position when a name repeats:
      two rows "milk" leave one item whose id is 1, and id 0 names nothing. */
  lemma RepeatedNameSkipsSlot()
    ensures var s := Initial([Row("milk", true), Row("milk", false)], []);
      && s.keys == ["milk"]
      && s.ids["milk"] == 1
      && NameForSlot(s, 0) == ""
      && s.flags["milk"] == Flags(false, false)
  {
    var milk := "milk";
    var read := [Row(milk, true), Row(milk, false)];
    assert Names(read) == [] + [milk] + [milk];
    DedupSnoc([], milk);
    DedupSnoc([milk], milk);
    EnumerateSnoc([], milk);
    EnumerateSnoc([milk], milk);
    MergeFlagsSnoc(map[], read, 0);
    MergeFlagsSnoc(map[], read, 1);
    assert read[..2] == read && read[..0] == [];
  }

  /** After `update_list`: the items are exactly the names of the read, in
      order of first appearance (the read's own order when names are
      distinct), numbered 0 .. N-1; the users are the read's users. */
  lemma RefreshShape(s: Snapshot, read: seq<Row>, users: seq<int>)
    ensures WellFormed(Refresh(s, read, users)) && Enumerated(Refresh(s, read, users))
    ensures Refresh(s, read, users).users == users
    ensures forall k :: k in Refresh(s, read, users).keys <==> k in Names(read)
    ensures forall m :: 0 <= m <= |read| ==> Dedup(Names(read[..m])) <= Refresh(s, read, users).keys
    ensures Distinct(Names(read)) ==> Refresh(s, read, users).keys == Names(read)
  {
    var names := Names(read);
    var keys := Dedup(names);
    DedupMembers(names);
    EnumerateDistinct(keys);
    EnumerateLast(keys);
    MergeFlagsSpec(s.flags, read);
    forall m | 0 <= m <= |read| ensures Dedup(Names(read[..m])) <= keys {
      NamesPrefix(read, m);
      DedupPrefix(names, m);
    }
    if Distinct(names) {
      DedupDistinct(names);
    }
  }

  /** The merge rules of `update_list`: a surviving item keeps its live active
      flag and takes the new default, a new item starts active iff its
      default, and an item the read no longer names is gone from both dicts. */
  lemma RefreshMerge(s: Snapshot, read: seq<Row>, users: seq<int>, k: string)
    ensures var r := Refresh(s, read, users);
      && (k in r.flags <==> k in Names(read))
      && (k !in Names(read) ==> k !in r.keys && k !in r.ids)
      && (k in r.flags ==>
          && k in Enumerate(Names(read))
          && var j := Enumerate(Names(read))[k];
          && LastRow(read, k, j)
          && r.flags[k].default == read[j].default
          && r.flags[k].active == if k in s.flags then s.flags[k].active else read[j].default)
  {
    MergeFlagsSpec(s.flags, read);
    RefreshShape(s, read, users);
  }

  // ---------------------------------------------------------------------------
  // Toggling and reset

  /** `activate`/`deactivate` change only the named item's active flag, and
      nothing at all for an unknown name. */
  lemma SetActiveSpec(s: Snapshot, name: string, on: bool)
    requires WellFormed(s)
    ensures WellFormed(SetActive(s, name, on))
    ensures Enumerated(s) ==> Enumerated(SetActive(s, name, on))
    ensures name !in s.keys ==> SetActive(s, name, on) == s
    ensures name in s.keys ==> SetActive(s, name, on).flags[name] == Flags(s.flags[name].default, on)
    ensures forall k :: k in s.flags && k != name ==> SetActive(s, name, on).flags[k] == s.flags[k]
    ensures SetActive(s, name, on).keys == s.keys && SetActive(s, name, on).ids == s.ids
    ensures SetActive(s, name, on).users == s.users
  {
  }

  /** t differs from s in the active flag of one item at most: the items,
      their ids, the users and every default are those of s. */
  ghost predicate FlipsAtMostOne(s: Snapshot, t: Snapshot)
  {
    && t.keys == s.keys && t.ids == s.ids && t.users == s.users
    && (forall k :: k in s.flags <==> k in t.flags)
    && (forall k :: k in s.flags ==> t.flags[k].default == s.flags[k].default)
    && (forall k, k' :: k in s.flags && k' in s.flags && t.flags[k] != s.flags[k] && t.flags[k'] != s.flags[k'] ==> k == k')
  }

  lemma SetActiveFlipsOne(s: Snapshot, name: string, on: bool)
    requires WellFormed(s)
    ensures FlipsAtMostOne(s, SetActive(s, name, on))
  {
    SetActiveSpec(s, name, on);
  }

  /** Toggling is idempotent and the last toggle wins. */
  lemma LastToggleWins(s: Snapshot, name: string, first: bool, second: bool)
    ensures SetActive(SetActive(s, name, first), name, second) == SetActive(s, name, second)
  {
  }

  /** After `reset`: the items are exactly the names of the latest read and
      every one is active iff its default in that read. */
  lemma ResetState(s: Snapshot, read: seq<Row>, users: seq<int>)
    ensures var r := ResetAll(Refresh(s, read, users));
      && WellFormed(r) && Enumerated(r) && r.users == users
      && (forall k :: k in r.keys <==> k in Names(read))
      && forall k :: k in r.keys ==>
        && k in Enumerate(Names(read))
        && var j := Enumerate(Names(read))[k];
        LastRow(read, k, j) && r.flags[k] == Flags(read[j].default, read[j].default)
  {
    RefreshShape(s, read, users);
    MergeFlagsSpec(s.flags, read);
  }
}
