/**
 The callback tokens carried by the inline buttons (bot_main.py): how the
 keyboard builders format them (a list name, an action and decimal numbers,
 joined by '|') and how the callback handlers take them apart again with
 `split('|')` and `int(...)`, after the handler patterns registered in
 `main` have chosen the handler.
 */
module Tokens {
  import opened Wrappers

  /** Rows shown per page of the full list, and the step of the navigation buttons. */
  const PageSize: int := 10

  const Separator: char := '|'

  // ---------------------------------------------------------------------------
  // Decimal numbers: f"{n}" and int(s)

  function DigitChar(d: int): char
    requires 0 <= d < 10
  {
    ('0' as int + d) as char
  }

  predicate IsDigit(c: char)
  {
    '0' <= c <= '9'
  }

  /** f"{n}" for a non-negative n: decimal digits, no leading zero. */
  function NatToString(n: nat): string
    decreases n
  {
    if n < 10 then [DigitChar(n)] else NatToString(n / 10) + [DigitChar(n % 10)]
  }

  /** f"{n}" for any integer. */
  function IntToString(n: int): string
  {
    if n < 0 then "-" + NatToString(-n) else NatToString(n)
  }

  predicate AllDigits(s: string)
  {
    forall i :: 0 <= i < |s| ==> IsDigit(s[i])
  }

  /** The value of a string of decimal digits. */
  function DigitsValue(s: string): nat
    requires AllDigits(s)
  {
    if s == [] then 0
    else
      var n := |s| - 1;
      DigitsValue(s[..n]) * 10 + (s[n] as int - '0' as int)
  }

  /** Python's int(s) on a string of ASCII digits with an optional sign;
      None where int raises ValueError. */
  function ParseInt(s: string): Option<int>
  {
    if |s| > 0 && (s[0] == '-' || s[0] == '+') then
      var body := s[1..];
      if |body| > 0 && AllDigits(body) then
        var v: int := DigitsValue(body);
        Some(if s[0] == '-' then -v else v)
      else None
    else if |s| > 0 && AllDigits(s) then Some(DigitsValue(s))
    else None
  }

  lemma {:induction false} NatToStringDigits(n: nat)
    ensures |NatToString(n)| > 0 && AllDigits(NatToString(n))
    ensures DigitsValue(NatToString(n)) == n
    decreases n
  {
    if n >= 10 {
      NatToStringDigits(n / 10);
      var s := NatToString(n);
      var p := NatToString(n / 10);
      assert s[..|s| - 1] == p;
    }
  }

  /** Formatting an integer and parsing it back gives the integer. */
  lemma IntRoundTrip(n: int)
    ensures ParseInt(IntToString(n)) == Some(n)
  {
    if n < 0 {
      NatToStringDigits(-n);
      assert IntToString(n)[1..] == NatToString(-n);
    } else {
      NatToStringDigits(n);
    }
  }

  // ---------------------------------------------------------------------------
  // Fields: "|".join(fields) and s.split('|')

  /** Python's s.split('|'): never empty; "" splits to [""]. */
  function Split(s: string): (r: seq<string>)
    ensures |r| >= 1
  {
    if s == [] then [""]
    else if s[0] == Separator then [""] + Split(s[1..])
    else
      var rest := Split(s[1..]);
      [[s[0]] + rest[0]] + rest[1..]
  }

  /** The fields written one after the other, separated by '|'. */
  function Join(fields: seq<string>): string
  {
    if fields == [] then ""
    else if |fields| == 1 then fields[0]
    else fields[0] + [Separator] + Join(fields[1..])
  }

  predicate Plain(field: string)
  {
    Separator !in field
  }

  /** A field without separators glues onto the first field of what follows it. */
  lemma {:induction false} SplitPlainPrefix(f: string, t: string)
    requires Plain(f)
    ensures Split(f + t) == [f + Split(t)[0]] + Split(t)[1..]
  {
    if f != [] {
      SplitPlainPrefix(f[1..], t);
      assert (f + t)[0] == f[0] != Separator;
      assert (f + t)[1..] == f[1..] + t;
      var rest := Split(f[1..] + t);
      assert rest[0] == f[1..] + Split(t)[0];
      assert rest[1..] == Split(t)[1..];
      assert Split(f + t) == [[f[0]] + rest[0]] + rest[1..];
      assert [f[0]] + (f[1..] + Split(t)[0]) == f + Split(t)[0];
    } else {
      assert f + t == t && f + Split(t)[0] == Split(t)[0];
      assert [Split(t)[0]] + Split(t)[1..] == Split(t);
    }
  }

  /** Splitting joined separator-free fields gives the fields back. */
  lemma {:induction false} SplitJoin(fields: seq<string>)
    requires |fields| >= 1
    requires forall i :: 0 <= i < |fields| ==> Plain(fields[i])
    ensures Split(Join(fields)) == fields
  {
    if |fields| == 1 {
      SplitPlainPrefix(fields[0], "");
      assert fields[0] + "" == fields[0];
    } else {
      var rest := Join(fields[1..]);
      SplitJoin(fields[1..]);
      SplitPlainPrefix(fields[0], [Separator] + rest);
      assert Join(fields) == fields[0] + ([Separator] + rest);
      assert ([Separator] + rest)[0] == Separator;
      assert ([Separator] + rest)[1..] == rest;
      assert Split([Separator] + rest) == [""] + fields[1..];
      assert fields[0] + "" == fields[0];
      assert [fields[0]] + fields[1..] == fields;
    }
  }

  lemma {:induction false} IntToStringPlain(n: int)
    ensures Plain(IntToString(n))
  {
    var d := NatToString(if n < 0 then -n else n);
    NatToStringDigits(if n < 0 then -n else n);
    var s := IntToString(n);
    assert s == if n < 0 then "-" + d else d;
    assert forall i :: 0 <= i < |s| ==> s[i] == '-' || IsDigit(s[i]);
  }

  // ---------------------------------------------------------------------------
  // Callback data

  /** Where a deactivate button returns to: the active list, or the full list
      at a page start; the page start is None when the token's fourth field
      is missing or is not a number. */
  datatype Back = ToActive | ToFull(pos: Option<int>)

  /** What a button press asks for, as the three callback handlers read it. */
  datatype Callback =
    | Deactivate(id: int, back: Back)
    | Activate(id: int, pos: int)
    | Navigate(forward: bool, pos: int)

  /** The fields of the token the keyboard builders write for a callback. */
  function Fields(cb: Callback): seq<string>
  {
    match cb
    case Deactivate(id, ToActive) => ["active_list", "deactivate", IntToString(id)]
    case Deactivate(id, ToFull(None)) => ["full_list", "deactivate", IntToString(id)]
    case Deactivate(id, ToFull(Some(pos))) => ["full_list", "deactivate", IntToString(id), IntToString(pos)]
    case Activate(id, pos) => ["full_list", "activate", IntToString(id), IntToString(pos)]
    case Navigate(forward, pos) => ["full_list", if forward then "show_next" else "show_previous", IntToString(pos)]
  }

  function Encode(cb: Callback): string
  {
    Join(Fields(cb))
  }

  /** The handler chosen by the registered patterns, and what it reads from
      the fields; None where no pattern matches or where `int(...)` fails
      before the handler touches the registry. */
  function Decode(data: string): Option<Callback>
  {
    Parse(Split(data))
  }

  /** What the handlers make of the fields of a token. */
  function Parse(f: seq<string>): Option<Callback>
  {
    if |f| >= 3 && (f[0] == "active_list" || f[0] == "full_list") && f[1] == "deactivate" then
      match ParseInt(f[2])
      case None => None
      case Some(id) =>
        Some(Deactivate(id, if f[0] == "active_list" then ToActive
                            else ToFull(if |f| >= 4 then ParseInt(f[3]) else None)))
    else if |f| >= 4 && f[0] == "full_list" && f[1] == "activate" then
      match (ParseInt(f[2]), ParseInt(f[3]))
      case (Some(id), Some(pos)) => Some(Activate(id, pos))
      case _ => None
    else if |f| >= 3 && f[0] == "full_list" && (f[1] == "show_next" || f[1] == "show_previous") then
      match ParseInt(f[2])
      case None => None
      case Some(pos) => Some(Navigate(f[1] == "show_next", pos))
    else None
  }

  /** No field of a token contains the separator. */
  lemma FieldsPlain(cb: Callback)
    ensures forall i :: 0 <= i < |Fields(cb)| ==> Plain(Fields(cb)[i])
  {
    match cb
    case Deactivate(id, back) =>
      IntToStringPlain(id);
      if back.ToFull? && back.pos.Some? { IntToStringPlain(back.pos.value); }
    case Activate(id, pos) =>
      IntToStringPlain(id);
      IntToStringPlain(pos);
    case Navigate(_, pos) =>
      IntToStringPlain(pos);
  }

  /** The fields of a callback parse back to it. */
  lemma ParseFields(cb: Callback)
    ensures Parse(Fields(cb)) == Some(cb)
  {
    match cb
    case Deactivate(id, back) =>
      IntRoundTrip(id);
      if back.ToFull? && back.pos.Some? { IntRoundTrip(back.pos.value); }
    case Activate(id, pos) =>
      IntRoundTrip(id);
      IntRoundTrip(pos);
    case Navigate(_, pos) =>
      IntRoundTrip(pos);
  }

  /** Every token the keyboards write is read back by the handlers as the same
      list, action, id and page start. */
  lemma DecodeEncode(cb: Callback)
    ensures Decode(Encode(cb)) == Some(cb)
  {
    FieldsPlain(cb);
    SplitJoin(Fields(cb));
    ParseFields(cb);
  }

  /** The page start a navigation button leads to. */
  function Target(forward: bool, pos: int): int
  {
    pos + (if forward then PageSize else -PageSize)
  }
}
