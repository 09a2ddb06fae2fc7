/** JSON trees of null, booleans, strings, arrays and objects, and the two texts cJSON prints for them. */

module JsonText {
  import opened Basics

  /** C strings: no NUL inside. */
  predicate NulFree(s: seq<byte>) {
    forall i :: 0 <= i < |s| ==> s[i] != 0
  }

  datatype Json =
    | Null
    | Bool(value: bool)
    | Str(text: seq<byte>)
    | Arr(items: seq<Json>)
    | Obj(members: seq<Member>)

  datatype Member = Member(key: seq<byte>, value: Json)

  const NUL: byte := 0
  const TAB: byte := 9
  const NEWLINE: byte := 10
  const SPACE: byte := 32
  const QUOTE: byte := 34
  const COMMA: byte := 44
  const SLASH: byte := 47
  const COLON: byte := 58
  const LBRACKET: byte := 91
  const BACKSLASH: byte := 92
  const RBRACKET: byte := 93
  const LOWER_U: byte := 117
  const LBRACE: byte := 123
  const RBRACE: byte := 125

  /** "null", "false" and "true" */
  const NULL_TEXT: seq<byte> := [110, 117, 108, 108]
  const FALSE_TEXT: seq<byte> := [102, 97, 108, 115, 101]
  const TRUE_TEXT: seq<byte> := [116, 114, 117, 101]

  // ---- Strings ----

  function HexDigit(n: nat): byte
    requires n < 16
  {
    if n < 10 then 48 + n else 87 + n
  }

  /** How print_string_ptr writes one byte. */
  function Escape(b: byte): seq<byte> {
    if b == QUOTE then [BACKSLASH, QUOTE]
    else if b == BACKSLASH then [BACKSLASH, BACKSLASH]
    else if b == 8 then [BACKSLASH, 98]
    else if b == 12 then [BACKSLASH, 102]
    else if b == NEWLINE then [BACKSLASH, 110]
    else if b == 13 then [BACKSLASH, 114]
    else if b == TAB then [BACKSLASH, 116]
    else if b < 32 then [BACKSLASH, LOWER_U, 48, 48, HexDigit(b / 16), HexDigit(b % 16)]
    else [b]
  }

  function EscapeAll(s: seq<byte>): seq<byte> {
    if s == [] then [] else Escape(s[0]) + EscapeAll(s[1..])
  }

  function PrintString(s: seq<byte>): seq<byte> {
    [QUOTE] + EscapeAll(s) + [QUOTE]
  }

  // ---- Values ----

  function Tabs(n: nat): seq<byte> {
    if n == 0 then [] else [TAB] + Tabs(n - 1)
  }

  /** What print_value writes for a tree at nesting depth `depth`. */
  function Print(v: Json, format: bool, depth: nat): seq<byte>
    decreases v, 1
  {
    match v
    case Null => NULL_TEXT
    case Bool(b) => if b then TRUE_TEXT else FALSE_TEXT
    case Str(s) => PrintString(s)
    case Arr(items) => [LBRACKET] + PrintItems(items, format, depth + 1) + [RBRACKET]
    case Obj(members) =>
      (if format then [LBRACE, NEWLINE] else [LBRACE])
      + PrintMembers(members, format, depth + 1)
      + (if format then Tabs(depth) + [RBRACE] else [RBRACE])
  }

  function ItemSeparator(format: bool): seq<byte> {
    if format then [COMMA, SPACE] else [COMMA]
  }

  function PrintItems(items: seq<Json>, format: bool, depth: nat): seq<byte>
    decreases items, 0
  {
    if items == [] then []
    else if |items| == 1 then Print(items[0], format, depth)
    else Print(items[0], format, depth) + (ItemSeparator(format) + PrintItems(items[1..], format, depth))
  }

  function Indent(format: bool, depth: nat): seq<byte> {
    if format then Tabs(depth) else []
  }

  function KeySeparator(format: bool): seq<byte> {
    if format then [COLON, TAB] else [COLON]
  }

  function MemberEnd(format: bool, last: bool): seq<byte> {
    (if last then [] else [COMMA]) + (if format then [NEWLINE] else [])
  }

  function PrintMembers(members: seq<Member>, format: bool, depth: nat): seq<byte>
    decreases members, 0
  {
    if members == [] then []
    else
      Indent(format, depth)
      + (PrintString(members[0].key)
         + (KeySeparator(format)
            + (Print(members[0].value, format, depth)
               + (MemberEnd(format, |members| == 1)
                  + PrintMembers(members[1..], format, depth)))))
  }

  // ---- Trees cJSON can hold ----

  function Max(a: nat, b: nat): nat {
    if a < b then b else a
  }

  /** How deeply arrays and objects are nested. */
  function Depth(v: Json): nat
    decreases v, 1
  {
    match v
    case Arr(items) => 1 + ItemsDepth(items)
    case Obj(members) => 1 + MembersDepth(members)
    case _ => 0
  }

  function ItemsDepth(items: seq<Json>): nat
    decreases items, 0
  {
    if items == [] then 0 else Max(Depth(items[0]), ItemsDepth(items[1..]))
  }

  function MembersDepth(members: seq<Member>): nat
    decreases members, 0
  {
    if members == [] then 0 else Max(Depth(members[0].value), MembersDepth(members[1..]))
  }

  /** All strings and keys are C strings. */
  predicate CStrings(v: Json)
    decreases v, 1
  {
    match v
    case Str(s) => NulFree(s)
    case Arr(items) => ItemsCStrings(items)
    case Obj(members) => MembersCStrings(members)
    case _ => true
  }

  predicate ItemsCStrings(items: seq<Json>)
    decreases items, 0
  {
    items != [] ==> CStrings(items[0]) && ItemsCStrings(items[1..])
  }

  predicate MembersCStrings(members: seq<Member>)
    decreases members, 0
  {
    members != [] ==> NulFree(members[0].key) && CStrings(members[0].value) && MembersCStrings(members[1..])
  }
}
