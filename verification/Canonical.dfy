/** Decoded JSON values and the canonical writer of admin/presentation/canonical.go. */
module Canonical {
  import opened Text
  import SortedKeys

  /** What `json.Decoder` with `UseNumber` yields: numbers keep their literal. */
  datatype Json =
    | Null
    | Bool(b: bool)
    | Str(s: string)
    | Num(literal: string)
    | Arr(items: seq<Json>)
    | Obj(members: map<string, Json>)

  /** One of the two string encoders: `json.Marshal` or `writeCanonicalJSONString`. */
  type Quoter = string -> string

  /** What `canonicalJSON` depends on: how strings are encoded, never to nothing, and which
      number literals `strconv.ParseFloat` accepts, never the empty one. */
  datatype Encoding = Encoding(quote: Quoter, parseFloat: string -> bool)

  ghost predicate Usable(e: Encoding) {
    (forall s :: e.quote(s) != "") && !e.parseFloat("")
  }

  type Encoder = e: Encoding | Usable(e) ghost witness Encoding(s => "\"\"", s => false)

  // ----- the text the writer is meant to produce

  function HexDigit(n: nat): char
    requires n < 16
  {
    "0123456789abcdef"[n]
  }

  function EscapeRune(c: char): string {
    if c == '"' then "\\\""
    else if c == '\\' then "\\\\"
    else if c == '\U{0008}' then "\\b"
    else if c == '\t' then "\\t"
    else if c == '\n' then "\\n"
    else if c == '\U{000C}' then "\\f"
    else if c == '\r' then "\\r"
    else if c as int < 0x20 then "\\u00" + [HexDigit(c as nat / 16), HexDigit(c as nat % 16)]
    else [c]
  }

  function Escape(s: string): string {
    if s == "" then "" else EscapeRune(s[0]) + Escape(s[1..])
  }

  function QuoteV2(s: string): string {
    "\"" + Escape(s) + "\""
  }

  /** The encoder chosen by the `escapeHTML` flag. */
  function Chosen(escapeHTML: bool, marshal: Quoter): Quoter {
    if escapeHTML then marshal else QuoteV2
  }

  ghost function Print(v: Json, quote: Quoter): (text: string)
    decreases v, 1, 0
  {
    match v
    case Null => "null"
    case Bool(b) => if b then "true" else "false"
    case Str(s) => quote(s)
    case Num(literal) => literal
    case Arr(items) => "[" + PrintItems(v, 0, quote) + "]"
    case Obj(members) => "{" + PrintMembers(v, SortedKeys.Sorted(members.Keys), 0, quote) + "}"
  }

  /** The items of an array from the i-th one on, each but the first after a comma. */
  ghost function PrintItems(v: Json, i: nat, quote: Quoter): string
    requires v.Arr? && i <= |v.items|
    decreases v, 0, |v.items| - i
  {
    if i == |v.items| then ""
    else (if i > 0 then "," else "") + Print(v.items[i], quote) + PrintItems(v, i + 1, quote)
  }

  ghost function PrintMembers(v: Json, keys: seq<string>, i: nat, quote: Quoter): string
    requires v.Obj? && i <= |keys| && forall k :: k in keys ==> k in v.members
    decreases v, 0, |keys| - i
  {
    if i == |keys| then ""
    else
      (if i > 0 then "," else "") + quote(keys[i]) + ":" + Print(v.members[keys[i]], quote)
      + PrintMembers(v, keys, i + 1, quote)
  }

  /** Every number literal passes `strconv.ParseFloat`, which is a parameter. */
  predicate Writable(v: Json, parseFloat: string -> bool) {
    match v
    case Num(literal) => parseFloat(literal)
    case Arr(items) => forall i :: 0 <= i < |items| ==> Writable(items[i], parseFloat)
    case Obj(members) => forall k :: k in members ==> Writable(members[k], parseFloat)
    case _ => true
  }

  /** The first number in printing order that does not pass: where the writer stops. */
  ghost function FirstBad(v: Json, parseFloat: string -> bool): Option<string>
    decreases v, 1, 0
  {
    match v
    case Num(literal) => if parseFloat(literal) then None else Some(literal)
    case Arr(items) => BadItem(v, 0, parseFloat)
    case Obj(members) => BadMember(v, SortedKeys.Sorted(members.Keys), 0, parseFloat)
    case _ => None
  }

  ghost function BadItem(v: Json, i: nat, parseFloat: string -> bool): Option<string>
    requires v.Arr? && i <= |v.items|
    decreases v, 0, |v.items| - i
  {
    if i == |v.items| then None
    else
      var bad := FirstBad(v.items[i], parseFloat);
      if bad.Some? then bad else BadItem(v, i + 1, parseFloat)
  }

  ghost function BadMember(v: Json, keys: seq<string>, i: nat, parseFloat: string -> bool): Option<string>
    requires v.Obj? && i <= |keys| && forall k :: k in keys ==> k in v.members
    decreases v, 0, |keys| - i
  {
    if i == |keys| then None
    else
      var bad := FirstBad(v.members[keys[i]], parseFloat);
      if bad.Some? then bad else BadMember(v, keys, i + 1, parseFloat)
  }

  /** The writer stops nowhere exactly in trees all of whose numbers pass. */
  lemma {:induction false} NothingBad(v: Json, parseFloat: string -> bool)
    ensures FirstBad(v, parseFloat) == None <==> Writable(v, parseFloat)
    decreases v, 1, 0
  {
    match v
    case Arr(items) => NoBadItem(v, 0, parseFloat);
    case Obj(members) =>
      var keys := SortedKeys.Sorted(members.Keys);
      NoBadMember(v, keys, 0, parseFloat);
      assert forall k :: k in members ==> k in keys;
    case _ =>
  }

  lemma {:induction false} NoBadItem(v: Json, i: nat, parseFloat: string -> bool)
    requires v.Arr? && i <= |v.items|
    ensures BadItem(v, i, parseFloat) == None <==> forall j :: i <= j < |v.items| ==> Writable(v.items[j], parseFloat)
    decreases v, 0, |v.items| - i
  {
    if i < |v.items| {
      NothingBad(v.items[i], parseFloat);
      NoBadItem(v, i + 1, parseFloat);
    }
  }

  lemma {:induction false} NoBadMember(v: Json, keys: seq<string>, i: nat, parseFloat: string -> bool)
    requires v.Obj? && i <= |keys| && forall k :: k in keys ==> k in v.members
    ensures BadMember(v, keys, i, parseFloat) == None <==> forall j :: i <= j < |keys| ==> Writable(v.members[keys[j]], parseFloat)
    decreases v, 0, |keys| - i
  {
    if i < |keys| {
      NothingBad(v.members[keys[i]], parseFloat);
      NoBadMember(v, keys, i + 1, parseFloat);
    }
  }

  /** A number of the tree. */
  ghost predicate HasNumber(v: Json, literal: string)
    decreases v
  {
    match v
    case Num(l) => l == literal
    case Arr(items) => exists i :: 0 <= i < |items| && HasNumber(items[i], literal)
    case Obj(members) => exists k :: k in members && HasNumber(members[k], literal)
    case _ => false
  }

  /** Where the writer stops is a number of the tree, and one that does not pass. */
  lemma {:induction false} BadOccurs(v: Json, parseFloat: string -> bool)
    ensures match FirstBad(v, parseFloat) case None => true case Some(literal) => HasNumber(v, literal) && !parseFloat(literal)
    decreases v, 1, 0
  {
    match v
    case Arr(items) => BadItemOccurs(v, 0, parseFloat);
    case Obj(members) => BadMemberOccurs(v, SortedKeys.Sorted(members.Keys), 0, parseFloat);
    case _ =>
  }

  lemma {:induction false} BadItemOccurs(v: Json, i: nat, parseFloat: string -> bool)
    requires v.Arr? && i <= |v.items|
    ensures match BadItem(v, i, parseFloat) case None => true case Some(literal) => HasNumber(v, literal) && !parseFloat(literal)
    decreases v, 0, |v.items| - i
  {
    if i < |v.items| {
      BadOccurs(v.items[i], parseFloat);
      BadItemOccurs(v, i + 1, parseFloat);
    }
  }

  lemma {:induction false} BadMemberOccurs(v: Json, keys: seq<string>, i: nat, parseFloat: string -> bool)
    requires v.Obj? && i <= |keys| && forall k :: k in keys ==> k in v.members
    ensures match BadMember(v, keys, i, parseFloat) case None => true case Some(literal) => HasNumber(v, literal) && !parseFloat(literal)
    decreases v, 0, |keys| - i
  {
    if i < |keys| {
      BadOccurs(v.members[keys[i]], parseFloat);
      BadMemberOccurs(v, keys, i + 1, parseFloat);
    }
  }

  // ----- the writer

  /** `bytes.Buffer`, holding the runes whose UTF-8 encoding is its content. */
  class Buffer {
    var text: string

    constructor ()
      ensures text == ""
    {
      text := "";
    }

    method Write(s: string)
      modifies this
      ensures text == old(text) + s
    {
      text := text + s;
    }
  }

  lemma {:induction false} EscapeAppend(s: string, c: char)
    ensures Escape(s + [c]) == Escape(s) + EscapeRune(c)
  {
    if s == "" {
      assert s + [c] == [c] && Escape([c][1..]) == "";
    } else {
      assert (s + [c])[1..] == s[1..] + [c];
      EscapeAppend(s[1..], c);
    }
  }

  /** The switch of `writeCanonicalJSONString`. */
  method WriteEscaped(output: Buffer, current: char)
    modifies output
    ensures output.text == old(output.text) + EscapeRune(current)
  {
    match current {
      case '"' => output.Write("\\\"");
      case '\\' => output.Write("\\\\");
      case '\U{0008}' => output.Write("\\b");
      case '\t' => output.Write("\\t");
      case '\n' => output.Write("\\n");
      case '\U{000C}' => output.Write("\\f");
      case '\r' => output.Write("\\r");
      case _ =>
        if current as int < 0x20 {
          output.Write("\\u00" + [HexDigit(current as nat / 16), HexDigit(current as nat % 16)]);
        } else {
          output.Write([current]);
        }
    }
  }

  lemma EscapeStep(before: string, s: string, i: nat)
    requires i < |s|
    ensures before + Escape(s[..i + 1]) == before + Escape(s[..i]) + EscapeRune(s[i])
  {
    EscapeAppend(s[..i], s[i]);
    assert s[..i + 1] == s[..i] + [s[i]];
    Assoc(before, Escape(s[..i]), EscapeRune(s[i]));
  }

  lemma Assoc(a: string, b: string, c: string)
    ensures a + (b + c) == a + b + c
  {
  }

  lemma Quoted(before: string, s: string)
    ensures before + "\"" + Escape(s[..|s|]) + "\"" == before + QuoteV2(s)
    ensures before + "\"" + Escape(s[..0]) == before + "\""
  {
    assert s[..|s|] == s;
    Wrapped(before, "\"", Escape(s), "\"");
  }

  /** `writeCanonicalJSONString`. */
  method WriteString(output: Buffer, value: string)
    modifies output
    ensures output.text == old(output.text) + QuoteV2(value)
  {
    hide Escape, EscapeRune, QuoteV2;
    output.Write("\"");
    ghost var start := output.text;
    Quoted(old(output.text), value);
    for i := 0 to |value|
      invariant output.text == start + Escape(value[..i])
    {
      EscapeStep(start, value, i);
      WriteEscaped(output, value[i]);
    }
    output.Write("\"");
  }

  method WriteQuoted(output: Buffer, s: string, escapeHTML: bool, marshal: Quoter)
    modifies output
    ensures output.text == old(output.text) + Chosen(escapeHTML, marshal)(s)
  {
    if escapeHTML {
      output.Write(marshal(s));
    } else {
      WriteString(output, s);
    }
  }

  /** `writeCanonicalJSONValue`: the error names the number at which it
      stopped, and then the caller drops the buffer. */
  method WriteValue(output: Buffer, value: Json, escapeHTML: bool, marshal: Quoter, parseFloat: string -> bool)
    returns (bad: Option<string>)
    modifies output
    ensures bad == FirstBad(value, parseFloat)
    ensures bad == None ==> output.text == old(output.text) + Print(value, Chosen(escapeHTML, marshal))
    decreases value, 1, 0
  {
    match value {
      case Null =>
        output.Write("null");
      case Bool(b) =>
        output.Write(if b then "true" else "false");
      case Str(s) =>
        WriteQuoted(output, s, escapeHTML, marshal);
      case Num(literal) =>
        if !parseFloat(literal) {
          return Some(literal);
        }
        output.Write(literal);
      case Arr(items) =>
        bad := WriteArray(output, value, escapeHTML, marshal, parseFloat);
        return;
      case Obj(members) =>
        bad := WriteObject(output, value, escapeHTML, marshal, parseFloat);
        return;
    }
    return None;
  }

  lemma Wrapped(before: string, open: string, body: string, close: string)
    ensures before + open + body + close == before + (open + body + close)
  {
  }

  lemma MemberText(before: string, sep: string, name: string, value: string, rest: string)
    ensures before + (sep + name + ":" + value + rest) == before + sep + name + ":" + value + rest
  {
    assert sep + name + ":" + value + rest == sep + (name + (":" + (value + rest)));
    assert before + sep + name + ":" + value + rest == before + (sep + (name + (":" + (value + rest))));
  }

  lemma ItemStep(before: string, v: Json, i: nat, quote: Quoter)
    requires v.Arr? && i < |v.items|
    ensures before + PrintItems(v, i, quote) == (if i > 0 then before + "," else before) + Print(v.items[i], quote) + PrintItems(v, i + 1, quote)
  {
    var sep := if i > 0 then "," else "";
    assert PrintItems(v, i, quote) == sep + Print(v.items[i], quote) + PrintItems(v, i + 1, quote);
    hide Print, PrintItems;
    assert before + sep == if i > 0 then before + "," else before;
    Assoc(before, sep + Print(v.items[i], quote), PrintItems(v, i + 1, quote));
    Assoc(before, sep, Print(v.items[i], quote));
  }

  /** One round of the loop over `[]any`. */
  method WriteItem(output: Buffer, value: Json, i: nat, escapeHTML: bool, marshal: Quoter, parseFloat: string -> bool)
    returns (bad: Option<string>)
    requires value.Arr? && i < |value.items|
    modifies output
    ensures bad == FirstBad(value.items[i], parseFloat)
    ensures bad == None ==>
      var quote := Chosen(escapeHTML, marshal);
      old(output.text) + PrintItems(value, i, quote) == output.text + PrintItems(value, i + 1, quote)
    decreases value, 0, 0
  {
    hide Print, PrintItems, Chosen, FirstBad;
    ItemStep(output.text, value, i, Chosen(escapeHTML, marshal));
    if i > 0 {
      output.Write(",");
    }
    bad := WriteValue(output, value.items[i], escapeHTML, marshal, parseFloat);
  }

  /** The `[]any` case of `writeCanonicalJSONValue`. */
  method WriteArray(output: Buffer, value: Json, escapeHTML: bool, marshal: Quoter, parseFloat: string -> bool)
    returns (bad: Option<string>)
    requires value.Arr?
    modifies output
    ensures bad == FirstBad(value, parseFloat)
    ensures bad == None ==> output.text == old(output.text) + Print(value, Chosen(escapeHTML, marshal))
    decreases value, 0, 1
  {
    output.Write("[");
    ghost var whole := output.text + PrintItems(value, 0, Chosen(escapeHTML, marshal));
    for i := 0 to |value.items|
      invariant whole == output.text + PrintItems(value, i, Chosen(escapeHTML, marshal))
      invariant BadItem(value, 0, parseFloat) == BadItem(value, i, parseFloat)
    {
      bad := WriteItem(output, value, i, escapeHTML, marshal, parseFloat);
      if bad.Some? {
        return;
      }
    }
    assert output.text + "" == output.text;
    Wrapped(old(output.text), "[", PrintItems(value, 0, Chosen(escapeHTML, marshal)), "]");
    output.Write("]");
    return None;
  }

  /** One round of the loop over the sorted keys. */
  method WriteMember(output: Buffer, value: Json, keys: seq<string>, i: nat, escapeHTML: bool, marshal: Quoter, parseFloat: string -> bool)
    returns (bad: Option<string>)
    requires value.Obj? && i < |keys| && forall k :: k in keys ==> k in value.members
    modifies output
    ensures bad == FirstBad(value.members[keys[i]], parseFloat)
    ensures bad == None ==>
      var quote := Chosen(escapeHTML, marshal);
      old(output.text) + PrintMembers(value, keys, i, quote) == output.text + PrintMembers(value, keys, i + 1, quote)
    decreases value, 0, 0
  {
    ghost var quote := Chosen(escapeHTML, marshal);
    MemberText(output.text, if i > 0 then "," else "", quote(keys[i]), Print(value.members[keys[i]], quote), PrintMembers(value, keys, i + 1, quote));
    assert output.text + "" == output.text;
    if i > 0 {
      output.Write(",");
    }
    WriteQuoted(output, keys[i], escapeHTML, marshal);
    output.Write(":");
    bad := WriteValue(output, value.members[keys[i]], escapeHTML, marshal, parseFloat);
  }

  lemma NoMembersLeft(value: Json, keys: seq<string>, quote: Quoter)
    requires value.Obj? && forall k :: k in keys ==> k in value.members
    ensures PrintMembers(value, keys, |keys|, quote) == ""
  {
  }

  /** The loop over the sorted keys. */
  method WriteMembers(output: Buffer, value: Json, keys: seq<string>, escapeHTML: bool, marshal: Quoter, parseFloat: string -> bool)
    returns (bad: Option<string>)
    requires value.Obj? && forall k :: k in keys ==> k in value.members
    modifies output
    ensures bad == BadMember(value, keys, 0, parseFloat)
    ensures bad == None ==> output.text == old(output.text) + PrintMembers(value, keys, 0, Chosen(escapeHTML, marshal))
    decreases value, 0, 1
  {
    hide PrintMembers;
    for i := 0 to |keys|
      invariant output.text + PrintMembers(value, keys, i, Chosen(escapeHTML, marshal))
             == old(output.text) + PrintMembers(value, keys, 0, Chosen(escapeHTML, marshal))
      invariant BadMember(value, keys, 0, parseFloat) == BadMember(value, keys, i, parseFloat)
    {
      bad := WriteMember(output, value, keys, i, escapeHTML, marshal, parseFloat);
      if bad.Some? {
        return;
      }
    }
    NoMembersLeft(value, keys, Chosen(escapeHTML, marshal));
    assert output.text + "" == output.text;
    return None;
  }

  /** The `map[string]any` case of `writeCanonicalJSONValue`. */
  method WriteObject(output: Buffer, value: Json, escapeHTML: bool, marshal: Quoter, parseFloat: string -> bool)
    returns (bad: Option<string>)
    requires value.Obj?
    modifies output
    ensures bad == FirstBad(value, parseFloat)
    ensures bad == None ==> output.text == old(output.text) + Print(value, Chosen(escapeHTML, marshal))
    decreases value, 0, 2
  {
    var keys := SortedKeys.Collect(value.members.Keys);
    output.Write("{");
    bad := WriteMembers(output, value, keys, escapeHTML, marshal, parseFloat);
    if bad == None {
      Wrapped(old(output.text), "{", PrintMembers(value, keys, 0, Chosen(escapeHTML, marshal)), "}");
      output.Write("}");
    }
  }
}
