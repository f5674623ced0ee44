/** The version 2 canonical text is determined by what it says: it is the shortest text that
    reads as its tree, with the members of every object in the order of their keys. */
module Shortest {
  import opened Text
  import opened Canonical
  import opened JsonParser
  import SortedKeys

  // ----- strings

  /** The first difference is a smaller character. */
  ghost predicate Precedes(a: string, b: string) {
    exists k :: DiffersBelow(a, b, k)
  }

  predicate DiffersBelow(a: string, b: string, k: int) {
    0 <= k < |a| && k < |b| && a[..k] == b[..k] && a[k] < b[k]
  }

  /** a is longer than b, or as long and at most as late in the order of characters. */
  ghost predicate Yields(a: string, b: string) {
    |a| > |b| || (|a| == |b| && (a == b || Precedes(a, b)))
  }

  lemma YieldsAppended(a: string, b: string, c: string, d: string)
    requires Yields(a, b) && Yields(c, d)
    ensures Yields(a + c, b + d)
  {
    if |a| == |b| && |c| == |d| {
      if k :| DiffersBelow(a, b, k) {
        assert (a + c)[..k] == a[..k] && (b + d)[..k] == b[..k];
        assert DiffersBelow(a + c, b + d, k);
      } else if k :| DiffersBelow(c, d, k) {
        assert (a + c)[..|a| + k] == a + c[..k] && (b + d)[..|a| + k] == b + d[..k];
        assert DiffersBelow(a + c, b + d, |a| + k);
      }
    }
  }

  /** What the reader took of a text. */
  function Taken(text: string, rest: string): string {
    if |rest| <= |text| then text[..|text| - |rest|] else text
  }

  lemma PlainYields(text: string)
    requires ReadRune(text).Some? && !("\\u" <= text)
    ensures var (c, rest) := ReadRune(text).value; text == Taken(text, rest) + rest && Yields(Taken(text, rest), EscapeRune(c))
  {
    var (c, rest) := ReadRune(text).value;
    if text[0] != '\\' {
      assert Taken(text, rest) == [c];
    } else {
      assert rest == text[2..];
      assert Taken(text, rest) == ['\\', text[1]];
    }
  }

  /** A character is read from nothing that is preferable to how the writer writes it. */
  lemma RuneYields(text: string)
    requires ReadRune(text).Some?
    ensures var (c, rest) := ReadRune(text).value; text == Taken(text, rest) + rest && Yields(Taken(text, rest), EscapeRune(c))
  {
    var (c, rest) := ReadRune(text).value;
    if "\\u" <= text {
      assert ReadRune(text) == UnicodeEscape(text[2..]);
      hide ReadRune, UnicodeEscape, EscapeRune;
      UnicodeYields(text[2..]);
      ShortRune(c);
      EscapedYields(text, c, rest);
    } else {
      PlainYields(text);
    }
  }

  lemma EscapedYields(text: string, c: char, rest: string)
    requires "\\u" <= text && text[2..] == Taken(text[2..], rest) + rest && |Taken(text[2..], rest)| >= 4
    requires |EscapeRune(c)| == 6 ==> EscapeRune(c)[..2] == "\\u" && Yields(Taken(text[2..], rest), EscapeRune(c)[2..])
    requires |EscapeRune(c)| <= 6
    ensures text == Taken(text, rest) + rest && Yields(Taken(text, rest), EscapeRune(c))
  {
    hide EscapeRune;
    assert text == "\\u" + text[2..];
    assert Taken(text, rest) == "\\u" + Taken(text[2..], rest);
    if |EscapeRune(c)| == 6 {
      assert EscapeRune(c) == "\\u" + EscapeRune(c)[2..];
      YieldsAppended("\\u", "\\u", Taken(text[2..], rest), EscapeRune(c)[2..]);
    }
  }

  lemma ShortRune(c: char)
    ensures |EscapeRune(c)| in {1, 2, 6}
    ensures |EscapeRune(c)| == 6 ==>
      (c as int) < 0x20 && EscapeRune(c) == "\\u00" + [HexDigit(c as nat / 16), HexDigit(c as nat % 16)]
  {
  }

  lemma UnicodeTakes(s: string)
    requires UnicodeEscape(s).Some?
    ensures var (c, rest) := UnicodeEscape(s).value;
            && (rest == s[4..] || (|s| >= 10 && rest == s[10..])) && |s| >= 4
            && (c as int < 0x20 ==> Hex4(s) == Some(c as nat) && rest == s[4..])
  {
    hide Hex4;
  }

  lemma UnicodeYields(s: string)
    requires UnicodeEscape(s).Some?
    ensures var (c, rest) := UnicodeEscape(s).value;
            && s == Taken(s, rest) + rest && |Taken(s, rest)| >= 4
            && (|EscapeRune(c)| == 6 ==> Yields(Taken(s, rest), EscapeRune(c)[2..]))
  {
    var (c, rest) := UnicodeEscape(s).value;
    UnicodeTakes(s);
    ShortRune(c);
    hide UnicodeEscape, Hex4, EscapeRune, HexDigit, Yields;
    if |EscapeRune(c)| == 6 {
      HexDigits(s, c as nat);
      assert EscapeRune(c)[2..] == ['0', '0', HexDigit(c as nat / 16), HexDigit(c as nat % 16)];
    }
  }

  /** Four hexadecimal digits of a small number, the letters of either case. */
  lemma HexDigits(s: string, n: nat)
    requires Hex4(s) == Some(n) && n < 0x20
    ensures Yields(s[..4], ['0', '0', HexDigit(n / 16), HexDigit(n % 16)])
  {
    var digits := ['0', '0', HexDigit(n / 16), HexDigit(n % 16)];
    var a, b, c, d := HexValue(s[0]).value, HexValue(s[1]).value, HexValue(s[2]).value, HexValue(s[3]).value;
    assert n == a * 4096 + b * 256 + c * 16 + d;
    assert a == 0 && b == 0 && c == n / 16 && d == n % 16;
    assert s[0] == '0' && s[1] == '0' && s[2] == digits[2];
    assert s[..3] == digits[..3];
    if s[3] == digits[3] {
      assert s[..4] == s[..3] + [s[3]];
      assert digits == digits[..3] + [digits[3]];
    } else {
      assert s[..4][..3] == s[..3];
      assert DiffersBelow(s[..4], digits, 3);
    }
  }

  lemma {:induction false} BodyYields(text: string)
    requires ReadBody(text).Some?
    ensures var (s, rest) := ReadBody(text).value; text == Taken(text, rest) + rest && Yields(Taken(text, rest), Escape(s) + "\"")
    decreases |text|
  {
    hide ReadRune, EscapeRune, Yields;
    var (s, rest) := ReadBody(text).value;
    if text != "" && text[0] == '"' {
      YieldsItself("\"");
      assert Taken(text, rest) == "\"" && Escape(s) + "\"" == "\"";
    } else {
      RuneYields(text);
      var head := ReadRune(text).value;
      BodyYields(head.1);
      var tail := ReadBody(head.1).value;
      assert s == [head.0] + tail.0 && rest == tail.1;
      YieldsAppended(Taken(text, head.1), EscapeRune(head.0), Taken(head.1, rest), Escape(tail.0) + "\"");
      assert Taken(text, rest) == Taken(text, head.1) + Taken(head.1, rest);
      assert s[1..] == tail.0;
      Assoc(EscapeRune(head.0), Escape(tail.0), "\"");
    }
  }

  lemma YieldsItself(a: string)
    ensures Yields(a, a)
  {
  }

  /** Of all texts that read as a string the writer's is the shortest, and of the shortest the
      last in the order of characters, which means lower-case hexadecimal digits. */
  lemma QuoteV2Determined(s: string, text: string)
    requires ReadString(text) == Some((s, ""))
    ensures |text| >= |QuoteV2(s)|
    ensures |text| == |QuoteV2(s)| ==> text == QuoteV2(s) || Precedes(text, QuoteV2(s))
  {
    BodyYields(text[1..]);
    YieldsItself("\"");
    var body := Taken(text[1..], "");
    assert text == "\"" + text[1..] && body == text[1..];
    YieldsAppended("\"", "\"", body, Escape(s) + "\"");
    Assoc("\"", Escape(s), "\"");
  }

  lemma StringLength(text: string)
    requires ReadString(text).Some?
    ensures |text| >= |QuoteV2(ReadString(text).value.0)| + |ReadString(text).value.1|
  {
    BodyYields(text[1..]);
  }

  /** Every character but a quotation mark, a backslash and the controls stands for itself. */
  lemma RawOutsideEscapes(s: string)
    requires forall i :: 0 <= i < |s| ==> s[i] as int >= 0x20 && s[i] != '"' && s[i] != '\\'
    ensures QuoteV2(s) == "\"" + s + "\""
  {
    EscapesNothing(s);
  }

  lemma {:induction false} EscapesNothing(s: string)
    requires forall i :: 0 <= i < |s| ==> s[i] as int >= 0x20 && s[i] != '"' && s[i] != '\\'
    ensures Escape(s) == s
  {
    if s != "" {
      EscapesNothing(s[1..]);
      assert EscapeRune(s[0]) == [s[0]];
    }
  }

  // ----- the order of members

  /** Parts with a comma between any two. */
  function Joined(parts: seq<string>): string {
    if parts == [] then "" else if |parts| == 1 then parts[0] else parts[0] + "," + Joined(parts[1..])
  }

  ghost function MemberTexts(v: Json, keys: seq<string>, quote: Quoter): seq<string>
    requires v.Obj? && forall k :: k in keys ==> k in v.members
  {
    seq(|keys|, i requires 0 <= i < |keys| => quote(keys[i]) + ":" + Print(v.members[keys[i]], quote))
  }

  ghost function ItemTexts(items: seq<Json>, quote: Quoter): seq<string> {
    seq(|items|, i requires 0 <= i < |items| => Print(items[i], quote))
  }

  lemma {:induction false} MembersJoined(v: Json, keys: seq<string>, i: nat, quote: Quoter)
    requires v.Obj? && i <= |keys| && forall k :: k in keys ==> k in v.members
    ensures PrintMembers(v, keys, i, quote) == (if 0 < i < |keys| then "," else "") + Joined(MemberTexts(v, keys, quote)[i..])
    decreases |keys| - i
  {
    var texts := MemberTexts(v, keys, quote);
    if i < |keys| {
      MembersJoined(v, keys, i + 1, quote);
      var sep, rest := if i > 0 then "," else "", PrintMembers(v, keys, i + 1, quote);
      assert PrintMembers(v, keys, i, quote) == sep + quote(keys[i]) + ":" + Print(v.members[keys[i]], quote) + rest;
      hide PrintMembers, Print;
      Grouped(sep, quote(keys[i]), Print(v.members[keys[i]], quote), rest);
      JoinedFrom(texts, i);
      Assoc(texts[i], ",", Joined(texts[i + 1..]));
    }
  }

  lemma Grouped(sep: string, name: string, value: string, rest: string)
    ensures sep + name + ":" + value + rest == sep + ((name + ":" + value) + rest)
  {
    Assoc(sep, name, ":");
    Assoc(sep, name + ":", value);
    Assoc(sep, name + ":" + value, rest);
  }

  lemma JoinedFrom(parts: seq<string>, i: nat)
    requires i < |parts|
    ensures Joined(parts[i..]) == if i + 1 == |parts| then parts[i] else parts[i] + "," + Joined(parts[i + 1..])
    ensures i + 1 == |parts| ==> Joined(parts[i + 1..]) == ""
  {
    assert parts[i..][1..] == parts[i + 1..];
  }

  lemma {:induction false} ItemsJoined(v: Json, i: nat, quote: Quoter)
    requires v.Arr? && i <= |v.items|
    ensures PrintItems(v, i, quote) == (if 0 < i < |v.items| then "," else "") + Joined(ItemTexts(v.items, quote)[i..])
    decreases |v.items| - i
  {
    var texts := ItemTexts(v.items, quote);
    if i < |v.items| {
      ItemsJoined(v, i + 1, quote);
      var sep, rest := if i > 0 then "," else "", PrintItems(v, i + 1, quote);
      assert PrintItems(v, i, quote) == sep + Print(v.items[i], quote) + rest;
      hide PrintItems, Print;
      JoinedFrom(texts, i);
      Assoc(sep, texts[i], rest);
      Assoc(texts[i], ",", Joined(texts[i + 1..]));
    }
  }

  /** An object is printed as its members, each once, in the byte order of the keys, and an
      array as its items in order, with single commas and nothing else between them. */
  lemma MembersInOrder(v: Json, quote: Quoter)
    ensures v.Obj? ==> exists keys ::
      && (forall i, j :: 0 <= i < j < |keys| ==> StringLess(keys[i], keys[j])) && (forall k :: k in keys <==> k in v.members)
      && Print(v, quote) == "{" + Joined(MemberTexts(v, keys, quote)) + "}"
    ensures v.Arr? ==> Print(v, quote) == "[" + Joined(ItemTexts(v.items, quote)) + "]"
  {
    if v.Obj? {
      ObjectText(v, quote);
    } else if v.Arr? {
      ArrayText(v, quote);
    }
  }

  lemma ObjectText(v: Json, quote: Quoter)
    requires v.Obj?
    ensures var keys := SortedKeys.Sorted(v.members.Keys);
            && (forall i, j :: 0 <= i < j < |keys| ==> StringLess(keys[i], keys[j])) && (forall k :: k in keys <==> k in v.members)
            && Print(v, quote) == "{" + Joined(MemberTexts(v, keys, quote)) + "}"
  {
    var keys := SortedKeys.Sorted(v.members.Keys);
    assert Print(v, quote) == "{" + PrintMembers(v, keys, 0, quote) + "}";
    hide Print, PrintMembers, Joined;
    MembersJoined(v, keys, 0, quote);
    assert MemberTexts(v, keys, quote)[0..] == MemberTexts(v, keys, quote);
    assert "" + Joined(MemberTexts(v, keys, quote)) == Joined(MemberTexts(v, keys, quote));
  }

  lemma ArrayText(v: Json, quote: Quoter)
    requires v.Arr?
    ensures Print(v, quote) == "[" + Joined(ItemTexts(v.items, quote)) + "]"
  {
    assert Print(v, quote) == "[" + PrintItems(v, 0, quote) + "]";
    hide Print, PrintItems, Joined;
    ItemsJoined(v, 0, quote);
    assert ItemTexts(v.items, quote)[0..] == ItemTexts(v.items, quote);
    assert "" + Joined(ItemTexts(v.items, quote)) == Joined(ItemTexts(v.items, quote));
  }

  // ----- the length of whole values

  /** The length of a member with what separates it from the next or closes the object. */
  ghost function Entry(name: string, value: Json): nat {
    |QuoteV2(name)| + 1 + |Print(value, QuoteV2)| + 1
  }

  ghost function Cost(m: map<string, Json>): nat
    decreases |m.Keys|
  {
    if m == map[] then 0
    else
      var k :| k in m;
      Entry(k, m[k]) + Cost(m - {k})
  }

  /** Any member may come first. */
  lemma {:induction false} AnyFirst(m: map<string, Json>, name: string)
    requires name in m
    ensures Cost(m) == Entry(name, m[name]) + Cost(m - {name})
    decreases |m.Keys|
  {
    var k :| k in m && Cost(m) == Entry(k, m[k]) + Cost(m - {k});
    if k != name {
      AnyFirst(m - {k}, name);
      AnyFirst(m - {name}, k);
      assert m - {k} - {name} == m - {name} - {k};
    }
  }

  /** The members from the i-th key on. */
  ghost function Remaining(v: Json, keys: seq<string>, i: nat): map<string, Json>
    requires v.Obj? && i <= |keys|
  {
    map k | k in v.members && k in keys[i..] :: v.members[k]
  }

  lemma {:induction false} MembersLength(v: Json, keys: seq<string>, i: nat)
    requires v.Obj? && i <= |keys| && SortedKeys.Increasing(keys) && forall k :: k in keys ==> k in v.members
    ensures |PrintMembers(v, keys, i, QuoteV2)| + (if i == 0 && keys != [] then 1 else 0) == Cost(Remaining(v, keys, i))
    decreases |keys| - i
  {
    if i < |keys| {
      MembersLength(v, keys, i + 1);
      MemberLength(v, keys, i);
      RemainingStep(v, keys, i);
      hide PrintMembers, Print, QuoteV2, Cost, Remaining;
      AnyFirst(Remaining(v, keys, i), keys[i]);
    } else {
      assert Remaining(v, keys, i) == map[];
    }
  }

  lemma MemberLength(v: Json, keys: seq<string>, i: nat)
    requires v.Obj? && i < |keys| && forall k :: k in keys ==> k in v.members
    ensures |PrintMembers(v, keys, i, QuoteV2)| + 1 == (if i > 0 then 1 else 0) + Entry(keys[i], v.members[keys[i]]) + |PrintMembers(v, keys, i + 1, QuoteV2)|
  {
    hide QuoteV2, Print;
  }

  lemma RemainingStep(v: Json, keys: seq<string>, i: nat)
    requires v.Obj? && i < |keys| && SortedKeys.Increasing(keys) && forall k :: k in keys ==> k in v.members
    ensures var m := Remaining(v, keys, i);
            keys[i] in m && m[keys[i]] == v.members[keys[i]] && m - {keys[i]} == Remaining(v, keys, i + 1)
  {
    assert keys[i..] == [keys[i]] + keys[i + 1..];
    NoneLater(keys, i);
  }

  lemma NoneLater(keys: seq<string>, i: nat)
    requires i < |keys| && SortedKeys.Increasing(keys)
    ensures keys[i] !in keys[i + 1..]
  {
    if keys[i] in keys[i + 1..] {
      var j :| 0 <= j < |keys[i + 1..]| && keys[i + 1..][j] == keys[i];
      assert StringLess(keys[i], keys[i + 1 + j]);
      StringLessTotal(keys[i], keys[i]);
    }
  }

  lemma ObjectLength(v: Json)
    requires v.Obj?
    ensures |Print(v, QuoteV2)| == if v.members == map[] then 2 else 1 + Cost(v.members)
  {
    var keys := SortedKeys.Sorted(v.members.Keys);
    MembersLength(v, keys, 0);
    assert keys[0..] == keys;
    assert Remaining(v, keys, 0) == v.members;
    NoKeys(v.members);
  }

  lemma NoKeys(m: map<string, Json>)
    ensures SortedKeys.Sorted(m.Keys) == [] <==> m == map[]
  {
    var keys := SortedKeys.Sorted(m.Keys);
    assert keys != [] ==> keys[0] in m.Keys;
  }

  ghost function ItemsCost(items: seq<Json>): nat {
    if items == [] then 0 else |Print(items[0], QuoteV2)| + 1 + ItemsCost(items[1..])
  }

  lemma {:induction false} ItemsLength(v: Json, i: nat)
    requires v.Arr? && i <= |v.items|
    ensures |PrintItems(v, i, QuoteV2)| + (if i == 0 && v.items != [] then 1 else 0) == ItemsCost(v.items[i..])
    decreases |v.items| - i
  {
    if i < |v.items| {
      ItemsLength(v, i + 1);
      assert v.items[i..][1..] == v.items[i + 1..];
      hide Print;
    }
  }

  lemma ArrayLength(v: Json)
    requires v.Arr?
    ensures |Print(v, QuoteV2)| == if v.items == [] then 2 else 1 + ItemsCost(v.items)
  {
    ItemsLength(v, 0);
    assert v.items[0..] == v.items;
  }

  ghost function PairsCost(pairs: seq<(string, Json)>): nat {
    if pairs == [] then 0 else Entry(pairs[0].0, pairs[0].1) + PairsCost(pairs[1..])
  }

  /** Members that a later one of the same name replaces only make a text longer. */
  lemma {:induction false} PairsCostMore(pairs: seq<(string, Json)>)
    ensures PairsCost(pairs) >= Cost(FromPairs(pairs))
  {
    hide Print, QuoteV2;
    if pairs != [] {
      var tail, all := FromPairs(pairs[1..]), FromPairs(pairs);
      PairsCostMore(pairs[1..]);
      if pairs[0].0 in tail {
        assert all == tail;
      } else {
        assert all - {pairs[0].0} == tail;
        AnyFirst(all, pairs[0].0);
      }
    }
  }

  /** No text that reads as a value is shorter than the canonical one. */
  lemma {:induction false} ValueLength(text: string)
    requires ReadValue(text).Some?
    ensures |text| >= |Print(ReadValue(text).value.0, QuoteV2)| + |ReadValue(text).value.1|
    decreases |text|, 1
  {
    hide Print, QuoteV2;
    var s := SkipSpace(text);
    var (v, rest) := ReadValue(text).value;
    if s[0] == '[' {
      var inner := SkipSpace(s[1..]);
      ArrayLength(v);
      if inner[0] != ']' { ItemsAtLeast(inner); }
    } else if s[0] == '{' {
      var inner := SkipSpace(s[1..]);
      ObjectLength(v);
      if inner[0] != '}' {
        MembersAtLeast(inner);
        PairsCostMore(ReadMembers(inner).value.0);
      }
    } else if s[0] == '"' {
      StringLength(s);
      PrintedScalar(v);
    } else {
      LiteralLength(s);
    }
  }

  lemma PrintedScalar(v: Json)
    ensures v.Str? ==> Print(v, QuoteV2) == QuoteV2(v.s)
    ensures v.Null? ==> Print(v, QuoteV2) == "null"
    ensures v.Bool? ==> Print(v, QuoteV2) == if v.b then "true" else "false"
    ensures v.Num? ==> Print(v, QuoteV2) == v.literal
  {
  }

  lemma LiteralLength(s: string)
    requires ReadLiteral(s).Some?
    ensures |s| >= |Print(ReadLiteral(s).value.0, QuoteV2)| + |ReadLiteral(s).value.1|
  {
    hide IsNumber, Print;
    PrintedScalar(ReadLiteral(s).value.0);
  }

  lemma {:induction false} ItemsAtLeast(text: string)
    requires ReadItems(text).Some?
    ensures |text| >= ItemsCost(ReadItems(text).value.0) + |ReadItems(text).value.1|
    ensures ReadItems(text).value.0 != []
    decreases |text|, 2
  {
    hide Print, ReadValue;
    ValueLength(text);
    var head := ReadValue(text).value;
    var next := SkipSpace(head.1);
    var items := ReadItems(text).value.0;
    if next[0] == ',' {
      ItemsAtLeast(next[1..]);
      assert items[1..] == ReadItems(next[1..]).value.0;
    }
  }

  lemma {:induction false} MembersAtLeast(text: string)
    requires ReadMembers(text).Some?
    ensures |text| >= PairsCost(ReadMembers(text).value.0) + |ReadMembers(text).value.1|
    ensures ReadMembers(text).value.0 != []
    decreases |text|, 2
  {
    hide Print, QuoteV2, ReadValue, ReadString;
    var name := ReadString(SkipSpace(text)).value;
    StringLength(SkipSpace(text));
    var colon := SkipSpace(name.1);
    ValueLength(colon[1..]);
    var head := ReadValue(colon[1..]).value;
    var next := SkipSpace(head.1);
    var pairs := ReadMembers(text).value.0;
    if next[0] == ',' {
      MembersAtLeast(next[1..]);
      assert pairs[1..] == ReadMembers(next[1..]).value.0;
    }
  }

  /** The canonical text is the shortest of all texts of its tree, so it has no white space
      outside strings, no escape that is not needed and no repeated member. */
  lemma CanonicalIsShortest(v: Json, text: string)
    requires Parse(text) == Some(v)
    ensures |text| >= |Print(v, QuoteV2)|
  {
    ValueLength(text);
  }
}
