/** Canonical text determines the tree it was printed from, and canonicalising
    twice is canonicalising once. */
module RoundTrip {
  import opened Text
  import opened Canonical
  import opened JsonParser

  /** What may follow a value without being taken for more of it. */
  predicate Stops(rest: string) {
    rest == "" || !IsNumberChar(rest[0])
  }

  /** The first character of a value: it starts no whitespace and closes nothing. */
  predicate Starts(text: string) {
    text != "" && !IsSpace(text[0]) && text[0] != ']' && text[0] != '}'
  }

  lemma {:induction false} DigitsAreNumberChars(s: string)
    ensures var n := |s| - |SkipDigits(s)|; SkipDigits(s) == s[n..] && forall i :: 0 <= i < n ==> IsNumberChar(s[i])
  {
    if s != "" && IsDigit(s[0]) {
      DigitsAreNumberChars(s[1..]);
      var n := |s| - |SkipDigits(s)|;
      assert SkipDigits(s) == s[1..][n - 1..] == s[n..];
      forall i | 0 <= i < n ensures IsNumberChar(s[i]) {
        if i > 0 { assert s[i] == s[1..][i - 1]; }
      }
    }
  }

  lemma ExponentChars(s: string)
    requires IsExponent(s)
    ensures forall i :: 0 <= i < |s| ==> IsNumberChar(s[i])
  {
    if s != "" {
      DigitsAreNumberChars(if |s| > 1 && (s[1] == '+' || s[1] == '-') then s[2..] else s[1..]);
    }
  }

  lemma FractionChars(s: string)
    requires IsFraction(s)
    ensures forall i :: 0 <= i < |s| ==> IsNumberChar(s[i])
  {
    if s != "" && s[0] == '.' {
      ExponentChars(SkipDigits(s[1..]));
      DigitsAreNumberChars(s[1..]);
    } else {
      ExponentChars(s);
    }
  }

  lemma NumberChars(s: string)
    requires IsNumber(s)
    ensures forall i :: 0 <= i < |s| ==> IsNumberChar(s[i])
  {
    var unsigned := if s[0] == '-' then s[1..] else s;
    if unsigned[0] == '0' {
      FractionChars(unsigned[1..]);
    } else {
      FractionChars(SkipDigits(unsigned));
      DigitsAreNumberChars(unsigned);
    }
  }

  lemma {:induction false} SpanIs(s: string, n: nat)
    requires n <= |s| && forall i :: 0 <= i < n ==> IsNumberChar(s[i])
    requires n < |s| ==> !IsNumberChar(s[n])
    ensures NumberSpan(s) == n
  {
    if n > 0 {
      SpanIs(s[1..], n - 1);
    }
  }

  lemma NumberReadsBack(literal: string, rest: string)
    requires IsNumber(literal) && Stops(rest)
    ensures Starts(literal)
    ensures ReadValue(literal + rest) == Some((Num(literal), rest))
  {
    var text := literal + rest;
    NumberChars(literal);
    SpanIs(text, |literal|);
    assert text[0] == literal[0] && IsNumberChar(text[0]);
    assert text[..|literal|] == literal && text[|literal|..] == rest;
    ReadNumber(text, |literal|);
  }

  // ----- one step of the reader at a time

  lemma ReadNumber(text: string, n: nat)
    requires 0 < n <= |text| && NumberSpan(text) == n && IsNumber(text[..n])
    requires IsNumberChar(text[0])
    ensures ReadValue(text) == Some((Num(text[..n]), text[n..]))
  {
    hide IsNumber, NumberSpan;
    assert !("null" <= text) && !("true" <= text) && !("false" <= text);
    assert ReadLiteral(text) == Some((Num(text[..n]), text[n..]));
    ReadLiteralValue(text);
  }

  lemma ReadLiteralValue(text: string)
    requires Starts(text) && text[0] != '[' && text[0] != '{' && text[0] != '"'
    ensures ReadValue(text) == ReadLiteral(text)
  {
    hide ReadLiteral;
  }

  lemma ReadEmptyArray(rest: string)
    ensures ReadValue("[]" + rest) == Some((Arr([]), rest))
  {
    assert ("[]" + rest)[1..] == "]" + rest && ("]" + rest)[1..] == rest;
  }

  lemma ReadArray(inner: string, items: seq<Json>, rest: string)
    requires Starts(inner) && ReadItems(inner) == Some((items, rest))
    ensures ReadValue("[" + inner) == Some((Arr(items), rest))
  {
    assert ("[" + inner)[1..] == inner;
  }

  lemma ReadLastItem(text: string, head: Json, rest: string)
    requires ReadValue(text) == Some((head, "]" + rest))
    ensures ReadItems(text) == Some(([head], rest))
  {
    assert ("]" + rest)[1..] == rest;
  }

  lemma ReadMoreItems(text: string, head: Json, next: string, tail: seq<Json>, rest: string)
    requires ReadValue(text) == Some((head, "," + next)) && ReadItems(next) == Some((tail, rest))
    ensures ReadItems(text) == Some(([head] + tail, rest))
  {
    assert ("," + next)[1..] == next;
  }

  lemma ReadEmptyObject(rest: string)
    ensures ReadValue("{}" + rest) == Some((Obj(map[]), rest))
  {
    assert ("{}" + rest)[1..] == "}" + rest && ("}" + rest)[1..] == rest;
  }

  lemma ReadObject(inner: string, pairs: seq<(string, Json)>, rest: string)
    requires Starts(inner) && ReadMembers(inner) == Some((pairs, rest))
    ensures ReadValue("{" + inner) == Some((Obj(FromPairs(pairs)), rest))
  {
    assert ("{" + inner)[1..] == inner;
  }

  lemma ReadLastMember(text: string, name: string, value: string, head: Json, rest: string)
    requires Starts(text) && ReadString(text) == Some((name, ":" + value))
    requires ReadValue(value) == Some((head, "}" + rest))
    ensures ReadMembers(text) == Some(([(name, head)], rest))
  {
    assert (":" + value)[1..] == value && ("}" + rest)[1..] == rest;
  }

  lemma ReadMoreMembers(text: string, name: string, value: string, head: Json, next: string, tail: seq<(string, Json)>, rest: string)
    requires Starts(text) && ReadString(text) == Some((name, ":" + value))
    requires ReadValue(value) == Some((head, "," + next)) && ReadMembers(next) == Some((tail, rest))
    ensures ReadMembers(text) == Some(([(name, head)] + tail, rest))
  {
    assert (":" + value)[1..] == value && ("," + next)[1..] == next;
  }

  // ----- whole values

  lemma QuotedStarts(quote: Quoter, s: string)
    requires Inverts(quote)
    ensures quote(s) != "" && quote(s)[0] == '"'
  {
    assert quote(s) + "" == quote(s);
    assert ReadString(quote(s) + "").Some?;
  }

  lemma PrintStarts(v: Json, quote: Quoter)
    requires Inverts(quote) && Decoded(v)
    ensures Starts(Print(v, quote))
  {
    match v
    case Str(s) => QuotedStarts(quote, s);
    case Num(literal) => NumberReadsBack(literal, "");
    case _ =>
  }

  /** Printing is lossless: whatever follows a printed value, reading takes exactly
      that value and leaves exactly what follows. */
  lemma {:induction false} ValueReadsBack(v: Json, quote: Quoter, rest: string)
    requires Inverts(quote) && Decoded(v) && Stops(rest)
    ensures ReadValue(Print(v, quote) + rest) == Some((v, rest))
    decreases v, 1, 0
  {
    match v
    case Null => assert ("null" + rest)[4..] == rest;
    case Bool(b) =>
      if b {
        assert ("true" + rest)[4..] == rest;
      } else {
        assert ("false" + rest)[5..] == rest;
      }
    case Str(s) =>
      QuotedStarts(quote, s);
      assert (quote(s) + rest)[0] == '"';
    case Num(literal) => NumberReadsBack(literal, rest);
    case Arr(items) => ArrayReadsBack(v, quote, rest);
    case Obj(members) => ObjectReadsBack(v, quote, rest);
  }

  /** The printed items from the i-th one on, without the comma before it, and what follows. */
  ghost function ItemsFrom(v: Json, i: nat, quote: Quoter, rest: string): string
    requires v.Arr? && i < |v.items|
  {
    Print(v.items[i], quote) + ItemsAfter(v, i, quote, rest)
  }

  ghost function ItemsAfter(v: Json, i: nat, quote: Quoter, rest: string): string
    requires v.Arr? && i < |v.items|
  {
    PrintItems(v, i + 1, quote) + ("]" + rest)
  }

  lemma ItemsAfterIs(v: Json, i: nat, quote: Quoter, rest: string)
    requires v.Arr? && i < |v.items|
    ensures i + 1 == |v.items| ==> ItemsAfter(v, i, quote, rest) == "]" + rest
    ensures i + 1 < |v.items| ==> ItemsAfter(v, i, quote, rest) == "," + ItemsFrom(v, i + 1, quote, rest)
  {
    if i + 1 < |v.items| {
      assert PrintItems(v, i + 1, quote) == "," + Print(v.items[i + 1], quote) + PrintItems(v, i + 2, quote);
    }
  }

  lemma ItemsStart(v: Json, quote: Quoter, rest: string)
    requires v.Arr? && v.items != []
    ensures Print(v, quote) + rest == "[" + ItemsFrom(v, 0, quote, rest)
  {
    hide EscapeRune;
    assert PrintItems(v, 0, quote) == Print(v.items[0], quote) + PrintItems(v, 1, quote);
    Wrapped("", "[", PrintItems(v, 0, quote), "]" + rest);
  }

  lemma ArrayReadsBack(v: Json, quote: Quoter, rest: string)
    requires Inverts(quote) && Decoded(v) && v.Arr?
    ensures ReadValue(Print(v, quote) + rest) == Some((v, rest))
    decreases v, 0, |v.items| + 1
  {
    hide ReadValue, ReadItems;
    if v.items == [] {
      ReadEmptyArray(rest);
      assert Print(v, quote) == "[]";
    } else {
      PrintStarts(v.items[0], quote);
      ItemsReadBack(v, 0, quote, rest);
      ReadArray(ItemsFrom(v, 0, quote, rest), v.items[0..], rest);
      ItemsStart(v, quote, rest);
      assert v.items[0..] == v.items;
    }
  }

  lemma ItemsReadBack(v: Json, i: nat, quote: Quoter, rest: string)
    requires Inverts(quote) && Decoded(v) && v.Arr? && i < |v.items|
    ensures ReadItems(ItemsFrom(v, i, quote, rest)) == Some((v.items[i..], rest))
    decreases v, 0, |v.items| - i
  {
    hide ReadValue, ReadItems;
    var text := ItemsFrom(v, i, quote, rest);
    ItemsAfterIs(v, i, quote, rest);
    ValueReadsBack(v.items[i], quote, ItemsAfter(v, i, quote, rest));
    if i + 1 == |v.items| {
      ReadLastItem(text, v.items[i], rest);
      assert v.items[i..] == [v.items[i]];
    } else {
      ItemsReadBack(v, i + 1, quote, rest);
      ReadMoreItems(text, v.items[i], ItemsFrom(v, i + 1, quote, rest), v.items[i + 1..], rest);
      assert v.items[i..] == [v.items[i]] + v.items[i + 1..];
    }
  }

  ghost function Pairs(v: Json, keys: seq<string>): (pairs: seq<(string, Json)>)
    requires v.Obj? && forall k :: k in keys ==> k in v.members
  {
    if keys == [] then [] else [(keys[0], v.members[keys[0]])] + Pairs(v, keys[1..])
  }

  lemma PairsFrom(v: Json, keys: seq<string>, i: nat)
    requires v.Obj? && i < |keys| && forall k :: k in keys ==> k in v.members
    ensures Pairs(v, keys[i..]) == [(keys[i], v.members[keys[i]])] + Pairs(v, keys[i + 1..])
    ensures i + 1 == |keys| ==> Pairs(v, keys[i..]) == [(keys[i], v.members[keys[i]])]
  {
    assert keys[i..][1..] == keys[i + 1..];
  }

  lemma {:induction false} PairsFill(v: Json, keys: seq<string>)
    requires v.Obj? && forall k :: k in keys ==> k in v.members
    ensures FromPairs(Pairs(v, keys)) == map k | k in v.members && k in keys :: v.members[k]
  {
    if keys != [] {
      PairsFill(v, keys[1..]);
      assert Pairs(v, keys)[1..] == Pairs(v, keys[1..]);
      assert forall k :: k in keys <==> k == keys[0] || k in keys[1..];
    }
  }

  /** The printed members from the i-th one on, without the comma before it, and what follows. */
  ghost function MembersFrom(v: Json, keys: seq<string>, i: nat, quote: Quoter, rest: string): string
    requires v.Obj? && i < |keys| && forall k :: k in keys ==> k in v.members
  {
    quote(keys[i]) + (":" + (Print(v.members[keys[i]], quote) + MembersAfter(v, keys, i, quote, rest)))
  }

  ghost function MembersAfter(v: Json, keys: seq<string>, i: nat, quote: Quoter, rest: string): string
    requires v.Obj? && i < |keys| && forall k :: k in keys ==> k in v.members
  {
    PrintMembers(v, keys, i + 1, quote) + ("}" + rest)
  }

  lemma MembersAfterIs(v: Json, keys: seq<string>, i: nat, quote: Quoter, rest: string)
    requires v.Obj? && i < |keys| && forall k :: k in keys ==> k in v.members
    ensures i + 1 == |keys| ==> MembersAfter(v, keys, i, quote, rest) == "}" + rest
    ensures i + 1 < |keys| ==> MembersAfter(v, keys, i, quote, rest) == "," + MembersFrom(v, keys, i + 1, quote, rest)
  {
    if i + 1 < |keys| {
      MemberInFront(v, keys, i + 1, quote, "}" + rest);
    }
  }

  /** A printed member other than the first, and what follows. */
  lemma MemberInFront(v: Json, keys: seq<string>, i: nat, quote: Quoter, rest: string)
    requires v.Obj? && 0 < i < |keys| && forall k :: k in keys ==> k in v.members
    ensures PrintMembers(v, keys, i, quote) + rest
         == "," + (quote(keys[i]) + (":" + (Print(v.members[keys[i]], quote) + (PrintMembers(v, keys, i + 1, quote) + rest))))
  {
    var name, value, tail := quote(keys[i]), Print(v.members[keys[i]], quote), PrintMembers(v, keys, i + 1, quote);
    assert PrintMembers(v, keys, i, quote) == "," + name + ":" + value + tail;
    hide Print, PrintMembers;
    Nested(",", name, value, tail, rest);
  }

  lemma Nested(sep: string, name: string, value: string, tail: string, rest: string)
    ensures sep + name + ":" + value + tail + rest == sep + (name + (":" + (value + (tail + rest))))
  {
    Assoc(sep + name + ":" + value, tail, rest);
    Assoc(sep + name + ":", value, tail + rest);
    Assoc(sep + name, ":", value + (tail + rest));
    Assoc(sep, name, ":" + (value + (tail + rest)));
  }

  lemma MembersStart(v: Json, keys: seq<string>, quote: Quoter, rest: string)
    requires v.Obj? && keys == SortedKeys.Sorted(v.members.Keys) && keys != []
    ensures Print(v, quote) + rest == "{" + MembersFrom(v, keys, 0, quote, rest)
  {
    var body := PrintMembers(v, keys, 0, quote);
    assert Print(v, quote) == "{" + body + "}";
    hide Print, PrintMembers, MembersFrom;
    FirstMember(v, keys, quote, "}" + rest);
    Assoc("{" + body, "}", rest);
    Assoc("{", body, "}" + rest);
  }

  lemma FirstMember(v: Json, keys: seq<string>, quote: Quoter, rest: string)
    requires v.Obj? && keys != [] && (forall k :: k in keys ==> k in v.members) && rest != "" && rest[0] == '}'
    ensures PrintMembers(v, keys, 0, quote) + rest == MembersFrom(v, keys, 0, quote, rest[1..])
  {
    var name, value, tail := quote(keys[0]), Print(v.members[keys[0]], quote), PrintMembers(v, keys, 1, quote);
    assert PrintMembers(v, keys, 0, quote) == "" + name + ":" + value + tail;
    hide Print, PrintMembers;
    assert "" + name == name;
    assert "}" + rest[1..] == rest;
    Assoc(name + ":" + value, tail, rest);
    Assoc(name + ":", value, tail + rest);
    Assoc(name, ":", value + (tail + rest));
  }

  lemma ObjectReadsBack(v: Json, quote: Quoter, rest: string)
    requires Inverts(quote) && Decoded(v) && v.Obj?
    ensures ReadValue(Print(v, quote) + rest) == Some((v, rest))
    decreases v, 0, |SortedKeys.Sorted(v.members.Keys)| + 1
  {
    hide ReadValue, ReadMembers;
    var keys := SortedKeys.Sorted(v.members.Keys);
    if keys == [] {
      ReadEmptyObject(rest);
      assert v.members.Keys == {};
      assert v.members == map[];
      assert Print(v, quote) == "{}";
    } else {
      PairsFill(v, keys);
      assert FromPairs(Pairs(v, keys)) == v.members;
      QuotedStarts(quote, keys[0]);
      MembersReadBack(v, keys, 0, quote, rest);
      assert keys[0..] == keys;
      ReadObject(MembersFrom(v, keys, 0, quote, rest), Pairs(v, keys), rest);
      MembersStart(v, keys, quote, rest);
    }
  }

  lemma MembersReadBack(v: Json, keys: seq<string>, i: nat, quote: Quoter, rest: string)
    requires Inverts(quote) && Decoded(v) && v.Obj? && i < |keys| && forall k :: k in keys ==> k in v.members
    ensures ReadMembers(MembersFrom(v, keys, i, quote, rest)) == Some((Pairs(v, keys[i..]), rest))
    decreases v, 0, |keys| - i
  {
    hide ReadValue, ReadMembers, ReadString, Print, MembersAfter, Pairs;
    PairsFrom(v, keys, i);
    var key := keys[i];
    var value := Print(v.members[key], quote) + MembersAfter(v, keys, i, quote, rest);
    var text := MembersFrom(v, keys, i, quote, rest);
    QuotedStarts(quote, key);
    assert ReadString(quote(key) + (":" + value)) == Some((key, ":" + value));
    MembersAfterIs(v, keys, i, quote, rest);
    ValueReadsBack(v.members[key], quote, MembersAfter(v, keys, i, quote, rest));
    if i + 1 == |keys| {
      ReadLastMember(text, key, value, v.members[key], rest);
    } else {
      MembersReadBack(v, keys, i + 1, quote, rest);
      ReadMoreMembers(text, key, value, v.members[key], MembersFrom(v, keys, i + 1, quote, rest), Pairs(v, keys[i + 1..]), rest);
    }
  }

  // ----- the digest argument

  /** Parsing canonical text gives back the tree it was printed from. */
  lemma PrintThenParse(v: Json, quote: Quoter)
    requires Inverts(quote) && Decoded(v)
    ensures Parse(Print(v, quote)) == Some(v)
  {
    ValueReadsBack(v, quote, "");
    assert Print(v, quote) + "" == Print(v, quote);
  }

  /** Two trees have the same canonical bytes only if they are the same tree. */
  lemma CanonicalBytesInjective(v: Json, w: Json, quote: Quoter)
    requires Inverts(quote) && Decoded(v) && Decoded(w)
    ensures Utf8(Print(v, quote)) == Utf8(Print(w, quote)) <==> v == w
  {
    PrintThenParse(v, quote);
    PrintThenParse(w, quote);
    Utf8Injective(Print(v, quote), Print(w, quote));
  }

  // ----- re-canonicalising

  lemma {:induction false} ReadsDecoded(text: string)
    requires ReadValue(text).Some?
    ensures Decoded(ReadValue(text).value.0)
    decreases |text|, 1
  {
    var s := SkipSpace(text);
    if s[0] == '[' {
      var inner := SkipSpace(s[1..]);
      if inner[0] != ']' { ItemsDecoded(inner); }
    } else if s[0] == '{' {
      var inner := SkipSpace(s[1..]);
      if inner[0] != '}' { MembersDecoded(inner); }
    }
  }

  lemma ItemsDecoded(text: string)
    requires ReadItems(text).Some?
    ensures forall i :: 0 <= i < |ReadItems(text).value.0| ==> Decoded(ReadItems(text).value.0[i])
    decreases |text|, 2
  {
    ReadsDecoded(text);
    var next := SkipSpace(ReadValue(text).value.1);
    if next[0] == ',' { ItemsDecoded(next[1..]); }
  }

  lemma MembersDecoded(text: string)
    requires ReadMembers(text).Some?
    ensures Decoded(Obj(FromPairs(ReadMembers(text).value.0)))
    decreases |text|, 2
  {
    var value := SkipSpace(ReadString(SkipSpace(text)).value.1)[1..];
    ReadsDecoded(value);
    var next := SkipSpace(ReadValue(value).value.1);
    if next[0] == ',' { MembersDecoded(next[1..]); }
  }

  /** The canonical form of a document, where it has one. */
  ghost function Canon(raw: string, quote: Quoter, parseFloat: string -> bool): Option<string> {
    match Parse(raw)
    case None => None
    case Some(v) => if Writable(v, parseFloat) then Some(Print(v, quote)) else None
  }

  /** `canonicalJSONBytes`, and `canonicalJSONWithMode` from the decoder on. */
  method Canonicalize(raw: string, escapeHTML: bool, marshal: Quoter, parseFloat: string -> bool) returns (r: Option<string>)
    ensures r == Canon(raw, Chosen(escapeHTML, marshal), parseFloat)
  {
    var generic := Parse(raw);
    if generic == None {
      return None;
    }
    var output := new Buffer();
    ghost var text := Print(generic.value, Chosen(escapeHTML, marshal));
    assert "" + text == text;
    var bad := WriteValue(output, generic.value, escapeHTML, marshal, parseFloat);
    NothingBad(generic.value, parseFloat);
    return if bad == None then Some(output.text) else None;
  }

  /** Canonical text is its own canonical form. */
  lemma CanonIdempotent(raw: string, quote: Quoter, parseFloat: string -> bool)
    requires Inverts(quote) && Canon(raw, quote, parseFloat).Some?
    ensures Canon(Canon(raw, quote, parseFloat).value, quote, parseFloat) == Canon(raw, quote, parseFloat)
  {
    ReadsDecoded(raw);
    PrintThenParse(Parse(raw).value, quote);
  }

  /** Two documents share a canonical form exactly when they decode to the same tree. */
  lemma CanonDecides(a: string, b: string, quote: Quoter, parseFloat: string -> bool)
    requires Inverts(quote) && Canon(a, quote, parseFloat).Some? && Canon(b, quote, parseFloat).Some?
    ensures Utf8(Canon(a, quote, parseFloat).value) == Utf8(Canon(b, quote, parseFloat).value) <==> Parse(a) == Parse(b)
  {
    ReadsDecoded(a);
    ReadsDecoded(b);
    CanonicalBytesInjective(Parse(a).value, Parse(b).value, quote);
  }
}
