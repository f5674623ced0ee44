/** The scanner for portable validation patterns, admin/presentation/validation.go:1048-1138,
    against the grammar it stands for. */
module PatternScanner {
  import opened Text

  // ----- the grammar, over code points

  datatype Atom =
    | Plain(code: nat)
    | Escape(code: nat)               // \c
    | HexEscape(high: nat, low: nat)  // \xhl

  datatype Item =
    | Single(atom: Atom)
    | Class(negated: bool, members: seq<Atom>)

  const BACKSLASH := 92
  const OPEN := 91
  const CLOSE := 93
  const CARET := 94
  const DOT := 46
  const OPEN_BRACE := 123
  const CLOSE_BRACE := 125
  const LETTER_X := 120

  const ESCAPES_OUTSIDE := "bBdDfnrtvwW$()*+./?[\\]^{|}"
  const ESCAPES_INSIDE := "dDfnrtvwW$()*+-./?[\\]^{|}"

  predicate Listed(code: nat, characters: string) {
    code < 0x80 && (code as char) in characters
  }

  predicate IsHex(code: nat) {
    || '0' as nat <= code <= '9' as nat
    || 'a' as nat <= code <= 'f' as nat
    || 'A' as nat <= code <= 'F' as nat
  }

  predicate AtomAllowed(a: Atom, inClass: bool) {
    match a
    case Plain(c) =>
      if inClass then c != BACKSLASH && c != CLOSE
      else c !in [BACKSLASH, OPEN, CLOSE, DOT, OPEN_BRACE, CLOSE_BRACE]
    case Escape(c) => Listed(c, if inClass then ESCAPES_INSIDE else ESCAPES_OUTSIDE)
    case HexEscape(h, l) => IsHex(h) && IsHex(l)
  }

  ghost predicate Members(members: seq<Atom>) {
    forall i :: 0 <= i < |members| ==> AtomAllowed(members[i], true)
  }

  /** A class has content, and content that does not start with '^' unless negated. */
  ghost predicate ItemAllowed(item: Item) {
    match item
    case Single(a) => AtomAllowed(a, false)
    case Class(negated, members) => Members(members) && members != [] && (!negated ==> members[0] != Plain(CARET))
  }

  ghost predicate Items(items: seq<Item>) {
    forall i :: 0 <= i < |items| ==> ItemAllowed(items[i])
  }

  /** The text of an atom, of the members of a class with its closing bracket, and of a
      whole pattern; each in front of the text that follows. */
  function RenderAtom(a: Atom, rest: seq<nat>): seq<nat> {
    match a
    case Plain(c) => [c] + rest
    case Escape(c) => [BACKSLASH, c] + rest
    case HexEscape(h, l) => [BACKSLASH, LETTER_X, h, l] + rest
  }

  function RenderMembers(members: seq<Atom>, rest: seq<nat>): seq<nat> {
    if members == [] then [CLOSE] + rest else RenderAtom(members[0], RenderMembers(members[1..], rest))
  }

  function RenderItems(items: seq<Item>): seq<nat> {
    if items == [] then []
    else
      var rest := RenderItems(items[1..]);
      match items[0]
      case Single(a) => RenderAtom(a, rest)
      case Class(false, members) => [OPEN] + RenderMembers(members, rest)
      case Class(true, members) => [OPEN] + ([CARET] + RenderMembers(members, rest))
  }

  // ----- the scanner as a function

  /** The flags inClass, classHasContent and classAtStart: outside; after '['; after '[^';
      with content. */
  datatype Mode = Outside | Fresh | Negated | Filled

  function Content(m: Mode): Mode {
    if m.Outside? then Outside else Filled
  }

  /** One unescaped character. */
  function Step(c: nat, m: Mode): Option<Mode> {
    if c == OPEN then Some(if m.Outside? then Fresh else Filled)
    else if c == CLOSE then (if m.Filled? then Some(Outside) else None)
    else if c == CARET then Some(if m.Outside? then Outside else if m.Fresh? then Negated else Filled)
    else if c == OPEN_BRACE || c == CLOSE_BRACE || c == DOT then (if m.Outside? then None else Some(Filled))
    else Some(Content(m))
  }

  predicate Scan(s: seq<nat>, m: Mode)
    decreases |s|
  {
    if s == [] then m.Outside?
    else if s[0] == BACKSLASH then
      if |s| == 1 then false
      else if s[1] == LETTER_X then |s| >= 4 && IsHex(s[2]) && IsHex(s[3]) && Scan(s[4..], Content(m))
      else Listed(s[1], if m.Outside? then ESCAPES_OUTSIDE else ESCAPES_INSIDE) && Scan(s[2..], Content(m))
    else
      match Step(s[0], m)
      case None => false
      case Some(next) => Scan(s[1..], next)
  }

  // ----- the scanner accepts what the grammar produces

  lemma ScansAtom(a: Atom, rest: seq<nat>, m: Mode)
    requires AtomAllowed(a, !m.Outside?)
    requires a == Plain(CARET) ==> !m.Fresh?
    ensures Scan(RenderAtom(a, rest), m) == Scan(rest, Content(m))
  {
    var s := RenderAtom(a, rest);
    match a
    case Plain(c) => assert s[1..] == rest;
    case Escape(c) =>
      assert c != LETTER_X;
      assert s[2..] == rest;
    case HexEscape(h, l) => assert s[4..] == rest;
  }

  /** The content of a class followed by its closing bracket. */
  lemma {:induction false} ScansMembers(members: seq<Atom>, rest: seq<nat>, m: Mode)
    requires Members(members) && !m.Outside?
    requires members == [] ==> m.Filled?
    requires m.Fresh? ==> members[0] != Plain(CARET)
    ensures Scan(RenderMembers(members, rest), m) == Scan(rest, Outside)
  {
    if members == [] {
      var s := RenderMembers(members, rest);
      assert s[0] == CLOSE && s[1..] == rest;
    } else {
      ScansAtom(members[0], RenderMembers(members[1..], rest), m);
      ScansMembers(members[1..], rest, Filled);
    }
  }

  lemma ScansStep(c: nat, rest: seq<nat>, m: Mode)
    requires c != BACKSLASH
    ensures Scan([c] + rest, m) == (Step(c, m).Some? && Scan(rest, Step(c, m).value))
  {
    assert ([c] + rest)[1..] == rest;
  }

  lemma {:induction false} ScansItems(items: seq<Item>)
    requires Items(items)
    ensures Scan(RenderItems(items), Outside)
  {
    if items != [] {
      var rest := RenderItems(items[1..]);
      ScansItems(items[1..]);
      hide Scan, RenderMembers;
      match items[0]
      case Single(a) => ScansAtom(a, rest, Outside);
      case Class(negated, members) =>
        ScansMembers(members, rest, if negated then Negated else Fresh);
        ScansStep(CARET, RenderMembers(members, rest), Fresh);
        ScansStep(OPEN, if negated then [CARET] + RenderMembers(members, rest) else RenderMembers(members, rest), Outside);
    }
  }

  // ----- and produces what the scanner accepts

  /** What the rest of a pattern consists of in each mode. */
  ghost predicate Continues(s: seq<nat>, m: Mode, negated: bool, members: seq<Atom>, items: seq<Item>) {
    && Items(items)
    && match m
       case Outside => s == RenderItems(items)
       case Fresh => ItemAllowed(Class(negated, members))
                     && s == if negated then [CARET] + RenderMembers(members, RenderItems(items)) else RenderMembers(members, RenderItems(items))
       case Negated => Members(members) && members != [] && s == RenderMembers(members, RenderItems(items))
       case Filled => Members(members) && s == RenderMembers(members, RenderItems(items))
  }

  /** An item in front of others, and a member in front of others. */
  lemma ItemInFront(item: Item, items: seq<Item>)
    requires ItemAllowed(item) && Items(items)
    ensures Items([item] + items) && ([item] + items)[1..] == items
  {
  }

  lemma MemberInFront(a: Atom, members: seq<Atom>, rest: seq<nat>)
    requires AtomAllowed(a, true) && Members(members)
    ensures Members([a] + members) && RenderMembers([a] + members, rest) == RenderAtom(a, RenderMembers(members, rest))
  {
    assert ([a] + members)[1..] == members;
  }

  /** One atom in front of what continues after it. */
  lemma AtomContinues(a: Atom, s: seq<nat>, m: Mode, members: seq<Atom>, items: seq<Item>)
      returns (allMembers: seq<Atom>, allItems: seq<Item>)
    requires AtomAllowed(a, !m.Outside?) && (a == Plain(CARET) ==> !m.Fresh?)
    requires Continues(s, Content(m), false, members, items)
    ensures Continues(RenderAtom(a, s), m, false, allMembers, allItems)
  {
    if m.Outside? {
      allMembers, allItems := members, [Single(a)] + items;
      ItemInFront(Single(a), items);
    } else {
      allMembers, allItems := [a] + members, items;
      MemberInFront(a, members, RenderItems(items));
    }
  }

  /** One unescaped character in front of what continues after it. */
  lemma StepContinues(c: nat, s: seq<nat>, m: Mode, negated: bool, members: seq<Atom>, items: seq<Item>)
      returns (negates: bool, allMembers: seq<Atom>, allItems: seq<Item>)
    requires c != BACKSLASH && Step(c, m).Some? && Continues(s, Step(c, m).value, negated, members, items)
    ensures Continues([c] + s, m, negates, allMembers, allItems)
  {
    negates, allMembers, allItems := false, members, items;
    if c == OPEN && m.Outside? {
      allItems := [Class(negated, members)] + items;
      ItemInFront(Class(negated, members), items);
    } else if c == CLOSE {
      allMembers := [];
    } else if c == CARET && m.Fresh? {
      negates := true;
    } else {
      allMembers, allItems := AtomContinues(Plain(c), s, m, members, items);
    }
  }

  lemma {:induction false} Parses(s: seq<nat>, m: Mode) returns (negated: bool, members: seq<Atom>, items: seq<Item>)
    requires Scan(s, m)
    ensures Continues(s, m, negated, members, items)
    decreases |s|
  {
    hide Continues;
    negated, members, items := false, [], [];
    if s == [] {
      EndContinues();
    } else if s[0] == BACKSLASH {
      var a := if s[1] == LETTER_X then HexEscape(s[2], s[3]) else Escape(s[1]);
      var rest := if s[1] == LETTER_X then s[4..] else s[2..];
      negated, members, items := Parses(rest, Content(m));
      ContentIgnoresNegation(rest, Content(m), negated, members, items);
      members, items := AtomContinues(a, rest, m, members, items);
      negated := false;
      assert RenderAtom(a, rest) == s;
    } else {
      negated, members, items := Parses(s[1..], Step(s[0], m).value);
      negated, members, items := StepContinues(s[0], s[1..], m, negated, members, items);
      assert [s[0]] + s[1..] == s;
    }
  }

  lemma EndContinues()
    ensures Continues([], Outside, false, [], [])
  {
  }

  lemma ContentIgnoresNegation(s: seq<nat>, m: Mode, negated: bool, members: seq<Atom>, items: seq<Item>)
    requires Continues(s, m, negated, members, items) && (m.Outside? || m.Filled?)
    ensures Continues(s, m, false, members, items)
  {
  }

  // ----- bytes and characters

  lemma {:induction false} ScansHighBytes(bytes: seq<nat>, rest: seq<nat>, m: Mode)
    requires bytes != [] && forall i :: 0 <= i < |bytes| ==> bytes[i] >= 0x80
    ensures Scan(bytes + rest, m) == Scan(rest, Content(m))
  {
    assert bytes + rest == [bytes[0]] + (bytes[1..] + rest);
    ScansStep(bytes[0], bytes[1..] + rest, m);
    if |bytes| > 1 {
      ScansHighBytes(bytes[1..], rest, Content(m));
    } else {
      assert bytes[1..] + rest == rest;
    }
  }

  /** The first byte of a string tells an ASCII character from any other. */
  lemma FirstByte(s: string)
    requires s != ""
    ensures s[0] as nat < 0x80 ==> Utf8(s) == [s[0] as nat] + Utf8(s[1..]) && Utf8(s)[1..] == Utf8(s[1..])
    ensures s[0] as nat >= 0x80 ==> Utf8(s)[0] >= 0x80
    ensures Codes(s) == [s[0] as nat] + Codes(s[1..]) && Codes(s)[1..] == Codes(s[1..])
  {
    EncodeRuneAscii(s[0]);
    assert Codes(s) == [s[0] as nat] + Codes(s[1..]);
  }

  /** The scanner looks at bytes; it sees the same pattern in the characters. */
  lemma {:induction false} BytesAsCharacters(s: string, m: Mode)
    ensures Scan(Utf8(s), m) == Scan(Codes(s), m)
    decreases |s|, 2
  {
    if s != "" {
      var c := s[0] as nat;
      FirstByte(s);
      if c >= 0x80 {
        EncodeRuneAscii(s[0]);
        ScansHighBytes(EncodeRune(s[0]), Utf8(s[1..]), m);
        ScansStep(c, Codes(s[1..]), m);
        BytesAsCharacters(s[1..], Content(m));
      } else if c != BACKSLASH {
        ScansStep(c, Utf8(s[1..]), m);
        ScansStep(c, Codes(s[1..]), m);
        if Step(c, m).Some? { BytesAsCharacters(s[1..], Step(c, m).value); }
      } else {
        EscapeAsCharacters(s, m);
      }
    }
  }

  lemma {:induction false} EscapeAsCharacters(s: string, m: Mode)
    requires s != "" && s[0] as nat == BACKSLASH
    ensures Scan(Utf8(s), m) == Scan(Codes(s), m)
    decreases |s|, 1
  {
    FirstByte(s);
    if |s| > 1 {
      FirstByte(s[1..]);
      if s[1] as nat == LETTER_X {
        HexAsCharacters(s, m);
      } else if s[1] as nat < 0x80 {
        assert s[1..][1..] == s[2..];
        assert Utf8(s)[2..] == Utf8(s[2..]) && Codes(s)[2..] == Codes(s[2..]);
        BytesAsCharacters(s[2..], Content(m));
      }
    }
  }

  lemma {:induction false} HexAsCharacters(s: string, m: Mode)
    requires |s| > 1 && s[0] as nat == BACKSLASH && s[1] as nat == LETTER_X
    ensures Scan(Utf8(s), m) == Scan(Codes(s), m)
    decreases |s|, 0
  {
    FirstByte(s);
    FirstByte(s[1..]);
    assert s[1..][1..] == s[2..];
    assert Utf8(s) == [BACKSLASH, LETTER_X] + Utf8(s[2..]);
    if |s| > 2 {
      FirstByte(s[2..]);
      assert s[2..][1..] == s[3..];
      if |s| > 3 && s[2] as nat < 0x80 {
        FirstByte(s[3..]);
        assert s[3..][1..] == s[4..];
        if s[3] as nat < 0x80 {
          assert Utf8(s)[4..] == Utf8(s[4..]) && Codes(s)[4..] == Codes(s[4..]);
          BytesAsCharacters(s[4..], Content(m));
        }
      }
    }
  }

  // ----- the loop

  predicate StartsAt(s: string, part: string, i: nat) {
    i + |part| <= |s| && s[i..i + |part|] == part
  }

  predicate Contains(s: string, part: string) {
    exists i :: 0 <= i <= |s| && StartsAt(s, part, i)
  }

  predicate PortableRune(c: char) {
    c as nat <= 0xffff && c as nat != 0x2028 && c as nat != 0x2029
  }

  ghost predicate Prefiltered(value: string) {
    !Contains(value, "(?") && !Contains(value, "[[:") && forall i :: 0 <= i < |value| ==> PortableRune(value[i])
  }

  /** What a portable pattern is. */
  ghost predicate Portable(value: string) {
    Prefiltered(value) && exists items :: Items(items) && RenderItems(items) == Codes(value)
  }

  lemma ScanDecides(value: string)
    ensures Scan(Utf8(value), Outside) <==> exists items :: Items(items) && RenderItems(items) == Codes(value)
  {
    BytesAsCharacters(value, Outside);
    if Scan(Codes(value), Outside) {
      var negated, members, items := Parses(Codes(value), Outside);
    }
    if items :| Items(items) && RenderItems(items) == Codes(value) {
      ScansItems(items);
    }
  }

  function ModeOf(inClass: bool, hasContent: bool, atStart: bool): Mode {
    if !inClass then Outside else if hasContent then Filled else if atStart then Fresh else Negated
  }

  /** The loop of the scanner, over the bytes of the pattern. */
  method ScanBytes(value: seq<nat>) returns (ok: bool)
    ensures ok == Scan(value, Outside)
  {
    var inClass, classHasContent, classAtStart := false, false, false;
    var index := 0;
    while index < |value|
      invariant 0 <= index <= |value|
      invariant !inClass || classHasContent ==> !classAtStart
      invariant !inClass ==> !classHasContent
      invariant Scan(value, Outside) == Scan(value[index..], ModeOf(inClass, classHasContent, classAtStart))
    {
      ghost var rest, mode := value[index..], ModeOf(inClass, classHasContent, classAtStart);
      assert rest[0] == value[index] && rest[1..] == value[index + 1..];
      if value[index] == BACKSLASH {
        index := index + 1;
        if index >= |value| {
          return false;
        }
        var escaped := value[index];
        assert rest[1] == escaped && rest[2..] == value[index + 1..];
        if escaped == LETTER_X {
          if index + 2 >= |value| || !IsHex(value[index + 1]) || !IsHex(value[index + 2]) {
            return false;
          }
          index := index + 2;
          assert rest[4..] == value[index + 1..];
        } else if !Listed(escaped, if inClass then ESCAPES_INSIDE else ESCAPES_OUTSIDE) {
          return false;
        }
        if inClass {
          classHasContent, classAtStart := true, false;
        }
      } else if value[index] == OPEN {
        if inClass {
          classHasContent, classAtStart := true, false;
        } else {
          inClass, classHasContent, classAtStart := true, false, true;
        }
      } else if value[index] == CLOSE {
        if !inClass || !classHasContent {
          return false;
        }
        inClass, classHasContent, classAtStart := false, false, false;
      } else if value[index] == CARET {
        if inClass {
          if classAtStart {
            classAtStart := false;
          } else {
            classHasContent := true;
          }
        }
      } else if value[index] == OPEN_BRACE || value[index] == CLOSE_BRACE || value[index] == DOT {
        if !inClass {
          return false;
        }
        classHasContent, classAtStart := true, false;
      } else if inClass {
        classHasContent, classAtStart := true, false;
      }
      index := index + 1;
    }
    ok := !inClass;
  }

  method IsPortableCapabilityPattern(value: string) returns (ok: bool)
    ensures ok <==> Portable(value)
  {
    if Contains(value, "(?") || Contains(value, "[[:") {
      return false;
    }
    for i := 0 to |value|
      invariant forall k :: 0 <= k < i ==> PortableRune(value[k])
    {
      if !PortableRune(value[i]) {
        return false;
      }
    }
    ScanDecides(value);
    ok := ScanBytes(Utf8(value));
  }
}
