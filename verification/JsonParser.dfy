/** A reference reader for JSON text (RFC 8259), standing for `json.Decoder` with
    `UseNumber`, and the proof that canonical text reads back unchanged. */
module JsonParser {
  import opened Text
  import opened Canonical

  type Read<T> = Option<(T, string)>

  predicate IsSpace(c: char) {
    c == ' ' || c == '\t' || c == '\n' || c == '\r'
  }

  function SkipSpace(s: string): (r: string)
    ensures |r| <= |s|
    ensures r != "" ==> !IsSpace(r[0])
  {
    if s != "" && IsSpace(s[0]) then SkipSpace(s[1..]) else s
  }

  // ----- strings, section 7

  function HexValue(c: char): Option<nat> {
    if '0' <= c <= '9' then Some((c as int - '0' as int) as nat)
    else if 'a' <= c <= 'f' then Some((c as int - 'a' as int + 10) as nat)
    else if 'A' <= c <= 'F' then Some((c as int - 'A' as int + 10) as nat)
    else None
  }

  /** The four hexadecimal digits of a `\u` escape. */
  function Hex4(s: string): (r: Option<nat>)
    ensures r.Some? ==> |s| >= 4 && r.value < 0x10000
  {
    if |s| < 4 then None
    else
      match (HexValue(s[0]), HexValue(s[1]), HexValue(s[2]), HexValue(s[3]))
      case (Some(a), Some(b), Some(c), Some(d)) => Some(a * 4096 + b * 256 + c * 16 + d)
      case _ => None
  }

  const REPLACEMENT: char := '\U{FFFD}'

  /** The rune of a `\u` escape and the text after it; a surrogate without its
      partner reads as the replacement character. */
  function UnicodeEscape(s: string): (r: Read<char>)
    ensures r.Some? ==> |r.value.1| < |s|
  {
    match Hex4(s)
    case None => None
    case Some(u) =>
      if u < 0xD800 || u >= 0xE000 then Some((u as char, s[4..]))
      else if u < 0xDC00 && |s| >= 6 && s[4] == '\\' && s[5] == 'u' then
        match Hex4(s[6..])
        case None => None
        case Some(low) =>
          if 0xDC00 <= low < 0xE000 then Some(((0x10000 + (u - 0xD800) * 0x400 + (low - 0xDC00)) as char, s[10..]))
          else Some((REPLACEMENT, s[4..]))
      else Some((REPLACEMENT, s[4..]))
  }

  /** One possibly escaped rune of a string body. */
  function ReadRune(s: string): (r: Read<char>)
    ensures r.Some? ==> |r.value.1| < |s|
  {
    if s == "" || s[0] == '"' || s[0] as int < 0x20 then None
    else if s[0] != '\\' then Some((s[0], s[1..]))
    else if |s| == 1 then None
    else
      match s[1]
      case '"' => Some(('"', s[2..]))
      case '\\' => Some(('\\', s[2..]))
      case '/' => Some(('/', s[2..]))
      case 'b' => Some(('\U{0008}', s[2..]))
      case 'f' => Some(('\U{000C}', s[2..]))
      case 'n' => Some(('\n', s[2..]))
      case 'r' => Some(('\r', s[2..]))
      case 't' => Some(('\t', s[2..]))
      case 'u' => UnicodeEscape(s[2..])
      case _ => None
  }

  /** The rest of a string after its opening quotation mark. */
  function ReadBody(s: string): (r: Read<string>)
    ensures r.Some? ==> |r.value.1| < |s|
    decreases |s|
  {
    if s != "" && s[0] == '"' then Some(("", s[1..]))
    else
      match ReadRune(s)
      case None => None
      case Some(head) =>
        match ReadBody(head.1)
        case None => None
        case Some(tail) => Some(([head.0] + tail.0, tail.1))
  }

  function ReadString(s: string): (r: Read<string>)
    ensures r.Some? ==> |r.value.1| < |s|
  {
    if s != "" && s[0] == '"' then ReadBody(s[1..]) else None
  }

  // ----- numbers, section 6

  predicate IsDigit(c: char) {
    '0' <= c <= '9'
  }

  function SkipDigits(s: string): (r: string)
    ensures |r| <= |s|
  {
    if s != "" && IsDigit(s[0]) then SkipDigits(s[1..]) else s
  }

  predicate IsExponent(s: string) {
    s == ""
    || ((s[0] == 'e' || s[0] == 'E')
        && var digits := if |s| > 1 && (s[1] == '+' || s[1] == '-') then s[2..] else s[1..];
           digits != "" && SkipDigits(digits) == "")
  }

  predicate IsFraction(s: string) {
    if s != "" && s[0] == '.' then |s| > 1 && IsDigit(s[1]) && IsExponent(SkipDigits(s[1..])) else IsExponent(s)
  }

  /** The number grammar. */
  predicate IsNumber(s: string) {
    var unsigned := if s != "" && s[0] == '-' then s[1..] else s;
    unsigned != "" && IsDigit(unsigned[0])
    && IsFraction(if unsigned[0] == '0' then unsigned[1..] else SkipDigits(unsigned))
  }

  predicate IsNumberChar(c: char) {
    IsDigit(c) || c == '-' || c == '+' || c == '.' || c == 'e' || c == 'E'
  }

  /** How many leading characters can belong to a number. */
  function NumberSpan(s: string): (n: nat)
    ensures n <= |s|
    ensures forall i :: 0 <= i < n ==> IsNumberChar(s[i])
    ensures n < |s| ==> !IsNumberChar(s[n])
  {
    if s != "" && IsNumberChar(s[0]) then 1 + NumberSpan(s[1..]) else 0
  }

  // ----- values, sections 2 to 5

  /** `null`, `true`, `false` or a number. */
  function ReadLiteral(s: string): (r: Read<Json>)
    ensures r.Some? ==> |r.value.1| < |s|
  {
    if "null" <= s then Some((Null, s[4..]))
    else if "true" <= s then Some((Bool(true), s[4..]))
    else if "false" <= s then Some((Bool(false), s[5..]))
    else
      var n := NumberSpan(s);
      if n > 0 && IsNumber(s[..n]) then Some((Num(s[..n]), s[n..])) else None
  }

  function ReadValue(text: string): (r: Read<Json>)
    ensures r.Some? ==> |r.value.1| < |text|
    decreases |text|, 1
  {
    var s := SkipSpace(text);
    if s == "" then None
    else if s[0] == '[' then
      var inner := SkipSpace(s[1..]);
      if inner != "" && inner[0] == ']' then Some((Arr([]), inner[1..]))
      else
        match ReadItems(inner)
        case None => None
        case Some(read) => Some((Arr(read.0), read.1))
    else if s[0] == '{' then
      var inner := SkipSpace(s[1..]);
      if inner != "" && inner[0] == '}' then Some((Obj(map[]), inner[1..]))
      else
        match ReadMembers(inner)
        case None => None
        case Some(read) => Some((Obj(FromPairs(read.0)), read.1))
    else if s[0] == '"' then
      match ReadString(s)
      case None => None
      case Some(read) => Some((Str(read.0), read.1))
    else ReadLiteral(s)
  }

  /** One or more items up to and including the closing bracket. */
  function ReadItems(text: string): (r: Read<seq<Json>>)
    ensures r.Some? ==> |r.value.1| < |text|
    decreases |text|, 2
  {
    match ReadValue(text)
    case None => None
    case Some(head) =>
      var next := SkipSpace(head.1);
      if next == "" then None
      else if next[0] == ']' then Some(([head.0], next[1..]))
      else if next[0] != ',' then None
      else
        match ReadItems(next[1..])
        case None => None
        case Some(tail) => Some(([head.0] + tail.0, tail.1))
  }

  /** One or more members up to and including the closing brace. */
  function ReadMembers(text: string): (r: Read<seq<(string, Json)>>)
    ensures r.Some? ==> |r.value.1| < |text|
    decreases |text|, 2
  {
    match ReadString(SkipSpace(text))
    case None => None
    case Some(name) =>
      var colon := SkipSpace(name.1);
      if colon == "" || colon[0] != ':' then None
      else
        match ReadValue(colon[1..])
        case None => None
        case Some(head) =>
          var next := SkipSpace(head.1);
          if next == "" then None
          else if next[0] == '}' then Some(([(name.0, head.0)], next[1..]))
          else if next[0] != ',' then None
          else
            match ReadMembers(next[1..])
            case None => None
            case Some(tail) => Some(([(name.0, head.0)] + tail.0, tail.1))
  }

  /** A Go map filled member by member: the last of equal names stays. */
  function FromPairs(pairs: seq<(string, Json)>): map<string, Json> {
    if pairs == [] then map[] else map[pairs[0].0 := pairs[0].1] + FromPairs(pairs[1..])
  }

  /** One value and nothing but whitespace after it, as `Decode` and `ensureJSONEOF` demand. */
  function Parse(text: string): Option<Json> {
    match ReadValue(text)
    case None => None
    case Some(read) => if SkipSpace(read.1) == "" then Some(read.0) else None
  }

  /** Trees the decoder can yield: every number literal is a JSON number. */
  predicate Decoded(v: Json) {
    match v
    case Num(literal) => IsNumber(literal)
    case Arr(items) => forall i :: 0 <= i < |items| ==> Decoded(items[i])
    case Obj(members) => forall k :: k in members ==> Decoded(members[k])
    case _ => true
  }

  // ----- strings read back

  /** An encoder whose output, followed by anything, reads back as the string. */
  ghost predicate Inverts(quote: Quoter) {
    forall s, rest :: ReadString(quote(s) + rest) == Some((s, rest))
  }

  lemma HexDigitValue(n: nat)
    requires n < 16
    ensures HexValue(HexDigit(n)) == Some(n)
  {
  }

  lemma RuneReadsBack(c: char, rest: string)
    ensures EscapeRune(c) != "" && EscapeRune(c)[0] != '"'
    ensures ReadRune(EscapeRune(c) + rest) == Some((c, rest))
  {
    var text := EscapeRune(c) + rest;
    if c as int < 0x20 && |EscapeRune(c)| == 6 {
      var n := c as nat;
      HexDigitValue(n / 16);
      HexDigitValue(n % 16);
      HexDigitValue(0);
      assert text[2..] == ['0', '0', HexDigit(n / 16), HexDigit(n % 16)] + rest;
      assert Hex4(text[2..]) == Some(n);
      assert text[2..][4..] == rest;
    } else if |EscapeRune(c)| == 2 {
      assert text[2..] == rest;
    } else {
      assert text[1..] == rest;
    }
  }

  lemma {:induction false} BodyReadsBack(s: string, rest: string)
    ensures ReadBody(Escape(s) + "\"" + rest) == Some((s, rest))
  {
    var text := Escape(s) + "\"" + rest;
    if s == "" {
      assert text == "\"" + rest;
    } else {
      var tail := Escape(s[1..]) + "\"" + rest;
      assert text == EscapeRune(s[0]) + tail;
      RuneReadsBack(s[0], tail);
      BodyReadsBack(s[1..], rest);
      assert s == [s[0]] + s[1..];
    }
  }

  /** The version 2 string writer loses nothing. */
  lemma QuoteV2Inverts()
    ensures Inverts(QuoteV2)
  {
    forall s, rest ensures ReadString(QuoteV2(s) + rest) == Some((s, rest)) {
      BodyReadsBack(s, rest);
      assert (QuoteV2(s) + rest)[1..] == Escape(s) + "\"" + rest;
    }
  }
}
