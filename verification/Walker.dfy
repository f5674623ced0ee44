/** The duplicate-key and depth check of admin/presentation/canonical.go, which walks
    the token stream of a decoder. */
module Walker {
  import opened Text

  /** What `Decoder.Token` hands out; commas and colons are consumed by the decoder. */
  datatype Token =
    | LBrace | RBrace | LBracket | RBracket
    | NullToken
    | BoolToken(b: bool)
    | NumberToken(literal: string)
    | StringToken(s: string)

  /** A document before its objects become maps: members in order, names repeatable. */
  datatype Doc =
    | Nothing
    | Flag(b: bool)
    | Number(literal: string)
    | Words(s: string)
    | List(items: seq<Doc>)
    | Object(members: seq<(string, Doc)>)

  const MAX_DEPTH := 32

  // ----- well-formed token streams

  function Tokens(d: Doc): (ts: seq<Token>)
    decreases d, 1, 0
  {
    match d
    case Nothing => [NullToken]
    case Flag(b) => [BoolToken(b)]
    case Number(literal) => [NumberToken(literal)]
    case Words(s) => [StringToken(s)]
    case List(items) => [LBracket] + ItemTokens(d, 0) + [RBracket]
    case Object(members) => [LBrace] + MemberTokens(d, 0) + [RBrace]
  }

  function ItemTokens(d: Doc, i: nat): seq<Token>
    requires d.List? && i <= |d.items|
    decreases d, 0, |d.items| - i
  {
    if i == |d.items| then [] else Tokens(d.items[i]) + ItemTokens(d, i + 1)
  }

  function MemberTokens(d: Doc, i: nat): seq<Token>
    requires d.Object? && i <= |d.members|
    decreases d, 0, |d.members| - i
  {
    if i == |d.members| then []
    else [StringToken(d.members[i].0)] + Tokens(d.members[i].1) + MemberTokens(d, i + 1)
  }

  type Read<T> = Option<(T, seq<Token>)>

  /** The document a stream starts with, if any, and the tokens after it. */
  function ReadDoc(ts: seq<Token>): (r: Read<Doc>)
    ensures r.Some? ==> |r.value.1| < |ts|
    decreases |ts|, 0
  {
    if ts == [] then None
    else
      match ts[0]
      case NullToken => Some((Nothing, ts[1..]))
      case BoolToken(b) => Some((Flag(b), ts[1..]))
      case NumberToken(literal) => Some((Number(literal), ts[1..]))
      case StringToken(s) => Some((Words(s), ts[1..]))
      case LBracket =>
        (match ReadItems(ts[1..])
         case None => None
         case Some(read) => Some((List(read.0), read.1)))
      case LBrace =>
        (match ReadMembers(ts[1..])
         case None => None
         case Some(read) => Some((Object(read.0), read.1)))
      case _ => None
  }

  function ReadItems(ts: seq<Token>): (r: Read<seq<Doc>>)
    ensures r.Some? ==> |r.value.1| < |ts|
    decreases |ts|, 1
  {
    if ts == [] then None
    else if ts[0] == RBracket then Some(([], ts[1..]))
    else
      match ReadDoc(ts)
      case None => None
      case Some(head) =>
        match ReadItems(head.1)
        case None => None
        case Some(tail) => Some(([head.0] + tail.0, tail.1))
  }

  function ReadMembers(ts: seq<Token>): (r: Read<seq<(string, Doc)>>)
    ensures r.Some? ==> |r.value.1| < |ts|
    decreases |ts|, 1
  {
    if ts == [] then None
    else if ts[0] == RBrace then Some(([], ts[1..]))
    else if !ts[0].StringToken? then None
    else
      match ReadDoc(ts[1..])
      case None => None
      case Some(head) =>
        match ReadMembers(head.1)
        case None => None
        case Some(tail) => Some(([(ts[0].s, head.0)] + tail.0, tail.1))
  }

  /** A stream that reads as a document is that document's tokens, then the rest. */
  lemma {:induction false} ReadSound(ts: seq<Token>)
    requires ReadDoc(ts).Some?
    ensures ts == Tokens(ReadDoc(ts).value.0) + ReadDoc(ts).value.1
    decreases |ts|, 0
  {
    var (d, rest) := ReadDoc(ts).value;
    match d
    case List(items) => ReadItemsSound(ts[1..], d, 0);
    case Object(members) => ReadMembersSound(ts[1..], d, 0);
    case _ =>
  }

  lemma {:induction false} ReadItemsSound(ts: seq<Token>, d: Doc, i: nat)
    requires ReadItems(ts).Some? && d.List? && i <= |d.items| && d.items[i..] == ReadItems(ts).value.0
    ensures ts == ItemTokens(d, i) + [RBracket] + ReadItems(ts).value.1
    decreases |ts|, 1
  {
    if ts[0] != RBracket {
      ReadSound(ts);
      var head := ReadDoc(ts).value;
      assert d.items[i..][0] == d.items[i] && d.items[i..][1..] == d.items[i + 1..];
      ReadItemsSound(head.1, d, i + 1);
    }
  }

  lemma Nested(key: seq<Token>, body: seq<Token>, more: seq<Token>, close: seq<Token>, rest: seq<Token>)
    ensures key + body + more + close + rest == key + (body + (more + close + rest))
  {
  }

  lemma {:induction false} ReadMembersSound(ts: seq<Token>, d: Doc, i: nat)
    requires ReadMembers(ts).Some? && d.Object? && i <= |d.members| && d.members[i..] == ReadMembers(ts).value.0
    ensures ts == MemberTokens(d, i) + [RBrace] + ReadMembers(ts).value.1
    decreases |ts|, 1
  {
    if ts[0] != RBrace {
      ReadSound(ts[1..]);
      var head := ReadDoc(ts[1..]).value;
      assert d.members[i..][0] == d.members[i] && d.members[i..][1..] == d.members[i + 1..];
      ReadMembersSound(head.1, d, i + 1);
      assert MemberTokens(d, i) == [ts[0]] + Tokens(head.0) + MemberTokens(d, i + 1);
      var rest := ReadMembers(ts).value.1;
      assert head.1 == MemberTokens(d, i + 1) + [RBrace] + rest;
      hide Tokens, MemberTokens, ReadDoc, ReadMembers;
      assert ts == [ts[0]] + ts[1..];
      Nested([ts[0]], Tokens(head.0), MemberTokens(d, i + 1), [RBrace], rest);
    }
  }

  lemma Opened(open: Token, body: seq<Token>, close: seq<Token>, rest: seq<Token>)
    ensures ([open] + body + close + rest)[0] == open && ([open] + body + close + rest)[1..] == body + close + rest
  {
  }

  /** A document's tokens read back as that document, whatever follows. */
  lemma {:induction false} ReadComplete(d: Doc, rest: seq<Token>)
    ensures ReadDoc(Tokens(d) + rest) == Some((d, rest))
    decreases d, 1, 0
  {
    match d
    case List(items) =>
      ReadItemsComplete(d, 0, rest);
      Opened(LBracket, ItemTokens(d, 0), [RBracket], rest);
    case Object(members) =>
      ReadMembersComplete(d, 0, rest);
      Opened(LBrace, MemberTokens(d, 0), [RBrace], rest);
    case _ =>
      assert (Tokens(d) + rest)[1..] == rest;
  }

  lemma TokensStart(d: Doc)
    ensures Tokens(d) != [] && Tokens(d)[0] != RBracket && Tokens(d)[0] != RBrace
  {
  }

  lemma ReadItemsComplete(d: Doc, i: nat, rest: seq<Token>)
    requires d.List? && i <= |d.items|
    ensures ReadItems(ItemTokens(d, i) + [RBracket] + rest) == Some((d.items[i..], rest))
    decreases d, 0, |d.items| - i
  {
    var ts := ItemTokens(d, i) + [RBracket] + rest;
    if i == |d.items| {
      assert ts[1..] == rest;
    } else {
      var after := ItemTokens(d, i + 1) + [RBracket] + rest;
      assert ts == Tokens(d.items[i]) + after;
      TokensStart(d.items[i]);
      ReadComplete(d.items[i], after);
      ReadItemsComplete(d, i + 1, rest);
      assert d.items[i..] == [d.items[i]] + d.items[i + 1..];
    }
  }

  lemma ReadMembersComplete(d: Doc, i: nat, rest: seq<Token>)
    requires d.Object? && i <= |d.members|
    ensures ReadMembers(MemberTokens(d, i) + [RBrace] + rest) == Some((d.members[i..], rest))
    decreases d, 0, |d.members| - i
  {
    var ts := MemberTokens(d, i) + [RBrace] + rest;
    if i == |d.members| {
      assert ts[1..] == rest;
    } else {
      var after := MemberTokens(d, i + 1) + [RBrace] + rest;
      assert ts[1..] == Tokens(d.members[i].1) + after;
      ReadComplete(d.members[i].1, after);
      ReadMembersComplete(d, i + 1, rest);
      assert d.members[i..] == [d.members[i]] + d.members[i + 1..];
    }
  }

  // ----- what the walk demands of a document

  ghost predicate DistinctNames(members: seq<(string, Doc)>) {
    forall i, j :: 0 <= i < j < |members| ==> members[i].0 != members[j].0
  }

  /** Every object, at every level, has distinct member names. */
  ghost predicate Distinct(d: Doc) {
    match d
    case List(items) => forall i :: 0 <= i < |items| ==> Distinct(items[i])
    case Object(members) => DistinctNames(members) && forall i :: 0 <= i < |members| ==> Distinct(members[i].1)
    case _ => true
  }

  /** No value lies inside more than n containers. */
  ghost predicate Within(d: Doc, n: int) {
    n >= 0
    && match d
       case List(items) => forall i :: 0 <= i < |items| ==> Within(items[i], n - 1)
       case Object(members) => forall i :: 0 <= i < |members| ==> Within(members[i].1, n - 1)
       case _ => true
  }

  ghost predicate Accepted(d: Doc, depth: nat) {
    Distinct(d) && Within(d, MAX_DEPTH - depth)
  }

  ghost function Names(members: seq<(string, Doc)>): set<string> {
    set i | 0 <= i < |members| :: members[i].0
  }

  lemma NamesAppend(members: seq<(string, Doc)>, name: string, d: Doc)
    ensures Names(members + [(name, d)]) == Names(members) + {name}
  {
    var more := members + [(name, d)];
    assert more[|members|].0 == name;
    forall n | n in Names(members) ensures n in Names(more) {
      var i :| 0 <= i < |members| && members[i].0 == n;
      assert more[i].0 == n;
    }
  }

  // ----- the walk

  class Decoder {
    var rest: seq<Token>

    constructor (tokens: seq<Token>)
      ensures rest == tokens
    {
      rest := tokens;
    }

    /** The next token, or nothing at the end of the input. */
    method Next() returns (t: Option<Token>)
      modifies this
      ensures old(rest) == [] ==> t == None && rest == []
      ensures old(rest) != [] ==> t == Some(old(rest)[0]) && rest == old(rest)[1..]
    {
      if rest == [] {
        return None;
      }
      t := Some(rest[0]);
      rest := rest[1..];
    }

    /** Whether the current array or object has another element. */
    predicate More()
      reads this
    {
      rest != [] && rest[0] != RBrace && rest[0] != RBracket
    }
  }

  /** `walkJSONValue`. */
  method Walk(decoder: Decoder, depth: nat) returns (ok: bool)
    modifies decoder
    ensures |decoder.rest| <= old(|decoder.rest|)
    ensures ok <==> var read := ReadDoc(old(decoder.rest)); read.Some? && Accepted(read.value.0, depth)
    ensures ok ==> decoder.rest == ReadDoc(old(decoder.rest)).value.1
    decreases |decoder.rest|, 0
  {
    if depth > MAX_DEPTH {
      return false;
    }
    var token := decoder.Next();
    if token == None {
      return false;
    }
    match token.value {
      case LBrace => ok := WalkObject(decoder, depth);
      case LBracket => ok := WalkArray(decoder, depth);
      case RBrace => ok := false;
      case RBracket => ok := false;
      case _ => ok := true;
    }
  }

  ghost predicate MembersAccepted(members: seq<(string, Doc)>, depth: nat) {
    DistinctNames(members) && forall i :: 0 <= i < |members| ==> Accepted(members[i].1, depth + 1)
  }

  ghost predicate ItemsAccepted(items: seq<Doc>, depth: nat) {
    forall i :: 0 <= i < |items| ==> Accepted(items[i], depth + 1)
  }

  /** Reading the members at `ts` amounts to `done`, then reading the members at `now`. */
  ghost predicate MembersSoFar(ts: seq<Token>, done: seq<(string, Doc)>, now: seq<Token>) {
    match ReadMembers(now)
    case None => ReadMembers(ts) == None
    case Some(tail) => ReadMembers(ts) == Some((done + tail.0, tail.1))
  }

  ghost predicate ItemsSoFar(ts: seq<Token>, done: seq<Doc>, now: seq<Token>) {
    match ReadItems(now)
    case None => ReadItems(ts) == None
    case Some(tail) => ReadItems(ts) == Some((done + tail.0, tail.1))
  }

  lemma MoreMembers(ts: seq<Token>, done: seq<(string, Doc)>, now: seq<Token>)
    requires MembersSoFar(ts, done, now)
    requires now != [] && now[0].StringToken? && ReadDoc(now[1..]).Some?
    ensures var head := ReadDoc(now[1..]).value; MembersSoFar(ts, done + [(now[0].s, head.0)], head.1)
  {
    var head := ReadDoc(now[1..]).value;
    if ReadMembers(head.1).Some? {
      var tail := ReadMembers(head.1).value.0;
      assert done + ([(now[0].s, head.0)] + tail) == done + [(now[0].s, head.0)] + tail;
    }
  }

  lemma MoreItems(ts: seq<Token>, done: seq<Doc>, now: seq<Token>)
    requires ItemsSoFar(ts, done, now)
    requires now != [] && now[0] != RBracket && ReadDoc(now).Some?
    ensures var head := ReadDoc(now).value; ItemsSoFar(ts, done + [head.0], head.1)
  {
    var head := ReadDoc(now).value;
    if ReadItems(head.1).Some? {
      var tail := ReadItems(head.1).value.0;
      assert done + ([head.0] + tail) == done + [head.0] + tail;
    }
  }

  /** A repeated name or a refused member spoils the object, however it continues. */
  lemma Spoiled(ts: seq<Token>, done: seq<(string, Doc)>, now: seq<Token>, depth: nat)
    requires MembersSoFar(ts, done, now) && now != [] && now[0].StringToken?
    requires now[0].s in Names(done) || ReadDoc(now[1..]) == None || !Accepted(ReadDoc(now[1..]).value.0, depth + 1)
    ensures ReadMembers(ts).Some? ==> !MembersAccepted(ReadMembers(ts).value.0, depth)
  {
    if ReadMembers(ts).Some? {
      var members := ReadMembers(ts).value.0;
      assert members[|done|] == (now[0].s, ReadDoc(now[1..]).value.0);
      if now[0].s in Names(done) {
        var i :| 0 <= i < |done| && done[i].0 == now[0].s;
        assert members[i].0 == members[|done|].0;
      }
    }
  }

  /** The object case of `walkJSONValue`, after its opening brace. */
  method WalkObject(decoder: Decoder, depth: nat) returns (ok: bool)
    requires depth <= MAX_DEPTH
    modifies decoder
    ensures |decoder.rest| <= old(|decoder.rest|)
    ensures ok <==> var read := ReadMembers(old(decoder.rest)); read.Some? && MembersAccepted(read.value.0, depth)
    ensures ok ==> decoder.rest == ReadMembers(old(decoder.rest)).value.1
    decreases |decoder.rest|, 1
  {
    ghost var start := decoder.rest;
    ghost var done: seq<(string, Doc)> := [];
    var seen: set<string> := {};
    assert ReadMembers(start).Some? ==> done + ReadMembers(start).value.0 == ReadMembers(start).value.0;
    while decoder.More()
      invariant |decoder.rest| <= |start|
      invariant MembersSoFar(start, done, decoder.rest)
      invariant MembersAccepted(done, depth)
      invariant seen == Names(done)
      decreases |decoder.rest|
    {
      ghost var now := decoder.rest;
      var keyToken := decoder.Next();
      if !keyToken.value.StringToken? {
        return false;
      }
      var key := keyToken.value.s;
      if key in seen {
        Spoiled(start, done, now, depth);
        return false;
      }
      seen := seen + {key};
      ok := Walk(decoder, depth + 1);
      if !ok {
        Spoiled(start, done, now, depth);
        return;
      }
      MoreMembers(start, done, now);
      NamesAppend(done, key, ReadDoc(now[1..]).value.0);
      done := done + [(key, ReadDoc(now[1..]).value.0)];
    }
    assert done + [] == done;
    var end := decoder.Next();
    ok := end == Some(RBrace);
  }

  /** The array case of `walkJSONValue`, after its opening bracket. */
  method WalkArray(decoder: Decoder, depth: nat) returns (ok: bool)
    requires depth <= MAX_DEPTH
    modifies decoder
    ensures |decoder.rest| <= old(|decoder.rest|)
    ensures ok <==> var read := ReadItems(old(decoder.rest)); read.Some? && ItemsAccepted(read.value.0, depth)
    ensures ok ==> decoder.rest == ReadItems(old(decoder.rest)).value.1
    decreases |decoder.rest|, 1
  {
    ghost var start := decoder.rest;
    ghost var done: seq<Doc> := [];
    assert ReadItems(start).Some? ==> done + ReadItems(start).value.0 == ReadItems(start).value.0;
    while decoder.More()
      invariant |decoder.rest| <= |start|
      invariant ItemsSoFar(start, done, decoder.rest)
      invariant ItemsAccepted(done, depth)
      decreases |decoder.rest|
    {
      ghost var now := decoder.rest;
      ok := Walk(decoder, depth + 1);
      if !ok {
        if ReadItems(start).Some? {
          assert ReadItems(start).value.0[|done|] == ReadDoc(now).value.0;
        }
        return;
      }
      MoreItems(start, done, now);
      done := done + [ReadDoc(now).value.0];
    }
    assert done + [] == done;
    if decoder.rest != [] && decoder.rest[0] == RBrace {
      assert ReadDoc(decoder.rest) == None;
    }
    var end := decoder.Next();
    ok := end == Some(RBracket);
  }

  /** `rejectDuplicateJSONKeys`: one value, then the end of the stream. */
  method RejectDuplicateKeys(tokens: seq<Token>) returns (ok: bool)
    ensures ok <==> exists d :: tokens == Tokens(d) && Accepted(d, 0)
  {
    var decoder := new Decoder(tokens);
    ok := Walk(decoder, 0);
    if ok {
      var extra := decoder.Next();
      ok := extra == None;
    }
    Recognised(tokens);
  }

  /** Being the tokens of an acceptable document is reading as one with nothing left over. */
  lemma Recognised(tokens: seq<Token>)
    ensures (exists d :: tokens == Tokens(d) && Accepted(d, 0))
       <==> (ReadDoc(tokens).Some? && ReadDoc(tokens).value.1 == [] && Accepted(ReadDoc(tokens).value.0, 0))
  {
    if ReadDoc(tokens).Some? && ReadDoc(tokens).value.1 == [] && Accepted(ReadDoc(tokens).value.0, 0) {
      ReadSound(tokens);
      assert tokens == Tokens(ReadDoc(tokens).value.0);
    }
    forall d | tokens == Tokens(d) && Accepted(d, 0)
      ensures ReadDoc(tokens) == Some((d, []))
    {
      ReadComplete(d, []);
      assert Tokens(d) + [] == Tokens(d);
    }
  }
}
