/** Decoding a document into maps: what the duplicate-key check preserves. */
module Documents {
  import opened Text
  import opened Canonical
  import opened JsonParser
  import opened Walker
  import RoundTrip

  /** The generic tree of a document; a later member replaces an earlier one of its name. */
  ghost function ToJson(d: Doc): Json
    decreases d, 1, 0
  {
    match d
    case Nothing => Null
    case Flag(b) => Bool(b)
    case Number(literal) => Num(literal)
    case Words(s) => Str(s)
    case List(items) => Arr(seq(|items|, i requires 0 <= i < |items| => ToJson(items[i])))
    case Object(members) => Obj(FromPairs(JsonPairs(d, 0)))
  }

  ghost function JsonPairs(d: Doc, i: nat): (pairs: seq<(string, Json)>)
    requires d.Object? && i <= |d.members|
    decreases d, 0, |d.members| - i
  {
    if i == |d.members| then []
    else [(d.members[i].0, ToJson(d.members[i].1))] + JsonPairs(d, i + 1)
  }

  /** Equal but for the order of object members. */
  ghost predicate SameUpToOrder(a: Doc, b: Doc)
    decreases a, 0
  {
    match (a, b)
    case (Nothing, Nothing) => true
    case (Flag(x), Flag(y)) => x == y
    case (Number(x), Number(y)) => x == y
    case (Words(x), Words(y)) => x == y
    case (List(xs), List(ys)) => |xs| == |ys| && forall i :: 0 <= i < |xs| ==> SameUpToOrder(xs[i], ys[i])
    case (Object(xs), Object(ys)) =>
      |xs| == |ys|
      && forall i :: 0 <= i < |xs| ==> Finds(xs[i].0, xs[i].1, b)
    case _ => false
  }

  /** Some member of b has this name and the same value up to order. */
  ghost predicate Finds(name: string, value: Doc, b: Doc)
    requires b.Object?
    decreases value, 1
  {
    exists j :: 0 <= j < |b.members| && name == b.members[j].0 && SameUpToOrder(value, b.members[j].1)
  }

  ghost function NamesFrom(d: Doc, i: nat): set<string>
    requires d.Object?
  {
    set j | i <= j < |d.members| :: d.members[j].0
  }

  /** The map has exactly the members from the i-th one on. */
  ghost predicate Holds(m: map<string, Json>, d: Doc, i: nat)
    requires d.Object? && i <= |d.members|
  {
    && m.Keys == NamesFrom(d, i)
    && |m| == |d.members| - i
    && forall j :: i <= j < |d.members| ==> d.members[j].0 in m && m[d.members[j].0] == ToJson(d.members[j].1)
  }

  lemma NamesFromStep(d: Doc, i: nat)
    requires d.Object? && i < |d.members| && DistinctNames(d.members)
    ensures d.members[i].0 !in NamesFrom(d, i + 1)
    ensures NamesFrom(d, i) == {d.members[i].0} + NamesFrom(d, i + 1)
  {
  }

  lemma HoldsMore(tail: map<string, Json>, d: Doc, i: nat, value: Json)
    requires d.Object? && i < |d.members| && DistinctNames(d.members) && Holds(tail, d, i + 1)
    requires value == ToJson(d.members[i].1)
    ensures Holds(map[d.members[i].0 := value] + tail, d, i)
  {
    hide ToJson, NamesFrom;
    NamesFromStep(d, i);
    var name := d.members[i].0;
    var m := map[name := value] + tail;
    assert m.Keys == {name} + tail.Keys;
    assert |m| == |m.Keys| == 1 + |tail.Keys|;
    forall j | i <= j < |d.members| ensures d.members[j].0 in m && m[d.members[j].0] == ToJson(d.members[j].1) {
    }
  }

  lemma NoMembers(d: Doc)
    requires d.Object?
    ensures Holds(FromPairs(JsonPairs(d, |d.members|)), d, |d.members|)
  {
    hide ToJson;
    assert NamesFrom(d, |d.members|) == {};
  }

  lemma PairsStep(d: Doc, i: nat)
    requires d.Object? && i < |d.members|
    ensures FromPairs(JsonPairs(d, i)) == map[d.members[i].0 := ToJson(d.members[i].1)] + FromPairs(JsonPairs(d, i + 1))
  {
    hide ToJson;
    assert JsonPairs(d, i)[1..] == JsonPairs(d, i + 1);
  }

  /** With distinct names the map holds every member, and nothing else. */
  lemma {:induction false} MapOfMembers(d: Doc, i: nat)
    requires d.Object? && i <= |d.members| && DistinctNames(d.members)
    ensures Holds(FromPairs(JsonPairs(d, i)), d, i)
    decreases |d.members| - i
  {
    hide ToJson, Holds, JsonPairs, FromPairs;
    if i == |d.members| {
      NoMembers(d);
    } else {
      MapOfMembers(d, i + 1);
      HoldsMore(FromPairs(JsonPairs(d, i + 1)), d, i, ToJson(d.members[i].1));
      PairsStep(d, i);
    }
  }

  /** Two checked documents decode to the same tree exactly when only the order of
      their members differs. */
  lemma {:induction false} DecodingForgetsOnlyOrder(a: Doc, b: Doc)
    requires Distinct(a) && Distinct(b)
    ensures ToJson(a) == ToJson(b) <==> SameUpToOrder(a, b)
    decreases a
  {
    match (a, b)
    case (List(xs), List(ys)) =>
      forall i | 0 <= i < |xs| && i < |ys|
        ensures ToJson(xs[i]) == ToJson(ys[i]) <==> SameUpToOrder(xs[i], ys[i])
      {
        DecodingForgetsOnlyOrder(xs[i], ys[i]);
      }
      ListsDecode(a, b);
    case (Object(xs), Object(ys)) =>
      forall i, j | 0 <= i < |xs| && 0 <= j < |ys|
        ensures ToJson(xs[i].1) == ToJson(ys[j].1) <==> SameUpToOrder(xs[i].1, ys[j].1)
      {
        DecodingForgetsOnlyOrder(xs[i].1, ys[j].1);
      }
      ObjectsDecode(a, b);
      CoveredIsSame(a, b);
    case _ =>
  }

  lemma CoveredIsSame(a: Doc, b: Doc)
    requires a.Object? && b.Object?
    requires forall i, j :: 0 <= i < |a.members| && 0 <= j < |b.members| ==>
      (ToJson(a.members[i].1) == ToJson(b.members[j].1) <==> SameUpToOrder(a.members[i].1, b.members[j].1))
    ensures CoveredBy(a, b) <==> SameUpToOrder(a, b)
  {
    forall i | 0 <= i < |a.members|
      ensures HasMember(b, a.members[i].0, ToJson(a.members[i].1)) <==> Finds(a.members[i].0, a.members[i].1, b)
    {
    }
  }

  lemma ListsDecode(a: Doc, b: Doc)
    requires a.List? && b.List?
    ensures ToJson(a) == ToJson(b)
       <==> |a.items| == |b.items| && forall i :: 0 <= i < |a.items| ==> ToJson(a.items[i]) == ToJson(b.items[i])
  {
    var x, y := ToJson(a).items, ToJson(b).items;
    if x == y {
      forall i | 0 <= i < |a.items| ensures ToJson(a.items[i]) == ToJson(b.items[i]) {
        assert x[i] == y[i];
      }
    }
  }

  /** Some member has this name and this decoded value. */
  ghost predicate HasMember(d: Doc, name: string, value: Json)
    requires d.Object?
  {
    exists j :: 0 <= j < |d.members| && name == d.members[j].0 && value == ToJson(d.members[j].1)
  }

  ghost predicate CoveredBy(a: Doc, b: Doc)
    requires a.Object? && b.Object?
  {
    |a.members| == |b.members|
    && forall i :: 0 <= i < |a.members| ==> HasMember(b, a.members[i].0, ToJson(a.members[i].1))
  }

  lemma ObjectsDecode(a: Doc, b: Doc)
    requires a.Object? && b.Object? && DistinctNames(a.members) && DistinctNames(b.members)
    ensures ToJson(a) == ToJson(b) <==> CoveredBy(a, b)
  {
    MapOfMembers(a, 0);
    MapOfMembers(b, 0);
    MapsAgree(a, b, FromPairs(JsonPairs(a, 0)), FromPairs(JsonPairs(b, 0)));
  }

  lemma MapsAgree(a: Doc, b: Doc, m: map<string, Json>, n: map<string, Json>)
    requires a.Object? && b.Object? && Holds(m, a, 0) && Holds(n, b, 0)
    ensures m == n <==> CoveredBy(a, b)
  {
    hide ToJson, JsonPairs;
    if m == n {
      forall i | 0 <= i < |a.members| ensures HasMember(b, a.members[i].0, ToJson(a.members[i].1)) {
        assert a.members[i].0 in NamesFrom(b, 0);
      }
    }
    if CoveredBy(a, b) {
      forall i | 0 <= i < |a.members|
        ensures a.members[i].0 in n && m[a.members[i].0] == n[a.members[i].0]
      {
        assert HasMember(b, a.members[i].0, ToJson(a.members[i].1));
      }
      assert m.Keys <= n.Keys;
      SameKeys(m.Keys, n.Keys);
      assert m == n;
    }
  }

  lemma SameKeys(a: set<string>, b: set<string>)
    requires a <= b && |a| == |b|
    ensures a == b
  {
    var extra := b - a;
    assert b == a + extra;
    assert |b| == |a| + |extra|;
  }

  lemma {:induction false} DecodesDecoded(d: Doc)
    requires NumbersWellFormed(d) && Distinct(d)
    ensures Decoded(ToJson(d))
  {
    match d
    case List(items) =>
      forall i | 0 <= i < |items| ensures Decoded(ToJson(d).items[i]) {
        DecodesDecoded(items[i]);
      }
    case Object(members) =>
      MapOfMembers(d, 0);
      forall k | k in ToJson(d).members ensures Decoded(ToJson(d).members[k]) {
        var i :| 0 <= i < |members| && members[i].0 == k;
        DecodesDecoded(members[i].1);
      }
    case _ =>
  }

  /** Number tokens carry JSON numbers, as the decoder's lexer guarantees. */
  ghost predicate NumbersWellFormed(d: Doc) {
    match d
    case Number(literal) => IsNumber(literal)
    case List(items) => forall i :: 0 <= i < |items| ==> NumbersWellFormed(items[i])
    case Object(members) => forall i :: 0 <= i < |members| ==> NumbersWellFormed(members[i].1)
    case _ => true
  }

  /** Two accepted documents have the same canonical bytes, hence the same digest
      input, exactly when they differ at most in the order of object members. */
  lemma CanonicalBytesIdentifyDocuments(a: Doc, b: Doc, quote: Quoter)
    requires Accepted(a, 0) && Accepted(b, 0) && NumbersWellFormed(a) && NumbersWellFormed(b) && Inverts(quote)
    ensures Utf8(Print(ToJson(a), quote)) == Utf8(Print(ToJson(b), quote)) <==> SameUpToOrder(a, b)
  {
    DecodesDecoded(a);
    DecodesDecoded(b);
    RoundTrip.CanonicalBytesInjective(ToJson(a), ToJson(b), quote);
    DecodingForgetsOnlyOrder(a, b);
  }

  // ----- what would be lost without the check

  /** A document that decodes to a given tree, its members in key order. */
  ghost function DocOf(j: Json): Doc
    decreases j
  {
    match j
    case Null => Nothing
    case Bool(b) => Flag(b)
    case Num(literal) => Number(literal)
    case Str(s) => Words(s)
    case Arr(items) => List(seq(|items|, i requires 0 <= i < |items| => DocOf(items[i])))
    case Obj(members) =>
      var keys := SortedKeys.Sorted(members.Keys);
      Object(seq(|keys|, i requires 0 <= i < |keys| => (keys[i], DocOf(members[keys[i]]))))
  }

  lemma {:induction false} DocOfDecodes(j: Json)
    ensures Distinct(DocOf(j)) && ToJson(DocOf(j)) == j
    decreases j
  {
    match j
    case Arr(items) =>
      forall i | 0 <= i < |items| ensures Distinct(DocOf(items[i])) && ToJson(DocOf(items[i])) == items[i] {
        DocOfDecodes(items[i]);
      }
    case Obj(members) =>
      forall k | k in members ensures Distinct(DocOf(members[k])) && ToJson(DocOf(members[k])) == members[k] {
        DocOfDecodes(members[k]);
      }
      ObjectDecodes(j);
    case _ =>
  }

  lemma KeysDistinct(names: set<string>)
    ensures var keys := SortedKeys.Sorted(names); forall i, k :: 0 <= i < k < |keys| ==> keys[i] != keys[k]
  {
    hide StringLess;
    var keys := SortedKeys.Sorted(names);
    forall i, k | 0 <= i < k < |keys| ensures keys[i] != keys[k] {
      StringLessTotal(keys[i], keys[k]);
    }
  }

  /** The members of the document of a tree: each key with the document of its value. */
  lemma MembersOfDoc(j: Json)
    requires j.Obj?
    ensures var keys, d := SortedKeys.Sorted(j.members.Keys), DocOf(j);
            && d.Object? && |d.members| == |keys| && DistinctNames(d.members)
            && forall i :: 0 <= i < |keys| ==> keys[i] in j.members && d.members[i] == (keys[i], DocOf(j.members[keys[i]]))
  {
    KeysDistinct(j.members.Keys);
    hide StringLess, SortedKeys.Increasing;
  }

  /** A map that holds members named and decoding like those of a tree is its map. */
  lemma SameMap(members: map<string, Json>, keys: seq<string>, d: Doc, m: map<string, Json>)
    requires d.Object? && Holds(m, d, 0) && |d.members| == |keys| && forall k :: k in keys <==> k in members
    requires forall i :: 0 <= i < |keys| ==> d.members[i].0 == keys[i] && keys[i] in members && ToJson(d.members[i].1) == members[keys[i]]
    ensures m == members
  {
    hide ToJson;
    forall k | k in members ensures k in m && m[k] == members[k] {
      var i :| 0 <= i < |keys| && keys[i] == k;
      assert d.members[i].0 in m;
    }
    forall k | k in m ensures k in members {
      assert k in NamesFrom(d, 0);
      var i :| 0 <= i < |d.members| && d.members[i].0 == k;
      assert keys[i] in keys;
    }
  }

  lemma ObjectDecodes(j: Json)
    requires j.Obj? && forall k :: k in j.members ==> Distinct(DocOf(j.members[k])) && ToJson(DocOf(j.members[k])) == j.members[k]
    ensures Distinct(DocOf(j)) && ToJson(DocOf(j)) == j
  {
    var keys, d := SortedKeys.Sorted(j.members.Keys), DocOf(j);
    MembersOfDoc(j);
    assert Distinct(d) by { hide DocOf, ToJson; }
    hide ToJson, JsonPairs, FromPairs, DocOf, Distinct, DistinctNames, Holds, SortedKeys.Increasing;
    MapOfMembers(d, 0);
    ObjectTree(d);
    SameMap(j.members, keys, d, FromPairs(JsonPairs(d, 0)));
  }

  lemma ObjectTree(d: Doc)
    requires d.Object?
    ensures ToJson(d) == Obj(FromPairs(JsonPairs(d, 0)))
  {
  }

  /** Repeated or not, the names are the keys of the map. */
  lemma {:induction false} KeysAreNames(d: Doc, i: nat)
    requires d.Object? && i <= |d.members|
    ensures FromPairs(JsonPairs(d, i)).Keys == NamesFrom(d, i)
    decreases |d.members| - i
  {
    hide ToJson, JsonPairs, FromPairs;
    if i == |d.members| {
      NoMembers(d);
    } else {
      KeysAreNames(d, i + 1);
      PairsStep(d, i);
      assert NamesFrom(d, i) == {d.members[i].0} + NamesFrom(d, i + 1);
    }
  }

  /** As many names as members means that no name is repeated. */
  lemma {:induction false} NamesCount(d: Doc, i: nat)
    requires d.Object? && i <= |d.members|
    ensures |NamesFrom(d, i)| <= |d.members| - i
    ensures |NamesFrom(d, i)| == |d.members| - i ==> forall j, k :: i <= j < k < |d.members| ==> d.members[j].0 != d.members[k].0
    decreases |d.members| - i
  {
    if i == |d.members| {
      assert NamesFrom(d, i) == {};
    } else {
      NamesCount(d, i + 1);
      var name, rest := d.members[i].0, NamesFrom(d, i + 1);
      assert NamesFrom(d, i) == {name} + rest;
      if name in rest {
        assert {name} + rest == rest;
      } else {
        assert |{name} + rest| == 1 + |rest|;
      }
    }
  }

  /** A document that has the tree of a checked one, and differs from it in member order at
      most, repeats no name either. */
  lemma {:induction false} SharedTreeDistinct(a: Doc, b: Doc)
    requires SameUpToOrder(a, b) && ToJson(a) == ToJson(b) && Distinct(b)
    ensures Distinct(a)
    decreases a
  {
    match (a, b)
    case (List(xs), List(ys)) =>
      ListsDecode(a, b);
      forall i | 0 <= i < |xs| ensures Distinct(xs[i]) {
        SharedTreeDistinct(xs[i], ys[i]);
      }
    case (Object(xs), Object(ys)) =>
      SharedNamesDistinct(a, b);
      forall i | 0 <= i < |xs| ensures Distinct(xs[i].1) {
        var j := SharedMember(a, b, i);
        SharedTreeDistinct(xs[i].1, ys[j].1);
      }
    case _ =>
  }

  lemma SharedNamesDistinct(a: Doc, b: Doc)
    requires a.Object? && b.Object? && |a.members| == |b.members| && ToJson(a) == ToJson(b) && DistinctNames(b.members)
    ensures DistinctNames(a.members)
  {
    MapOfMembers(b, 0);
    KeysAreNames(a, 0);
    NamesCount(a, 0);
    var m := FromPairs(JsonPairs(b, 0));
    assert FromPairs(JsonPairs(a, 0)) == m;
    assert |m.Keys| == |m|;
  }

  lemma SharedMember(a: Doc, b: Doc, i: nat) returns (j: nat)
    requires a.Object? && b.Object? && SameUpToOrder(a, b) && ToJson(a) == ToJson(b)
    requires DistinctNames(a.members) && DistinctNames(b.members) && i < |a.members|
    ensures j < |b.members| && SameUpToOrder(a.members[i].1, b.members[j].1) && ToJson(a.members[i].1) == ToJson(b.members[j].1)
  {
    MapOfMembers(a, 0);
    MapOfMembers(b, 0);
    ObjectTree(a);
    ObjectTree(b);
    assert Finds(a.members[i].0, a.members[i].1, b);
    j :| 0 <= j < |b.members| && a.members[i].0 == b.members[j].0 && SameUpToOrder(a.members[i].1, b.members[j].1);
  }

  /** Without the duplicate-key check content would be lost: every document that repeats a
      name, at any level, has the tree of one that does not and that is another document
      even up to member order. */
  lemma DuplicatesWouldBeLost(d: Doc) returns (e: Doc)
    requires !Distinct(d)
    ensures Distinct(e) && ToJson(e) == ToJson(d) && !SameUpToOrder(d, e)
  {
    e := DocOf(ToJson(d));
    DocOfDecodes(ToJson(d));
    if SameUpToOrder(d, e) {
      SharedTreeDistinct(d, e);
    }
  }
}
