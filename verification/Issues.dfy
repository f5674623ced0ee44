/** Validation issues: gathered in whatever order Go iterates over its maps, reported in
    one order. From admin/presentation/validation.go. */
module Issues {
  import opened Text
  import opened Canonical
  import opened Findings

  // ----- the order of sortIssues

  predicate Before(a: Issue, b: Issue) {
    if a.path != b.path then StringLess(a.path, b.path)
    else if a.code != b.code then StringLess(a.code, b.code)
    else StringLess(a.message, b.message)
  }

  /** The whole triple is the key: two issues that neither precedes the other are equal. */
  lemma BeforeTotal(a: Issue, b: Issue)
    ensures Before(a, b) || Before(b, a) || a == b
    ensures !(Before(a, b) && Before(b, a)) && !Before(a, a)
  {
    StringLessTotal(a.path, b.path);
    StringLessTotal(a.code, b.code);
    StringLessTotal(a.message, b.message);
    StringLessTotal(a.message, a.message);
  }

  lemma BeforeTransitive(a: Issue, b: Issue, c: Issue)
    requires Before(a, b) && Before(b, c)
    ensures Before(a, c)
  {
    BeforeTotal(a, b);
    BeforeTotal(b, c);
    BeforeTotal(a, c);
    hide StringLess;
    if a.path != b.path && b.path != c.path { StringLessTransitive(a.path, b.path, c.path); StringLessTotal(a.path, c.path); StringLessTotal(a.path, b.path); }
    if a.code != b.code && b.code != c.code { StringLessTotal(a.code, b.code); }
    if a.path == b.path && b.path == c.path && a.code != b.code && b.code != c.code && StringLess(a.code, b.code) && StringLess(b.code, c.code) {
      StringLessTransitive(a.code, b.code, c.code);
      StringLessTotal(a.code, c.code);
    }
    if a.path == b.path && b.path == c.path && a.code == b.code && b.code == c.code { StringLessTransitive(a.message, b.message, c.message); }
  }

  ghost predicate Ascending(issues: seq<Issue>) {
    forall i, j :: 0 <= i < j < |issues| ==> !Before(issues[j], issues[i])
  }

  lemma WithoutFirst(a: seq<Issue>)
    requires a != []
    ensures a == [a[0]] + a[1..] && multiset(a[1..]) == multiset(a) - multiset{a[0]}
    ensures Ascending(a) ==> Ascending(a[1..])
  {
    hide Before;
    assert a == [a[0]] + a[1..];
  }

  /** There is only one ascending arrangement of a multiset of issues. */
  lemma {:induction false} ArrangementUnique(a: seq<Issue>, b: seq<Issue>)
    requires Ascending(a) && Ascending(b) && multiset(a) == multiset(b)
    ensures a == b
  {
    assert |a| == |multiset(a)| == |multiset(b)| == |b|;
    if a != [] {
      assert a[0] in multiset(b);
      assert b[0] in multiset(a);
      var i :| 0 <= i < |b| && b[i] == a[0];
      var j :| 0 <= j < |a| && a[j] == b[0];
      BeforeTotal(a[0], b[0]);
      assert a[0] == b[0];
      hide Before;
      WithoutFirst(a);
      WithoutFirst(b);
      ArrangementUnique(a[1..], b[1..]);
    }
  }

  // ----- the list behind the *[]Issue pointer

  class IssueLog {
    var issues: seq<Issue>

    constructor ()
      ensures issues == []
    {
      issues := [];
    }

    /** What has been reported so far, in no order. */
    ghost function Bag(): multiset<Issue>
      reads this
    {
      multiset(issues)
    }

    /** addIssue */
    method Add(problem: Problem, path: string)
      modifies this
      ensures Bag() == old(Bag()) + multiset{At(problem, path)}
    {
      issues := issues + [At(problem, path)];
    }

    /** addIssue behind an `if`. */
    method Check(fails: bool, problem: Problem, path: string)
      modifies this
      ensures Bag() == old(Bag()) + When(fails, problem, path)
    {
      if fails {
        Add(problem, path);
      }
    }

    /** sortIssues: each issue goes in behind those it does not precede. */
    method Sort()
      modifies this
      ensures Ascending(issues) && multiset(issues) == multiset(old(issues))
      ensures |issues| == |old(issues)|
    {
      var sorted: seq<Issue> := [];
      var given := issues;
      for n := 0 to |given|
        invariant Ascending(sorted) && multiset(sorted) == multiset(given[..n])
      {
        assert given[..n + 1] == given[..n] + [given[n]];
        sorted := Inserted(sorted, given[n]);
      }
      assert given[..|given|] == given;
      assert |given| == |multiset(given)| == |multiset(sorted)| == |sorted|;
      issues := sorted;
    }
  }

  /** Puts an issue behind every issue of an ascending list that does not follow it. */
  method Inserted(sorted: seq<Issue>, current: Issue) returns (r: seq<Issue>)
    requires Ascending(sorted)
    ensures Ascending(r) && multiset(r) == multiset(sorted + [current])
  {
    var i := |sorted|;
    while i > 0 && Before(current, sorted[i - 1])
      invariant 0 <= i <= |sorted|
      invariant forall k :: i <= k < |sorted| ==> Before(current, sorted[k])
    {
      i := i - 1;
    }
    r := sorted[..i] + [current] + sorted[i..];
    assert sorted == sorted[..i] + sorted[i..];
    forall a, b | 0 <= a < b < |r| ensures !Before(r[b], r[a]) {
      AscendingInserted(sorted, current, i, a, b);
    }
  }

  lemma AscendingInserted(sorted: seq<Issue>, current: Issue, i: nat, a: nat, b: nat)
    requires Ascending(sorted) && i <= |sorted| && a < b < |sorted| + 1
    requires i > 0 ==> !Before(current, sorted[i - 1])
    requires forall k :: i <= k < |sorted| ==> Before(current, sorted[k])
    ensures var r := sorted[..i] + [current] + sorted[i..]; !Before(r[b], r[a])
  {
    if a == i {
      BeforeTotal(current, sorted[b - 1]);
    } else if b == i {
      if Before(current, sorted[a]) {
        BeforeTotal(sorted[a], sorted[i - 1]);
        if a < i - 1 && sorted[a] != sorted[i - 1] { BeforeTransitive(current, sorted[a], sorted[i - 1]); }
      }
    }
  }

  // ----- issues in no order

  /** One issue if a check fails, and none otherwise. */
  function When(fails: bool, problem: Problem, path: string): multiset<Issue> {
    if fails then multiset{At(problem, path)} else multiset{}
  }

  lemma WhenCount(fails: bool, problem: Problem, path: string)
    ensures |When(fails, problem, path)| == if fails then 1 else 0
  {
  }

  type Part<!K> = K -> multiset<Issue>

  /** The issues of the first n elements of a list. */
  function Upto(n: nat, part: Part<nat>): multiset<Issue> {
    if n == 0 then multiset{} else Upto(n - 1, part) + part(n - 1)
  }

  lemma UptoNext(n: nat, part: Part<nat>)
    ensures Upto(0, part) == multiset{} && Upto(n + 1, part) == Upto(n, part) + part(n)
  {
  }

  /** The issues of a set, in whatever order its elements come. */
  ghost function Over<K>(keys: set<K>, part: Part<K>): multiset<Issue> {
    if keys == {} then multiset{}
    else
      var key :| key in keys;
      part(key) + Over(keys - {key}, part)
  }

  /** Any element may come first. */
  lemma {:induction false} AnyFirst<K>(keys: set<K>, part: Part<K>, key: K)
    requires key in keys
    ensures Over(keys, part) == part(key) + Over(keys - {key}, part)
    decreases |keys|
  {
    var first :| first in keys && Over(keys, part) == part(first) + Over(keys - {first}, part);
    if first != key {
      AnyFirst(keys - {first}, part, key);
      AnyFirst(keys - {key}, part, first);
      assert keys - {first} - {key} == keys - {key} - {first};
    }
  }

  /** A list is clean exactly when its elements are, and so is a set. */
  lemma {:induction false} UptoClean(n: nat, part: Part<nat>)
    ensures |Upto(n, part)| == 0 <==> forall i :: 0 <= i < n ==> |part(i)| == 0
  {
    if n > 0 {
      UptoClean(n - 1, part);
    }
  }

  lemma {:induction false} OverClean<K>(keys: set<K>, part: Part<K>)
    ensures |Over(keys, part)| == 0 <==> forall key :: key in keys ==> |part(key)| == 0
    decreases |keys|
  {
    if keys != {} {
      var key :| key in keys;
      AnyFirst(keys, part, key);
      OverClean(keys - {key}, part);
    }
  }

  // ----- nulls

  /** The decimal digits of an index, as `%d` prints it. */
  function Decimal(n: nat): string {
    if n < 10 then ["0123456789"[n]] else Decimal(n / 10) + ["0123456789"[n % 10]]
  }

  /** The number that decimal digits stand for. */
  function Value(digits: string): nat {
    if digits == "" then 0
    else
      var last := digits[|digits| - 1];
      10 * Value(digits[..|digits| - 1]) + if '0' <= last <= '9' then (last as int - '0' as int) as nat else 0
  }

  /** Decimal writes nothing but digits, which stand for the number, and no leading zero. */
  lemma {:induction false} DecimalExactly(n: nat)
    ensures Value(Decimal(n)) == n && (forall i :: 0 <= i < |Decimal(n)| ==> '0' <= Decimal(n)[i] <= '9')
    ensures Decimal(n) != "" && (n > 0 ==> Decimal(n)[0] != '0')
  {
    if n >= 10 {
      DecimalExactly(n / 10);
      var s := Decimal(n);
      assert s[..|s| - 1] == Decimal(n / 10);
    } else {
      assert Decimal(n)[..0] == "";
    }
  }

  function ItemPath(path: string, index: nat): string {
    path + "[" + Decimal(index) + "]"
  }

  function MemberPath(path: string, key: string): string {
    path + "." + key
  }

  /** The unexpected nulls of a tree, in no order. */
  ghost function NullsOf(value: Json, path: string, allowNull: bool): multiset<Issue>
    decreases value, 1, 0
  {
    match value
    case Null => if allowNull then multiset{} else multiset{At(UnexpectedNull, path)}
    case Arr(items) => ItemNulls(value, 0, path, allowNull)
    case Obj(members) => MemberNulls(value, members.Keys, path)
    case _ => multiset{}
  }

  ghost function ItemNulls(value: Json, i: nat, path: string, allowNull: bool): multiset<Issue>
    requires value.Arr? && i <= |value.items|
    decreases value, 0, |value.items| - i
  {
    if i == |value.items| then multiset{}
    else NullsOf(value.items[i], ItemPath(path, i), allowNull) + ItemNulls(value, i + 1, path, allowNull)
  }

  ghost function MemberNulls(value: Json, keys: set<string>, path: string): multiset<Issue>
    requires value.Obj? && keys <= value.members.Keys
    decreases value, 0, |keys|
  {
    if keys == {} then multiset{}
    else
      var key :| key in keys;
      NullsOf(value.members[key], MemberPath(path, key), key == "value") + MemberNulls(value, keys - {key}, path)
  }

  /** Any key may come first. */
  lemma {:induction false} AnyKeyFirst(value: Json, keys: set<string>, path: string, key: string)
    requires value.Obj? && keys <= value.members.Keys && key in keys
    ensures MemberNulls(value, keys, path)
         == NullsOf(value.members[key], MemberPath(path, key), key == "value") + MemberNulls(value, keys - {key}, path)
    decreases |keys|
  {
    var first :| first in keys && MemberNulls(value, keys, path)
      == NullsOf(value.members[first], MemberPath(path, first), first == "value") + MemberNulls(value, keys - {first}, path);
    if first != key {
      AnyKeyFirst(value, keys - {first}, path, key);
      AnyKeyFirst(value, keys - {key}, path, first);
      assert keys - {first} - {key} == keys - {key} - {first};
    }
  }

  /** inspectUnexpectedNulls. The keys of a map come in any order; the issues it adds are
      the same up to order. */
  method InspectUnexpectedNulls(value: Json, path: string, allowNull: bool, log: IssueLog)
    modifies log
    ensures log.Bag() == old(log.Bag()) + NullsOf(value, path, allowNull)
    decreases value, 1
  {
    match value
    case Null =>
      if !allowNull {
        log.Add(UnexpectedNull, path);
      }
    case Arr(items) => InspectItems(value, path, allowNull, log);
    case Obj(members) => InspectMembers(value, path, log);
    case _ =>
  }

  lemma ItemNullsFrom(value: Json, i: nat, path: string, allowNull: bool)
    requires value.Arr? && i <= |value.items|
    ensures ItemNulls(value, i, path, allowNull) == if i == |value.items| then multiset{}
            else NullsOf(value.items[i], ItemPath(path, i), allowNull) + ItemNulls(value, i + 1, path, allowNull)
  {
  }

  method InspectItems(value: Json, path: string, allowNull: bool, log: IssueLog)
    requires value.Arr?
    modifies log
    ensures log.Bag() == old(log.Bag()) + ItemNulls(value, 0, path, allowNull)
    decreases value, 0
  {
    hide ItemNulls, NullsOf, ItemPath;
    var index := 0;
    while index < |value.items|
      invariant 0 <= index <= |value.items|
      invariant log.Bag() + ItemNulls(value, index, path, allowNull)
             == old(log.Bag()) + ItemNulls(value, 0, path, allowNull)
    {
      ItemNullsFrom(value, index, path, allowNull);
      InspectUnexpectedNulls(value.items[index], ItemPath(path, index), allowNull, log);
      index := index + 1;
    }
    ItemNullsFrom(value, index, path, allowNull);
  }

  method InspectMembers(value: Json, path: string, log: IssueLog)
    requires value.Obj?
    modifies log
    ensures log.Bag() == old(log.Bag()) + MemberNulls(value, value.members.Keys, path)
    decreases value, 0
  {
    var rest := value.members.Keys;
    while rest != {}
      invariant rest <= value.members.Keys
      invariant log.Bag() + MemberNulls(value, rest, path)
             == old(log.Bag()) + MemberNulls(value, value.members.Keys, path)
      decreases rest
    {
      var key :| key in rest;
      AnyKeyFirst(value, rest, path, key);
      InspectUnexpectedNulls(value.members[key], MemberPath(path, key), key == "value", log);
      rest := rest - {key};
    }
  }

  /** Nulls may stand only under the member name "value", also inside arrays there. */
  ghost predicate NullsAllowed(value: Json, allowNull: bool)
    decreases value
  {
    match value
    case Null => allowNull
    case Arr(items) => forall i :: 0 <= i < |items| ==> NullsAllowed(items[i], allowNull)
    case Obj(members) => forall key :: key in members ==> NullsAllowed(members[key], key == "value")
    case _ => true
  }

  /** No issue is reported exactly when every null is allowed where it stands. */
  lemma {:induction false} NoNullIssues(value: Json, path: string, allowNull: bool)
    ensures NullsOf(value, path, allowNull) == multiset{} <==> NullsAllowed(value, allowNull)
    decreases value, 1, 0
  {
    match value
    case Arr(items) => NoItemIssues(value, 0, path, allowNull);
    case Obj(members) => NoMemberIssues(value, members.Keys, path);
    case _ =>
  }

  lemma {:induction false} NoItemIssues(value: Json, i: nat, path: string, allowNull: bool)
    requires value.Arr? && i <= |value.items|
    ensures ItemNulls(value, i, path, allowNull) == multiset{} <==> forall k :: i <= k < |value.items| ==> NullsAllowed(value.items[k], allowNull)
    decreases value, 0, |value.items| - i
  {
    if i < |value.items| {
      NoNullIssues(value.items[i], ItemPath(path, i), allowNull);
      NoItemIssues(value, i + 1, path, allowNull);
      EmptySum(NullsOf(value.items[i], ItemPath(path, i), allowNull), ItemNulls(value, i + 1, path, allowNull));
    }
  }

  lemma {:induction false} NoMemberIssues(value: Json, keys: set<string>, path: string)
    requires value.Obj? && keys <= value.members.Keys
    ensures MemberNulls(value, keys, path) == multiset{} <==> forall key :: key in keys ==> NullsAllowed(value.members[key], key == "value")
    decreases value, 0, |keys|
  {
    if keys != {} {
      var key :| key in keys;
      AnyKeyFirst(value, keys, path, key);
      NoNullIssues(value.members[key], MemberPath(path, key), key == "value");
      NoMemberIssues(value, keys - {key}, path);
      EmptySum(NullsOf(value.members[key], MemberPath(path, key), key == "value"), MemberNulls(value, keys - {key}, path));
    }
  }

  lemma EmptySum(a: multiset<Issue>, b: multiset<Issue>)
    ensures a + b == multiset{} <==> a == multiset{} && b == multiset{}
  {
    assert |a + b| == |a| + |b|;
  }

  lemma ReportEmpty(issues: seq<Issue>, a: multiset<Issue>, b: multiset<Issue>)
    requires multiset(issues) == a + b
    ensures issues == [] <==> a == multiset{} && |b| == 0
  {
    assert |issues| == |multiset(issues)| == |a| + |b|;
  }
}
