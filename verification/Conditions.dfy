/** Visibility conditions: the shape check and the reference check of
    admin/presentation/validation.go, which recurse over the same tree. */
module Conditions {
  import opened Text
  import opened Canonical
  import opened Findings
  import opened Issues
  import opened Patterns
  import JsonParser
  import RoundTrip

  /** The raw bytes of a value as `json.Decoder` takes them: an error or a tree. */
  datatype RawValue = Malformed(error: string) | Decoded(value: Json)

  datatype Condition = Condition(
    field: Option<string>, operator: Option<string>, value: Option<RawValue>,
    all: Group, any: Group, not: Option<Condition>)

  /** A pointer to a list of conditions. */
  datatype Group = Absent | Group(items: seq<Condition>)

  const MAX_DEPTH := 8

  const OPERATORS := ["eq", "neq", "in", "not-in", "exists", "not-exists", "gt", "gte", "lt", "lte"]

  predicate IsOperator(operator: string) {
    operator in OPERATORS
  }

  predicate IsPresence(operator: string) {
    operator == "exists" || operator == "not-exists"
  }

  predicate IsPredicate(c: Condition) {
    c.field.Some? || c.operator.Some? || c.value.Some?
  }

  function Variants(c: Condition): nat {
    (if IsPredicate(c) then 1 else 0) + (if c.all.Group? then 1 else 0) + (if c.any.Group? then 1 else 0) + (if c.not.Some? then 1 else 0)
  }

  predicate IsScalar(v: Json) {
    v.Null? || v.Str? || v.Bool? || v.Num?
  }

  /** The canonical text of a scalar that the writer can write. */
  function ScalarText(v: Json, marshal: Encoder): string
    requires IsScalar(v)
  {
    match v
    case Null => "null"
    case Bool(b) => if b then "true" else "false"
    case Str(s) => marshal.quote(s)
    case Num(literal) => literal
  }

  /** Numbers out of range: the writer reports an error. */
  predicate Rejected(v: Json, marshal: Encoder) {
    v.Num? && !marshal.parseFloat(v.literal)
  }

  /** What `canonicalJSON` returns with its error ignored: nothing for a rejected number. */
  function Key(v: Json, marshal: Encoder): string
    requires IsScalar(v)
  {
    if Rejected(v, marshal) then "" else ScalarText(v, marshal)
  }

  lemma ScalarTextIsCanonical(v: Json, marshal: Encoder)
    requires IsScalar(v)
    ensures ScalarText(v, marshal) == Print(v, marshal.quote) && (Rejected(v, marshal) <==> !Writable(v, marshal.parseFloat))
  {
  }

  /** Two scalars that count as the same: equal canonical texts, or two rejected numbers. */
  predicate Repeats(v: Json, w: Json, marshal: Encoder)
    requires IsScalar(v) && IsScalar(w)
  {
    if Rejected(v, marshal) || Rejected(w, marshal) then Rejected(v, marshal) && Rejected(w, marshal)
    else ScalarText(v, marshal) == ScalarText(w, marshal)
  }

  /** 1 to 50 scalars with different canonical texts, at most one of them a rejected number. */
  ghost predicate GoodArray(items: seq<Json>, marshal: Encoder) {
    && 1 <= |items| <= 50
    && (forall i :: 0 <= i < |items| ==> IsScalar(items[i]))
    && forall i, j :: 0 <= i < j < |items| ==> !Repeats(items[i], items[j], marshal)
  }

  lemma SameKey(v: Json, w: Json, marshal: Encoder)
    requires IsScalar(v) && IsScalar(w)
    ensures Key(v, marshal) == Key(w, marshal) <==> Repeats(v, w, marshal)
  {
    assert forall u :: IsScalar(u) && !Rejected(u, marshal) ==> ScalarText(u, marshal) != "";
  }

  /** With an encoder that a reader inverts, decoded scalars count as the same exactly when
      they are equal or both rejected. */
  lemma RepeatsByValue(v: Json, w: Json, marshal: Encoder)
    requires JsonParser.Inverts(marshal.quote) && JsonParser.Decoded(v) && JsonParser.Decoded(w) && IsScalar(v) && IsScalar(w)
    ensures Repeats(v, w, marshal) <==> v == w || (Rejected(v, marshal) && Rejected(w, marshal))
  {
    ScalarTextIsCanonical(v, marshal);
    ScalarTextIsCanonical(w, marshal);
    RoundTrip.PrintThenParse(v, marshal.quote);
    RoundTrip.PrintThenParse(w, marshal.quote);
  }

  /** An array of different scalars that is reported to repeat one: two numbers out of range. */
  lemma DifferentYetRepeated(marshal: Encoder)
    requires !marshal.parseFloat("1e400") && !marshal.parseFloat("2e400")
    ensures var items := [Num("1e400"), Num("2e400")];
            items[0] != items[1] && !GoodArray(items, marshal) && |ArrayIssues(items, "$", marshal)| == 1
  {
    var items := [Num("1e400"), Num("2e400")];
    ghost var part := ItemPart(items, "$", marshal);
    assert "1e400"[0] != "2e400"[0];
    assert Repeats(items[0], items[1], marshal);
    assert Key(items[0], marshal) in TextsBefore(items, 1, marshal);
    assert TextsBefore(items, 0, marshal) == {};
    UptoNext(0, part);
    UptoNext(1, part);
    assert |part(0)| == 0 && |part(1)| == 1;
  }

  ghost predicate GoodValue(raw: RawValue, marshal: Encoder) {
    raw.Decoded? && if raw.value.Arr? then GoodArray(raw.value.items, marshal) else IsScalar(raw.value)
  }

  ghost predicate GoodPredicate(c: Condition, marshal: Encoder) {
    && c.field.Some? && IsReference(c.field.value)
    && c.operator.Some? && IsOperator(c.operator.value)
    && (IsPresence(c.operator.value) <==> c.value == None)
    && (c.value.Some? ==> GoodValue(c.value.value, marshal))
  }

  /** Exactly one variant at every node, groups of 1 to 20, complete predicates, nothing
      deeper than 8. */
  ghost predicate WellShaped(c: Condition, depth: nat, marshal: Encoder)
    decreases MAX_DEPTH + 1 - depth, 1
  {
    && depth <= MAX_DEPTH
    && Variants(c) == 1
    && (c.all.Group? ==> WellShapedGroup(c.all.items, depth, marshal))
    && (c.any.Group? ==> WellShapedGroup(c.any.items, depth, marshal))
    && (c.not.Some? ==> WellShaped(c.not.value, depth + 1, marshal))
    && (IsPredicate(c) ==> GoodPredicate(c, marshal))
  }

  ghost predicate WellShapedGroup(group: seq<Condition>, depth: nat, marshal: Encoder)
    requires depth <= MAX_DEPTH
    decreases MAX_DEPTH + 1 - depth, 0
  {
    1 <= |group| <= 20 && forall i :: 0 <= i < |group| ==> WellShaped(group[i], depth + 1, marshal)
  }

  // ----- the shape check

  /** The keys of the scalars before the i-th value: the `seen` map of the loop. */
  function TextsBefore(values: seq<Json>, i: nat, marshal: Encoder): set<string>
    requires i <= |values|
  {
    set j | 0 <= j < i && IsScalar(values[j]) :: Key(values[j], marshal)
  }

  lemma TextsFirst(values: seq<Json>, marshal: Encoder)
    ensures TextsBefore(values, 0, marshal) == {}
  {
  }

  lemma TextsNext(values: seq<Json>, i: nat, marshal: Encoder)
    requires i < |values|
    ensures TextsBefore(values, i + 1, marshal)
         == TextsBefore(values, i, marshal) + if IsScalar(values[i]) then {Key(values[i], marshal)} else {}
  {
  }

  /** The issue of the i-th value of an array. */
  function ItemIssues(values: seq<Json>, i: nat, path: string, marshal: Encoder): multiset<Issue>
    requires i < |values|
  {
    if !IsScalar(values[i]) then When(true, ConditionItemNotScalar, ItemPath(path, i))
    else When(Key(values[i], marshal) in TextsBefore(values, i, marshal), ConditionItemRepeated, ItemPath(path, i))
  }

  function ItemPart(values: seq<Json>, path: string, marshal: Encoder): Part<nat> {
    (i: nat) => if i < |values| then ItemIssues(values, i, path, marshal) else multiset{}
  }

  function ArrayIssues(values: seq<Json>, path: string, marshal: Encoder): multiset<Issue> {
    When(|values| < 1 || |values| > 50, ConditionValueSize, path) + Upto(|values|, ItemPart(values, path, marshal))
  }

  function ValueIssues(raw: RawValue, path: string, marshal: Encoder): multiset<Issue> {
    match raw
    case Malformed(error) => When(true, ConditionValueMalformed(error), path)
    case Decoded(value) =>
      if value.Arr? then ArrayIssues(value.items, path, marshal) else When(!IsScalar(value), ConditionValueNotScalar, path)
  }

  method ValidateConditionValue(raw: RawValue, path: string, log: IssueLog, marshal: Encoder)
    modifies log
    ensures log.Bag() == old(log.Bag()) + ValueIssues(raw, path, marshal)
  {
    hide At, When, IssueLog.Bag, ArrayIssues, IsScalar;
    match raw
    case Malformed(error) => log.Check(true, ConditionValueMalformed(error), path);
    case Decoded(value) =>
      if value.Arr? {
        ValidateConditionArray(value.items, path, log, marshal);
      } else {
        log.Check(!IsScalar(value), ConditionValueNotScalar, path);
      }
  }

  /** One round of the loop over an array. */
  method ValidateConditionItem(values: seq<Json>, index: nat, seen: set<string>, path: string, log: IssueLog, marshal: Encoder)
      returns (seenNow: set<string>)
    requires index < |values| && seen == TextsBefore(values, index, marshal)
    modifies log
    ensures log.Bag() == old(log.Bag()) + ItemIssues(values, index, path, marshal)
    ensures seenNow == TextsBefore(values, index + 1, marshal)
  {
    hide At, When, IssueLog.Bag, ItemPath, Key, IsScalar, TextsBefore;
    TextsNext(values, index, marshal);
    if !IsScalar(values[index]) {
      log.Check(true, ConditionItemNotScalar, ItemPath(path, index));
      return seen;
    }
    var key := Key(values[index], marshal);
    log.Check(key in seen, ConditionItemRepeated, ItemPath(path, index));
    return seen + {key};
  }

  method ValidateConditionArray(values: seq<Json>, path: string, log: IssueLog, marshal: Encoder)
    modifies log
    ensures log.Bag() == old(log.Bag()) + ArrayIssues(values, path, marshal)
  {
    hide At, When, IssueLog.Bag, ItemIssues, Key, IsScalar, TextsBefore, Upto;
    ghost var part := ItemPart(values, path, marshal);
    UptoNext(0, part);
    TextsFirst(values, marshal);
    log.Check(|values| < 1 || |values| > 50, ConditionValueSize, path);
    ghost var before := log.Bag();
    var seen: set<string> := {};
    for index := 0 to |values|
      invariant seen == TextsBefore(values, index, marshal)
      invariant log.Bag() == before + Upto(index, part)
    {
      UptoNext(index, part);
      seen := ValidateConditionItem(values, index, seen, path, log, marshal);
    }
  }

  function FieldIssues(field: Option<string>, path: string): multiset<Issue> {
    match field
    case None => When(true, ConditionFieldMissing, path)
    case Some(f) => When(!IsReference(f), ReferenceInvalid, path)
  }

  function OperatorIssues(c: Condition, path: string, marshal: Encoder): multiset<Issue> {
    if c.operator == None then When(true, ConditionOperatorMissing, path)
    else if !IsOperator(c.operator.value) then When(true, ConditionOperatorUnknown, path)
    else
      var presence := IsPresence(c.operator.value);
      When(presence && c.value.Some?, ConditionValueUnexpected, path)
      + When(!presence && c.value == None, ConditionValueMissing, path)
      + if c.value.Some? then ValueIssues(c.value.value, MemberPath(path, "value"), marshal) else multiset{}
  }

  /** The issues of the shape check. */
  function ShapeIssues(c: Condition, path: string, depth: nat, marshal: Encoder): multiset<Issue>
    decreases if depth <= MAX_DEPTH then MAX_DEPTH + 1 - depth else 0, 1
  {
    if depth > MAX_DEPTH then When(true, ConditionDepth, path)
    else if Variants(c) != 1 then When(true, ConditionVariants, path)
    else if c.all.Group? then GroupIssues(c.all.items, MemberPath(path, "all"), depth, marshal)
    else if c.any.Group? then GroupIssues(c.any.items, MemberPath(path, "any"), depth, marshal)
    else if c.not.Some? then ShapeIssues(c.not.value, MemberPath(path, "not"), depth + 1, marshal)
    else FieldIssues(c.field, path) + OperatorIssues(c, path, marshal)
  }

  function GroupIssues(group: seq<Condition>, path: string, depth: nat, marshal: Encoder): multiset<Issue>
    requires depth <= MAX_DEPTH
    decreases MAX_DEPTH + 1 - depth, 0, |group| + 1
  {
    When(|group| < 1 || |group| > 20, ConditionGroupSize, path) + GroupUpto(group, |group|, path, depth, marshal)
  }

  function GroupUpto(group: seq<Condition>, n: nat, path: string, depth: nat, marshal: Encoder): multiset<Issue>
    requires depth <= MAX_DEPTH && n <= |group|
    decreases MAX_DEPTH + 1 - depth, 0, n
  {
    if n == 0 then multiset{}
    else GroupUpto(group, n - 1, path, depth, marshal) + ShapeIssues(group[n - 1], ItemPath(path, n - 1), depth + 1, marshal)
  }

  /** The issues of the shape check of a condition that need not be given. */
  function ShapeIssuesWhen(condition: Option<Condition>, path: string, marshal: Encoder): multiset<Issue> {
    if condition == None then multiset{} else ShapeIssues(condition.value, path, 0, marshal)
  }

  method ValidateConditionShape(condition: Option<Condition>, path: string, log: IssueLog, depth: nat, marshal: Encoder)
    modifies log
    ensures log.Bag() == old(log.Bag()) + if condition == None then multiset{} else ShapeIssues(condition.value, path, depth, marshal)
    decreases if depth <= MAX_DEPTH then MAX_DEPTH + 1 - depth else 0, 1
  {
    hide At, When, IssueLog.Bag, MemberPath, FieldIssues, OperatorIssues, GroupIssues, Variants;
    if condition == None {
      return;
    }
    var c := condition.value;
    if depth > MAX_DEPTH {
      log.Check(true, ConditionDepth, path);
      return;
    }
    if Variants(c) != 1 {
      log.Check(true, ConditionVariants, path);
      return;
    }
    if c.all.Group? {
      ValidateConditionGroup(c.all.items, MemberPath(path, "all"), log, depth, marshal);
    } else if c.any.Group? {
      ValidateConditionGroup(c.any.items, MemberPath(path, "any"), log, depth, marshal);
    } else if c.not.Some? {
      ValidateConditionShape(c.not, MemberPath(path, "not"), log, depth + 1, marshal);
    } else {
      ValidatePredicate(c, path, log, marshal);
    }
  }

  method ValidateConditionField(field: Option<string>, path: string, log: IssueLog)
    modifies log
    ensures log.Bag() == old(log.Bag()) + FieldIssues(field, path)
  {
    hide At, When, IssueLog.Bag, IsReference;
    if field == None {
      log.Check(true, ConditionFieldMissing, path);
    } else {
      log.Check(!IsReference(field.value), ReferenceInvalid, path);
    }
  }

  method ValidateConditionOperator(c: Condition, path: string, log: IssueLog, marshal: Encoder)
    modifies log
    ensures log.Bag() == old(log.Bag()) + OperatorIssues(c, path, marshal)
  {
    hide At, When, IssueLog.Bag, MemberPath, ValueIssues, IsOperator, IsPresence;
    if c.operator == None {
      log.Check(true, ConditionOperatorMissing, path);
      return;
    }
    if !IsOperator(c.operator.value) {
      log.Check(true, ConditionOperatorUnknown, path);
      return;
    }
    var presence := IsPresence(c.operator.value);
    log.Check(presence && c.value.Some?, ConditionValueUnexpected, path);
    log.Check(!presence && c.value == None, ConditionValueMissing, path);
    if c.value.Some? {
      ValidateConditionValue(c.value.value, MemberPath(path, "value"), log, marshal);
    }
  }

  method ValidatePredicate(c: Condition, path: string, log: IssueLog, marshal: Encoder)
    modifies log
    ensures log.Bag() == old(log.Bag()) + (FieldIssues(c.field, path) + OperatorIssues(c, path, marshal))
  {
    hide At, IssueLog.Bag, FieldIssues, OperatorIssues;
    ValidateConditionField(c.field, path, log);
    ValidateConditionOperator(c, path, log, marshal);
  }

  method ValidateConditionGroup(group: seq<Condition>, path: string, log: IssueLog, depth: nat, marshal: Encoder)
    requires depth <= MAX_DEPTH
    modifies log
    ensures log.Bag() == old(log.Bag()) + GroupIssues(group, path, depth, marshal)
    decreases MAX_DEPTH + 1 - depth, 0
  {
    hide At, When, IssueLog.Bag, ShapeIssues, ItemPath;
    log.Check(|group| < 1 || |group| > 20, ConditionGroupSize, path);
    ghost var before := log.Bag();
    for index := 0 to |group|
      invariant log.Bag() == before + GroupUpto(group, index, path, depth, marshal)
    {
      ValidateConditionShape(Some(group[index]), ItemPath(path, index), log, depth + 1, marshal);
    }
  }

  // ----- when the shape check finds nothing

  lemma ArrayClean(values: seq<Json>, path: string, marshal: Encoder)
    ensures |ArrayIssues(values, path, marshal)| == 0 <==> GoodArray(values, marshal)
  {
    hide At, When, Key, IsScalar, ItemPath, GoodArray;
    WhenCount(|values| < 1 || |values| > 50, ConditionValueSize, path);
    UptoClean(|values|, ItemPart(values, path, marshal));
    forall i | 0 <= i < |values| ensures |ItemPart(values, path, marshal)(i)| == 0 <==> GoodItem(values, i, marshal) {
      WhenCount(true, ConditionItemNotScalar, ItemPath(path, i));
      if IsScalar(values[i]) {
        WhenCount(Key(values[i], marshal) in TextsBefore(values, i, marshal), ConditionItemRepeated, ItemPath(path, i));
      }
    }
    GoodItems(values, marshal);
  }

  ghost predicate GoodItem(values: seq<Json>, i: nat, marshal: Encoder)
    requires i < |values|
  {
    IsScalar(values[i]) && Key(values[i], marshal) !in TextsBefore(values, i, marshal)
  }

  lemma GoodItems(values: seq<Json>, marshal: Encoder)
    ensures GoodArray(values, marshal) <==> 1 <= |values| <= 50 && forall i :: 0 <= i < |values| ==> GoodItem(values, i, marshal)
  {
    hide Key, IsScalar, Repeats;
    if GoodArray(values, marshal) {
      forall i, j | 0 <= i < j < |values| ensures Key(values[i], marshal) != Key(values[j], marshal) {
        SameKey(values[i], values[j], marshal);
      }
    }
    if forall i :: 0 <= i < |values| ==> GoodItem(values, i, marshal) {
      forall i | 0 <= i < |values| ensures IsScalar(values[i]) {
        assert GoodItem(values, i, marshal);
      }
      forall i, j | 0 <= i < j < |values| ensures !Repeats(values[i], values[j], marshal) {
        assert GoodItem(values, i, marshal) && GoodItem(values, j, marshal);
        assert Key(values[i], marshal) in TextsBefore(values, j, marshal);
        SameKey(values[i], values[j], marshal);
      }
    }
  }

  lemma ValueClean(raw: RawValue, path: string, marshal: Encoder)
    ensures |ValueIssues(raw, path, marshal)| == 0 <==> GoodValue(raw, marshal)
  {
    hide At, When, ArrayIssues, GoodArray;
    match raw
    case Malformed(error) => WhenCount(true, ConditionValueMalformed(error), path);
    case Decoded(value) =>
      if value.Arr? {
        ArrayClean(value.items, path, marshal);
      } else {
        WhenCount(!IsScalar(value), ConditionValueNotScalar, path);
      }
  }

  lemma PredicateClean(c: Condition, path: string, marshal: Encoder)
    ensures |FieldIssues(c.field, path) + OperatorIssues(c, path, marshal)| == 0 <==> GoodPredicate(c, marshal)
  {
    hide At, When, ValueIssues, IsReference, IsOperator, IsPresence, GoodValue, MemberPath;
    WhenCount(true, ConditionFieldMissing, path);
    if c.field.Some? { WhenCount(!IsReference(c.field.value), ReferenceInvalid, path); }
    WhenCount(true, ConditionOperatorMissing, path);
    WhenCount(true, ConditionOperatorUnknown, path);
    if c.operator.Some? {
      var presence := IsPresence(c.operator.value);
      WhenCount(presence && c.value.Some?, ConditionValueUnexpected, path);
      WhenCount(!presence && c.value == None, ConditionValueMissing, path);
    }
    if c.value.Some? { ValueClean(c.value.value, MemberPath(path, "value"), marshal); }
  }

  /** The shape check finds nothing exactly in well-shaped conditions. */
  lemma {:induction false} ShapeClean(c: Condition, path: string, depth: nat, marshal: Encoder)
    ensures |ShapeIssues(c, path, depth, marshal)| == 0 <==> WellShaped(c, depth, marshal)
    decreases if depth <= MAX_DEPTH then MAX_DEPTH + 1 - depth else 0, 1
  {
    hide At, When, GoodPredicate, FieldIssues, OperatorIssues, MemberPath, GroupIssues, WellShapedGroup;
    WhenCount(true, ConditionDepth, path);
    WhenCount(true, ConditionVariants, path);
    if depth <= MAX_DEPTH && Variants(c) == 1 {
      if c.all.Group? {
        GroupClean(c.all.items, MemberPath(path, "all"), depth, marshal);
      } else if c.any.Group? {
        GroupClean(c.any.items, MemberPath(path, "any"), depth, marshal);
      } else if c.not.Some? {
        ShapeClean(c.not.value, MemberPath(path, "not"), depth + 1, marshal);
      } else {
        PredicateClean(c, path, marshal);
      }
    }
  }

  lemma {:induction false} GroupClean(group: seq<Condition>, path: string, depth: nat, marshal: Encoder)
    requires depth <= MAX_DEPTH
    ensures |GroupIssues(group, path, depth, marshal)| == 0 <==> WellShapedGroup(group, depth, marshal)
    decreases MAX_DEPTH + 1 - depth, 0, |group| + 1
  {
    hide At, When, ShapeIssues, WellShaped;
    WhenCount(|group| < 1 || |group| > 20, ConditionGroupSize, path);
    GroupUptoClean(group, |group|, path, depth, marshal);
  }

  lemma {:induction false} GroupUptoClean(group: seq<Condition>, n: nat, path: string, depth: nat, marshal: Encoder)
    requires depth <= MAX_DEPTH && n <= |group|
    ensures |GroupUpto(group, n, path, depth, marshal)| == 0 <==> forall i :: 0 <= i < n ==> WellShaped(group[i], depth + 1, marshal)
    decreases MAX_DEPTH + 1 - depth, 0, n
  {
    hide At, ShapeIssues, WellShaped, ItemPath;
    if n > 0 {
      GroupUptoClean(group, n - 1, path, depth, marshal);
      ShapeClean(group[n - 1], ItemPath(path, n - 1), depth + 1, marshal);
    }
  }

  ghost predicate WellShapedWhen(condition: Option<Condition>, marshal: Encoder) {
    condition.Some? ==> WellShaped(condition.value, 0, marshal)
  }

  lemma ShapeWhenClean(condition: Option<Condition>, path: string, marshal: Encoder)
    ensures |ShapeIssuesWhen(condition, path, marshal)| == 0 <==> WellShapedWhen(condition, marshal)
  {
    hide ShapeIssues, WellShaped;
    if condition.Some? { ShapeClean(condition.value, path, 0, marshal); }
  }

  // ----- the reference check

  /** The reference check passes: it follows `all`, else `any`, else `not`, else the field. */
  ghost predicate Known(c: Condition, ids: set<string>)
    decreases c
  {
    if c.all.Group? then forall i :: 0 <= i < |c.all.items| ==> Known(c.all.items[i], ids)
    else if c.any.Group? then forall i :: 0 <= i < |c.any.items| ==> Known(c.any.items[i], ids)
    else if c.not.Some? then Known(c.not.value, ids)
    else c.field.Some? ==> c.field.value in ids
  }

  ghost predicate KnownWhen(condition: Option<Condition>, ids: set<string>) {
    condition.Some? ==> Known(condition.value, ids)
  }

  function ReferenceIssues(c: Condition, path: string, ids: set<string>): multiset<Issue>
    decreases c, 1, 0
  {
    if c.all.Group? then ReferenceUpto(c, c.all, |c.all.items|, MemberPath(path, "all"), ids)
    else if c.any.Group? then ReferenceUpto(c, c.any, |c.any.items|, MemberPath(path, "any"), ids)
    else if c.not.Some? then ReferenceIssues(c.not.value, MemberPath(path, "not"), ids)
    else When(c.field.Some? && c.field.value !in ids, ConditionFieldUnknown, path)
  }

  function ReferenceUpto(c: Condition, group: Group, n: nat, path: string, ids: set<string>): multiset<Issue>
    requires group.Group? && (group == c.all || group == c.any) && n <= |group.items|
    decreases c, 0, n
  {
    if n == 0 then multiset{}
    else ReferenceUpto(c, group, n - 1, path, ids) + ReferenceIssues(group.items[n - 1], ItemPath(path, n - 1), ids)
  }

  function ReferenceIssuesWhen(condition: Option<Condition>, path: string, ids: set<string>): multiset<Issue> {
    if condition == None then multiset{} else ReferenceIssues(condition.value, path, ids)
  }

  method ValidateSemanticCondition(condition: Option<Condition>, path: string, ids: set<string>, log: IssueLog)
    modifies log
    ensures log.Bag() == old(log.Bag()) + ReferenceIssuesWhen(condition, path, ids)
  {
    hide At, IssueLog.Bag, ReferenceIssues;
    if condition.Some? {
      ValidateSemanticNode(condition.value, path, ids, log);
    }
  }

  method ValidateSemanticNode(c: Condition, path: string, ids: set<string>, log: IssueLog)
    modifies log
    ensures log.Bag() == old(log.Bag()) + ReferenceIssues(c, path, ids)
    decreases c
  {
    hide At, When, IssueLog.Bag, MemberPath, ItemPath;
    ghost var before := log.Bag();
    if c.all.Group? {
      for index := 0 to |c.all.items|
        invariant log.Bag() == before + ReferenceUpto(c, c.all, index, MemberPath(path, "all"), ids)
      {
        ValidateSemanticNode(c.all.items[index], ItemPath(MemberPath(path, "all"), index), ids, log);
      }
    } else if c.any.Group? {
      for index := 0 to |c.any.items|
        invariant log.Bag() == before + ReferenceUpto(c, c.any, index, MemberPath(path, "any"), ids)
      {
        ValidateSemanticNode(c.any.items[index], ItemPath(MemberPath(path, "any"), index), ids, log);
      }
    } else if c.not.Some? {
      ValidateSemanticNode(c.not.value, MemberPath(path, "not"), ids, log);
    } else {
      log.Check(c.field.Some? && c.field.value !in ids, ConditionFieldUnknown, path);
    }
  }

  /** The reference check finds nothing exactly in conditions whose visited fields are known. */
  lemma {:induction false} ReferenceClean(c: Condition, path: string, ids: set<string>)
    ensures |ReferenceIssues(c, path, ids)| == 0 <==> Known(c, ids)
    decreases c, 1, 0
  {
    hide At, When, MemberPath;
    WhenCount(c.field.Some? && c.field.value !in ids, ConditionFieldUnknown, path);
    if c.all.Group? {
      ReferenceUptoClean(c, c.all, |c.all.items|, MemberPath(path, "all"), ids);
    } else if c.any.Group? {
      ReferenceUptoClean(c, c.any, |c.any.items|, MemberPath(path, "any"), ids);
    } else if c.not.Some? {
      ReferenceClean(c.not.value, MemberPath(path, "not"), ids);
    }
  }

  lemma {:induction false} ReferenceUptoClean(c: Condition, group: Group, n: nat, path: string, ids: set<string>)
    requires group.Group? && (group == c.all || group == c.any) && n <= |group.items|
    ensures |ReferenceUpto(c, group, n, path, ids)| == 0 <==> forall i :: 0 <= i < n ==> Known(group.items[i], ids)
    decreases c, 0, n
  {
    hide At, When, ItemPath;
    if n > 0 {
      ReferenceUptoClean(c, group, n - 1, path, ids);
      ReferenceClean(group.items[n - 1], ItemPath(path, n - 1), ids);
    }
  }

  lemma ReferenceWhenClean(condition: Option<Condition>, path: string, ids: set<string>)
    ensures |ReferenceIssuesWhen(condition, path, ids)| == 0 <==> KnownWhen(condition, ids)
  {
    hide ReferenceIssues, Known;
    if condition.Some? { ReferenceClean(condition.value, path, ids); }
  }

  // ----- which fields the reference check misses

  /** Every field mentioned anywhere in a condition. */
  ghost function FieldsOf(c: Condition): set<string>
    decreases c
  {
    (if c.field.Some? then {c.field.value} else {})
    + (if c.all.Group? then set i, f | 0 <= i < |c.all.items| && f in FieldsOf(c.all.items[i]) :: f else {})
    + (if c.any.Group? then set i, f | 0 <= i < |c.any.items| && f in FieldsOf(c.any.items[i]) :: f else {})
    + (if c.not.Some? then FieldsOf(c.not.value) else {})
  }

  ghost function FieldsOfGroup(group: Group): set<string> {
    if group.Absent? then {} else set i, f | 0 <= i < |group.items| && f in FieldsOf(group.items[i]) :: f
  }

  /** The fields the reference check looks at. */
  ghost function Visited(c: Condition): set<string>
    decreases c
  {
    if c.all.Group? then set i, f | 0 <= i < |c.all.items| && f in Visited(c.all.items[i]) :: f
    else if c.any.Group? then set i, f | 0 <= i < |c.any.items| && f in Visited(c.any.items[i]) :: f
    else if c.not.Some? then Visited(c.not.value)
    else if c.field.Some? then {c.field.value} else {}
  }

  /** The fields under variants that it passes over, at whatever node it comes to. */
  ghost function Skipped(c: Condition): set<string>
    decreases c
  {
    var field := if c.field.Some? then {c.field.value} else {};
    var not := if c.not.Some? then FieldsOf(c.not.value) else {};
    if c.all.Group? then
      field + not + FieldsOfGroup(c.any) + set i, f | 0 <= i < |c.all.items| && f in Skipped(c.all.items[i]) :: f
    else if c.any.Group? then
      field + not + set i, f | 0 <= i < |c.any.items| && f in Skipped(c.any.items[i]) :: f
    else if c.not.Some? then field + Skipped(c.not.value)
    else {}
  }

  lemma {:induction false} KnownIsVisited(c: Condition, ids: set<string>)
    ensures Known(c, ids) <==> Visited(c) <= ids
    decreases c
  {
    if c.all.Group? {
      forall i | 0 <= i < |c.all.items| ensures Known(c.all.items[i], ids) <==> Visited(c.all.items[i]) <= ids {
        KnownIsVisited(c.all.items[i], ids);
      }
    } else if c.any.Group? {
      forall i | 0 <= i < |c.any.items| ensures Known(c.any.items[i], ids) <==> Visited(c.any.items[i]) <= ids {
        KnownIsVisited(c.any.items[i], ids);
      }
    } else if c.not.Some? {
      KnownIsVisited(c.not.value, ids);
    }
  }

  ghost function VisitedOfGroup(items: seq<Condition>): set<string> {
    set i, f | 0 <= i < |items| && f in Visited(items[i]) :: f
  }

  ghost function SkippedOfGroup(items: seq<Condition>): set<string> {
    set i, f | 0 <= i < |items| && f in Skipped(items[i]) :: f
  }

  lemma GroupSplits(items: seq<Condition>)
    requires forall i :: 0 <= i < |items| ==> FieldsOf(items[i]) == Visited(items[i]) + Skipped(items[i])
    ensures FieldsOfGroup(Group(items)) == VisitedOfGroup(items) + SkippedOfGroup(items)
  {
    hide FieldsOf, Visited, Skipped;
  }

  /** The three sets of a condition in terms of its variants. */
  lemma Unfolded(c: Condition)
    ensures var field := if c.field.Some? then {c.field.value} else {};
            var not := if c.not.Some? then FieldsOf(c.not.value) else {};
            && FieldsOf(c) == field + FieldsOfGroup(c.all) + FieldsOfGroup(c.any) + not
            && Visited(c) == (if c.all.Group? then VisitedOfGroup(c.all.items) else if c.any.Group? then VisitedOfGroup(c.any.items)
                              else if c.not.Some? then Visited(c.not.value) else field)
            && Skipped(c) == if c.all.Group? then field + not + FieldsOfGroup(c.any) + SkippedOfGroup(c.all.items)
                             else if c.any.Group? then field + not + SkippedOfGroup(c.any.items)
                             else if c.not.Some? then field + Skipped(c.not.value) else {}
    ensures (c.all.Absent? ==> FieldsOfGroup(c.all) == {}) && (c.any.Absent? ==> FieldsOfGroup(c.any) == {})
  {
  }

  lemma {:induction false} FieldsSplit(c: Condition)
    ensures FieldsOf(c) == Visited(c) + Skipped(c)
    decreases c
  {
    hide FieldsOf, Visited, Skipped, FieldsOfGroup, VisitedOfGroup, SkippedOfGroup;
    Unfolded(c);
    if c.all.Group? {
      forall i | 0 <= i < |c.all.items| ensures FieldsOf(c.all.items[i]) == Visited(c.all.items[i]) + Skipped(c.all.items[i]) {
        FieldsSplit(c.all.items[i]);
      }
      GroupSplits(c.all.items);
    } else if c.any.Group? {
      forall i | 0 <= i < |c.any.items| ensures FieldsOf(c.any.items[i]) == Visited(c.any.items[i]) + Skipped(c.any.items[i]) {
        FieldsSplit(c.any.items[i]);
      }
      GroupSplits(c.any.items);
    } else if c.not.Some? {
      FieldsSplit(c.not.value);
    }
  }

  /** The reference check decides every field of a condition, for all sets of known fields,
      if and only if each field under a variant it passes over also stands under one it
      follows. */
  lemma MissesExactly(c: Condition)
    ensures (forall ids :: Known(c, ids) <==> FieldsOf(c) <= ids) <==> Skipped(c) <= Visited(c)
  {
    FieldsSplit(c);
    forall ids ensures Known(c, ids) <==> Visited(c) <= ids {
      KnownIsVisited(c, ids);
    }
    assert Known(c, Visited(c));
  }

  /** At each node it comes to at most one of the four variants is given. */
  ghost predicate OneVariant(c: Condition)
    decreases c
  {
    if c.all.Group? then
      c.any.Absent? && c.not == None && c.field == None && forall i :: 0 <= i < |c.all.items| ==> OneVariant(c.all.items[i])
    else if c.any.Group? then c.not == None && c.field == None && forall i :: 0 <= i < |c.any.items| ==> OneVariant(c.any.items[i])
    else if c.not.Some? then c.field == None && OneVariant(c.not.value)
    else true
  }

  lemma {:induction false} OneVariantSkipsNothing(c: Condition)
    requires OneVariant(c)
    ensures Skipped(c) == {}
    decreases c
  {
    if c.all.Group? {
      forall i | 0 <= i < |c.all.items| ensures Skipped(c.all.items[i]) == {} {
        OneVariantSkipsNothing(c.all.items[i]);
      }
    } else if c.any.Group? {
      forall i | 0 <= i < |c.any.items| ensures Skipped(c.any.items[i]) == {} {
        OneVariantSkipsNothing(c.any.items[i]);
      }
    } else if c.not.Some? {
      OneVariantSkipsNothing(c.not.value);
    }
  }

  /** With one variant at each visited node the reference check misses no field. */
  lemma NoFieldMissed(c: Condition, ids: set<string>)
    requires OneVariant(c)
    ensures Known(c, ids) <==> FieldsOf(c) <= ids
  {
    OneVariantSkipsNothing(c);
    FieldsSplit(c);
    KnownIsVisited(c, ids);
  }

  /** Which is so after the shape check. */
  lemma {:induction false} WellShapedOneVariant(c: Condition, depth: nat, marshal: Encoder)
    requires WellShaped(c, depth, marshal)
    ensures OneVariant(c)
    decreases c
  {
    hide GoodPredicate;
    if c.all.Group? {
      forall i | 0 <= i < |c.all.items| ensures OneVariant(c.all.items[i]) {
        WellShapedOneVariant(c.all.items[i], depth + 1, marshal);
      }
    } else if c.any.Group? {
      forall i | 0 <= i < |c.any.items| ensures OneVariant(c.any.items[i]) {
        WellShapedOneVariant(c.any.items[i], depth + 1, marshal);
      }
    } else if c.not.Some? {
      WellShapedOneVariant(c.not.value, depth + 1, marshal);
    }
  }

  /** A condition whose field is missed: an empty `all` beside a predicate on "x". */
  lemma FieldMissed()
    ensures var c := Condition(Some("x"), None, None, Group([]), Absent, None);
            Known(c, {}) && "x" in FieldsOf(c) && !(Skipped(c) <= Visited(c))
  {
    var c := Condition(Some("x"), None, None, Group([]), Absent, None);
    assert "x" in Skipped(c) && "x" !in Visited(c);
  }
}
