/** What ValidateCapability of admin/presentation/validation.go checks before the default
    presentation: page key, version and hash, and everything a capability registers. */
module CapabilityIdentity {
  import opened Text
  import opened Findings
  import opened Issues
  import opened Patterns
  import opened PresentationModel
  import opened PatternScanner

  const MAX_SAFE_INTEGER := 0x1F_FFFF_FFFF_FFFF

  // ----- page key, version and hash

  function BeforeDot(s: string): string {
    if s == "" || s[0] == '.' then "" else [s[0]] + BeforeDot(s[1..])
  }

  const PROTECTED := ["account", "auth", "authentication", "authorization", "app-config", "application-config", "config",
                      "configuration", "login", "presentation", "presentation-config", "recovery", "release", "system"]

  /** IsProtectedPageKey */
  predicate IsProtected(pageKey: string) {
    BeforeDot(pageKey) in PROTECTED
  }

  predicate Supported(version: string) {
    version == VERSION_1 || version == VERSION_2
  }

  function VersionIssues(version: string, rules: Rules): multiset<Issue> {
    if rules.blank(version) then When(true, VersionMissing, "definitionVersion")
    else When(!Supported(version), VersionUnsupported, "definitionVersion")
  }

  function HashIssues(c: Capability, rules: Rules): multiset<Issue> {
    if !MatchesHash(c.definitionHash) then When(true, HashInvalid, "definitionHash")
    else if !Supported(c.definitionVersion) then multiset{}
    else
      match rules.hash(c)
      case HashError(error) => When(true, HashComputation(error), "definitionHash")
      case Hash(value) => When(value != c.definitionHash, HashMismatch, "definitionHash")
  }

  function KeyIssues(c: Capability, rules: Rules): multiset<Issue> {
    When(!IsIdentifier(c.pageKey), IdentifierInvalid, "pageKey") + When(IsProtected(c.pageKey), ProtectedPage, "pageKey")
    + VersionIssues(c.definitionVersion, rules) + HashIssues(c, rules)
  }

  method ValidateVersion(version: string, rules: Rules, log: IssueLog)
    modifies log
    ensures log.Bag() == old(log.Bag()) + VersionIssues(version, rules)
  {
    hide At, When, IssueLog.Bag, Supported;
    if rules.blank(version) {
      log.Check(true, VersionMissing, "definitionVersion");
    } else {
      log.Check(!Supported(version), VersionUnsupported, "definitionVersion");
    }
  }

  method ValidateHash(c: Capability, rules: Rules, log: IssueLog)
    modifies log
    ensures log.Bag() == old(log.Bag()) + HashIssues(c, rules)
  {
    hide At, When, IssueLog.Bag, Supported, MatchesHash;
    if !MatchesHash(c.definitionHash) {
      log.Check(true, HashInvalid, "definitionHash");
    } else if Supported(c.definitionVersion) {
      match rules.hash(c)
      case HashError(error) => log.Check(true, HashComputation(error), "definitionHash");
      case Hash(value) => log.Check(value != c.definitionHash, HashMismatch, "definitionHash");
    }
  }

  method ValidateKey(c: Capability, rules: Rules, log: IssueLog)
    modifies log
    ensures log.Bag() == old(log.Bag()) + KeyIssues(c, rules)
  {
    hide At, When, IssueLog.Bag, IsIdentifier, IsProtected, VersionIssues, HashIssues;
    log.Check(!IsIdentifier(c.pageKey), IdentifierInvalid, "pageKey");
    log.Check(IsProtected(c.pageKey), ProtectedPage, "pageKey");
    ValidateVersion(c.definitionVersion, rules, log);
    ValidateHash(c, rules, log);
  }

  // ----- lists of names

  /** The issues of the i-th of a list of names: being bad, and being repeated. */
  function NamePart(list: seq<string>, bad: string -> bool, badProblem: Problem, repeated: Problem, path: string): Part<nat> {
    (i: nat) =>
      if i >= |list| then multiset{}
      else When(bad(list[i]), badProblem, ItemPath(path, i)) + When(list[i] in NamesBefore(list, i), repeated, ItemPath(path, i))
  }

  function NameIssues(list: seq<string>, bad: string -> bool, badProblem: Problem, repeated: Problem, path: string): multiset<Issue> {
    Upto(|list|, NamePart(list, bad, badProblem, repeated, path))
  }

  /** The loop with a `seen` map that the validator runs over ids, surfaces, components,
      permissions and placements. */
  method ValidateNames(list: seq<string>, bad: string -> bool, badProblem: Problem, repeated: Problem, path: string, log: IssueLog)
    modifies log
    ensures log.Bag() == old(log.Bag()) + NameIssues(list, bad, badProblem, repeated, path)
  {
    hide At, When, IssueLog.Bag, ItemPath, NamesBefore, Upto;
    ghost var part := NamePart(list, bad, badProblem, repeated, path);
    UptoNext(0, part);
    ghost var before := log.Bag();
    var seen: set<string> := {};
    NamesFirst(list);
    for index := 0 to |list|
      invariant seen == NamesBefore(list, index)
      invariant log.Bag() == before + Upto(index, part)
    {
      UptoNext(index, part);
      log.Check(bad(list[index]), badProblem, ItemPath(path, index));
      log.Check(list[index] in seen, repeated, ItemPath(path, index));
      NamesNext(list, index);
      seen := seen + {list[index]};
    }
  }

  predicate BadId(id: string) {
    !IsIdentifier(id)
  }

  predicate BadFieldId(id: string) {
    !(1 <= |id| <= 120 && MatchesField(id))
  }

  predicate BadFieldIdVersion1(id: string) {
    !(2 <= |id| <= 120 && (MatchesIdentifier(id) || MatchesField(id)))
  }

  predicate BadSurface(surface: string) {
    !ValidSurface(surface)
  }

  predicate BadPlacement(placement: string) {
    !ValidPlacement(placement)
  }

  function NotIn(known: set<string>): string -> bool {
    name => name !in known
  }

  function BadPermission(rules: Rules): string -> bool {
    name => rules.blank(name) || |Utf8(name)| > 255
  }

  function FieldIds(fields: seq<CapabilityField>): seq<string> {
    seq(|fields|, i requires 0 <= i < |fields| => fields[i].id)
  }

  function SourceIds(sources: seq<DataSource>): seq<string> {
    seq(|sources|, i requires 0 <= i < |sources| => sources[i].id)
  }

  function ActionIds(actions: seq<CapabilityAction>): seq<string> {
    seq(|actions|, i requires 0 <= i < |actions| => actions[i].id)
  }

  function IdIssues(c: Capability): multiset<Issue> {
    NameIssues(c.components, BadId, IdInvalid, IdRepeated, "components")
    + (if IsStrict(c) then NameIssues(FieldIds(c.fields), BadFieldId, FieldIdInvalid, IdRepeated, "fields")
       else NameIssues(FieldIds(c.fields), BadFieldIdVersion1, FieldIdInvalidVersion1, IdRepeated, "fields"))
    + NameIssues(SourceIds(c.dataSources), BadId, IdInvalid, IdRepeated, "dataSources")
    + NameIssues(ActionIds(c.actions), BadId, IdInvalid, IdRepeated, "actions")
  }

  method ValidateIds(c: Capability, log: IssueLog)
    modifies log
    ensures log.Bag() == old(log.Bag()) + IdIssues(c)
  {
    hide At, When, IssueLog.Bag, NameIssues, FieldIds, SourceIds, ActionIds;
    ValidateNames(c.components, BadId, IdInvalid, IdRepeated, "components", log);
    if IsStrict(c) {
      ValidateNames(FieldIds(c.fields), BadFieldId, FieldIdInvalid, IdRepeated, "fields", log);
    } else {
      ValidateNames(FieldIds(c.fields), BadFieldIdVersion1, FieldIdInvalidVersion1, IdRepeated, "fields", log);
    }
    ValidateNames(SourceIds(c.dataSources), BadId, IdInvalid, IdRepeated, "dataSources", log);
    ValidateNames(ActionIds(c.actions), BadId, IdInvalid, IdRepeated, "actions", log);
  }

  // ----- one field

  predicate AllowedValueType(t: string) {
    t in ["string", "integer", "number", "boolean", "enum", "date", "date-time", "json"]
  }

  predicate AllowedFormat(f: string) {
    f in ["plain", "email", "identifier", "date", "date-time"]
  }

  predicate BadLength(length: Option<int>, strict: bool) {
    length.Some? && (length.value < 0 || (strict && length.value > MAX_SAFE_INTEGER))
  }

  predicate Exceeds(low: Option<int>, high: Option<int>) {
    low.Some? && high.Some? && low.value > high.value
  }

  predicate DoesNotCompile(pattern: string, rules: Rules) {
    pattern != "" && !rules.compiles(pattern)
  }

  ghost predicate IsNotPortable(pattern: string, strict: bool) {
    pattern != "" && strict && !Portable(pattern)
  }

  predicate BadFormat(format: string, strict: bool) {
    !AllowedFormat(format) && (strict || format != "")
  }

  method CheckPortable(pattern: string, strict: bool) returns (fails: bool)
    ensures fails <==> IsNotPortable(pattern, strict)
  {
    if pattern == "" || !strict {
      return false;
    }
    var portable := IsPortableCapabilityPattern(pattern);
    fails := !portable;
  }

  ghost function PatternIssues(f: CapabilityField, path: string, strict: bool, rules: Rules): multiset<Issue> {
    When(DoesNotCompile(f.validation.pattern, rules), PatternInvalid, path)
    + When(IsNotPortable(f.validation.pattern, strict), PatternNotPortable, path)
    + When(BadFormat(f.format, strict), Findings.Format, path)
  }

  ghost function FactIssues(f: CapabilityField, path: string, strict: bool, rules: Rules): multiset<Issue> {
    var v := f.validation;
    TextIssues(Some(f.labelText), MemberPath(path, "label"))
    + When(!AllowedValueType(f.valueType), ValueType, path)
    + When(f.required && f.nullable, Nullability, path)
    + When(BadLength(v.minLength, strict), MinLength, path)
    + When(BadLength(v.maxLength, strict), MaxLength, path)
    + When(Exceeds(v.minLength, v.maxLength), LengthRange, path)
    + PatternIssues(f, path, strict, rules)
  }

  method ValidatePattern(f: CapabilityField, path: string, strict: bool, rules: Rules, log: IssueLog)
    modifies log
    ensures log.Bag() == old(log.Bag()) + PatternIssues(f, path, strict, rules)
  {
    hide At, When, IssueLog.Bag, DoesNotCompile, IsNotPortable, BadFormat;
    log.Check(DoesNotCompile(f.validation.pattern, rules), PatternInvalid, path);
    var unportable := CheckPortable(f.validation.pattern, strict);
    log.Check(unportable, PatternNotPortable, path);
    log.Check(BadFormat(f.format, strict), Findings.Format, path);
  }

  method ValidateFacts(f: CapabilityField, path: string, strict: bool, rules: Rules, log: IssueLog)
    modifies log
    ensures log.Bag() == old(log.Bag()) + FactIssues(f, path, strict, rules)
  {
    hide At, When, IssueLog.Bag, MemberPath, TextIssues, AllowedValueType, BadLength, Exceeds, PatternIssues;
    var v := f.validation;
    ValidateLocalizedText(Some(f.labelText), MemberPath(path, "label"), log);
    log.Check(!AllowedValueType(f.valueType), ValueType, path);
    log.Check(f.required && f.nullable, Nullability, path);
    log.Check(BadLength(v.minLength, strict), MinLength, path);
    log.Check(BadLength(v.maxLength, strict), MaxLength, path);
    log.Check(Exceeds(v.minLength, v.maxLength), LengthRange, path);
    ValidatePattern(f, path, strict, rules, log);
  }

  function Bound(value: Option<string>, rules: Rules): Option<real> {
    if value == None then None else rules.parseBound(value.value)
  }

  predicate BadBound(value: Option<string>, rules: Rules) {
    value.Some? && rules.parseBound(value.value) == None
  }

  predicate BoundsCross(v: FieldValidation, rules: Rules) {
    Bound(v.minimum, rules).Some? && Bound(v.maximum, rules).Some? && Bound(v.minimum, rules).value > Bound(v.maximum, rules).value
  }

  function NumericIssues(v: FieldValidation, path: string, rules: Rules): multiset<Issue> {
    When(BadBound(v.minimum, rules), NumberBound("minimum"), path)
    + When(BadBound(v.maximum, rules), NumberBound("maximum"), path)
    + When(BoundsCross(v, rules), NumberRange, path)
    + When(OutOf(v.precision, 1, 38), Findings.Precision, path)
    + When(OutOf(v.scale, 0, 38), Findings.Scale, path)
    + When(Exceeds(v.scale, v.precision), ScaleBeyondPrecision, path)
  }

  /** validateCapabilityNumericFacts */
  method ValidateNumericFacts(v: FieldValidation, path: string, rules: Rules, log: IssueLog)
    modifies log
    ensures log.Bag() == old(log.Bag()) + NumericIssues(v, path, rules)
  {
    hide At, When, IssueLog.Bag, BadBound, BoundsCross, OutOf, Exceeds;
    log.Check(BadBound(v.minimum, rules), NumberBound("minimum"), path);
    log.Check(BadBound(v.maximum, rules), NumberBound("maximum"), path);
    log.Check(BoundsCross(v, rules), NumberRange, path);
    log.Check(OutOf(v.precision, 1, 38), Findings.Precision, path);
    log.Check(OutOf(v.scale, 0, 38), Findings.Scale, path);
    log.Check(Exceeds(v.scale, v.precision), ScaleBeyondPrecision, path);
  }

  function EnumNames(values: seq<EnumValue>): (names: seq<string>)
    ensures |names| == |values| && forall i :: 0 <= i < |values| ==> names[i] == values[i].value
  {
    seq(|values|, i requires 0 <= i < |values| => values[i].value)
  }

  ghost function EnumValueIssues(value: EnumValue, repeated: bool, path: string): multiset<Issue> {
    When(!IsEnumValue(value.value), Findings.EnumValue, path) + TextIssues(Some(value.labelText), MemberPath(path, "label"))
    + When(repeated, EnumValueRepeated, path)
  }

  predicate EnumRepeats(values: seq<EnumValue>, i: nat)
    requires i < |values|
  {
    EnumNames(values)[i] in NamesBefore(EnumNames(values), i)
  }

  ghost function EnumPart(values: seq<EnumValue>, path: string): Part<nat> {
    (i: nat) => if i >= |values| then multiset{} else EnumValueIssues(values[i], EnumRepeats(values, i), ItemPath(path, i))
  }

  predicate NeedsEnumValues(f: CapabilityField, strict: bool) {
    strict && f.valueType == "enum" && f.enumValues == []
  }

  predicate TakesNoEnumValues(f: CapabilityField) {
    f.valueType != "enum" && f.enumValues != []
  }

  ghost function EnumIssues(f: CapabilityField, path: string, strict: bool): multiset<Issue> {
    Upto(|f.enumValues|, EnumPart(f.enumValues, MemberPath(path, "enumValues")))
    + When(NeedsEnumValues(f, strict), EnumValuesMissing, path)
    + When(TakesNoEnumValues(f), EnumValuesUnexpected, path)
  }

  method ValidateEnumValue(value: EnumValue, repeated: bool, path: string, log: IssueLog)
    modifies log
    ensures log.Bag() == old(log.Bag()) + EnumValueIssues(value, repeated, path)
  {
    hide At, When, IssueLog.Bag, MemberPath, IsEnumValue, TextIssues;
    log.Check(!IsEnumValue(value.value), Findings.EnumValue, path);
    ValidateLocalizedText(Some(value.labelText), MemberPath(path, "label"), log);
    log.Check(repeated, EnumValueRepeated, path);
  }

  method ValidateEnumValues(f: CapabilityField, path: string, strict: bool, log: IssueLog)
    modifies log
    ensures log.Bag() == old(log.Bag()) + EnumIssues(f, path, strict)
  {
    hide At, When, IssueLog.Bag, ItemPath, MemberPath, NamesBefore, Upto, EnumValueIssues, NeedsEnumValues, TakesNoEnumValues;
    var values, inner := f.enumValues, MemberPath(path, "enumValues");
    ghost var part := EnumPart(values, inner);
    UptoNext(0, part);
    ghost var before := log.Bag();
    var seen: set<string> := {};
    NamesFirst(EnumNames(values));
    for index := 0 to |values|
      invariant seen == NamesBefore(EnumNames(values), index)
      invariant log.Bag() == before + Upto(index, part)
    {
      UptoNext(index, part);
      ValidateEnumValue(values[index], values[index].value in seen, ItemPath(inner, index), log);
      NamesNext(EnumNames(values), index);
      seen := seen + {values[index].value};
    }
    log.Check(NeedsEnumValues(f, strict), EnumValuesMissing, path);
    log.Check(TakesNoEnumValues(f), EnumValuesUnexpected, path);
  }

  function InventoryIssues(f: CapabilityField, path: string, componentIds: set<string>): multiset<Issue> {
    When(f.surfaces == [], SurfacesMissing, path)
    + NameIssues(f.surfaces, BadSurface, SurfaceInvalid, SurfaceRepeated, MemberPath(path, "surfaces"))
    + When(f.components == [], ComponentsMissing, path)
    + NameIssues(f.components, NotIn(componentIds), ComponentUnknown, ComponentRepeated, MemberPath(path, "components"))
  }

  method ValidateInventory(f: CapabilityField, path: string, componentIds: set<string>, log: IssueLog)
    modifies log
    ensures log.Bag() == old(log.Bag()) + InventoryIssues(f, path, componentIds)
  {
    hide At, When, IssueLog.Bag, MemberPath, NameIssues;
    log.Check(f.surfaces == [], SurfacesMissing, path);
    ValidateNames(f.surfaces, BadSurface, SurfaceInvalid, SurfaceRepeated, MemberPath(path, "surfaces"), log);
    log.Check(f.components == [], ComponentsMissing, path);
    ValidateNames(f.components, NotIn(componentIds), ComponentUnknown, ComponentRepeated, MemberPath(path, "components"), log);
  }

  // ----- the component choices of a field

  function MappingSurfaces(mappings: seq<SurfaceComponents>): (names: seq<string>)
    ensures |names| == |mappings| && forall i :: 0 <= i < |mappings| ==> names[i] == mappings[i].surface
  {
    seq(|mappings|, i requires 0 <= i < |mappings| => mappings[i].surface)
  }

  /** The components of the first n mappings. */
  function Used(mappings: seq<SurfaceComponents>, n: nat): set<string>
    requires n <= |mappings|
  {
    if n == 0 then {} else Used(mappings, n - 1) + Names(mappings[n - 1].components)
  }

  function ChoicePart(components: seq<string>, declared: set<string>, componentIds: set<string>, path: string): Part<nat> {
    (i: nat) =>
      if i >= |components| then multiset{}
      else
        When(components[i] !in componentIds, MappingComponentUnknown, ItemPath(path, i))
        + When(components[i] !in declared, MappingComponentUndeclared, ItemPath(path, i))
        + When(components[i] in NamesBefore(components, i), MappingComponentRepeated, ItemPath(path, i))
  }

  function ChoiceIssues(components: seq<string>, declared: set<string>, componentIds: set<string>, path: string): multiset<Issue> {
    Upto(|components|, ChoicePart(components, declared, componentIds, path))
  }

  method ValidateChoices(components: seq<string>, declared: set<string>, componentIds: set<string>, path: string, log: IssueLog)
      returns (used: set<string>)
    modifies log
    ensures log.Bag() == old(log.Bag()) + ChoiceIssues(components, declared, componentIds, path)
    ensures used == Names(components)
  {
    hide At, When, IssueLog.Bag, ItemPath, NamesBefore, Upto;
    ghost var part := ChoicePart(components, declared, componentIds, path);
    UptoNext(0, part);
    ghost var before := log.Bag();
    used := {};
    NamesFirst(components);
    for index := 0 to |components|
      invariant used == NamesBefore(components, index)
      invariant log.Bag() == before + Upto(index, part)
    {
      UptoNext(index, part);
      log.Check(components[index] !in componentIds, MappingComponentUnknown, ItemPath(path, index));
      log.Check(components[index] !in declared, MappingComponentUndeclared, ItemPath(path, index));
      log.Check(components[index] in used, MappingComponentRepeated, ItemPath(path, index));
      NamesNext(components, index);
      used := used + {components[index]};
    }
  }

  function MappingIssues(m: SurfaceComponents, repeated: bool, f: CapabilityField, componentIds: set<string>, path: string): multiset<Issue> {
    When(!ValidSurface(m.surface), MappingSurfaceInvalid, path)
    + When(m.surface !in Names(f.surfaces), MappingSurfaceUndeclared, path)
    + When(repeated, MappingSurfaceRepeated, path)
    + When(m.components == [], MappingEmpty, path)
    + ChoiceIssues(m.components, Names(f.components), componentIds, MemberPath(path, "components"))
  }

  method ValidateMapping(m: SurfaceComponents, repeated: bool, f: CapabilityField, componentIds: set<string>, path: string, log: IssueLog)
      returns (used: set<string>)
    modifies log
    ensures log.Bag() == old(log.Bag()) + MappingIssues(m, repeated, f, componentIds, path)
    ensures used == Names(m.components)
  {
    hide At, When, IssueLog.Bag, MemberPath, ValidSurface, Names, ChoiceIssues;
    log.Check(!ValidSurface(m.surface), MappingSurfaceInvalid, path);
    log.Check(m.surface !in Names(f.surfaces), MappingSurfaceUndeclared, path);
    log.Check(repeated, MappingSurfaceRepeated, path);
    log.Check(m.components == [], MappingEmpty, path);
    used := ValidateChoices(m.components, Names(f.components), componentIds, MemberPath(path, "components"), log);
  }

  predicate MappingRepeats(mappings: seq<SurfaceComponents>, i: nat)
    requires i < |mappings|
  {
    MappingSurfaces(mappings)[i] in NamesBefore(MappingSurfaces(mappings), i)
  }

  function MappingPart(f: CapabilityField, componentIds: set<string>, path: string): Part<nat> {
    (i: nat) =>
      if i >= |f.surfaceComponents| then multiset{}
      else MappingIssues(f.surfaceComponents[i], MappingRepeats(f.surfaceComponents, i), f, componentIds, ItemPath(path, i))
  }

  function UnmappedPart(mapped: set<string>, path: string): Part<string> {
    surface => When(surface !in mapped, SurfaceUnmapped(surface), path)
  }

  function UnusedPart(used: set<string>, path: string): Part<string> {
    component => When(component !in used, ComponentUnused(component), path)
  }

  ghost function MappingsIssues(f: CapabilityField, componentIds: set<string>, path: string): multiset<Issue> {
    var mappings := f.surfaceComponents;
    if mappings == [] then When(true, MappingsMissing, path)
    else
      Upto(|mappings|, MappingPart(f, componentIds, path))
      + Over(Names(f.surfaces), UnmappedPart(Names(MappingSurfaces(mappings)), path))
      + Over(Names(f.components), UnusedPart(Used(mappings, |mappings|), path))
  }

  /** The loops over the declared surfaces and components, which are maps: their elements
      come in any order. */
  method ValidateCovered(names: set<string>, covered: set<string>, surfaces: bool, path: string, log: IssueLog)
    modifies log
    ensures log.Bag() == old(log.Bag()) + Over(names, if surfaces then UnmappedPart(covered, path) else UnusedPart(covered, path))
  {
    hide At, When, IssueLog.Bag;
    ghost var part := if surfaces then UnmappedPart(covered, path) else UnusedPart(covered, path);
    ghost var before := log.Bag();
    var rest := names;
    while rest != {}
      invariant log.Bag() + Over(rest, part) == before + Over(names, part)
      decreases rest
    {
      var name :| name in rest;
      AnyFirst(rest, part, name);
      log.Check(name !in covered, if surfaces then SurfaceUnmapped(name) else ComponentUnused(name), path);
      rest := rest - {name};
    }
    assert Over(rest, part) == multiset{};
    assert log.Bag() == before + Over(names, part);
  }

  /** validateSurfaceComponents */
  method ValidateSurfaceComponents(f: CapabilityField, componentIds: set<string>, path: string, log: IssueLog)
    modifies log
    ensures log.Bag() == old(log.Bag()) + MappingsIssues(f, componentIds, path)
  {
    hide At, When, IssueLog.Bag, ItemPath, NamesBefore, Upto, MappingIssues, UnmappedPart, UnusedPart, Over;
    var mappings := f.surfaceComponents;
    if mappings == [] {
      log.Check(true, MappingsMissing, path);
      return;
    }
    ghost var part := MappingPart(f, componentIds, path);
    UptoNext(0, part);
    ghost var before := log.Bag();
    var seen: set<string>, used: set<string> := {}, {};
    NamesFirst(MappingSurfaces(mappings));
    for index := 0 to |mappings|
      invariant seen == NamesBefore(MappingSurfaces(mappings), index) && used == Used(mappings, index)
      invariant log.Bag() == before + Upto(index, part)
    {
      UptoNext(index, part);
      var more := ValidateMapping(mappings[index], mappings[index].surface in seen, f, componentIds, ItemPath(path, index), log);
      NamesNext(MappingSurfaces(mappings), index);
      seen, used := seen + {mappings[index].surface}, used + more;
    }
    ValidateCovered(Names(f.surfaces), seen, true, path, log);
    ValidateCovered(Names(f.components), used, false, path, log);
  }

  ghost function FieldIssues(f: CapabilityField, path: string, strict: bool, componentIds: set<string>, rules: Rules): multiset<Issue> {
    FactIssues(f, path, strict, rules) + NumericIssues(f.validation, path, rules) + EnumIssues(f, path, strict)
    + InventoryIssues(f, path, componentIds)
    + if strict then MappingsIssues(f, componentIds, MemberPath(path, "surfaceComponents")) else multiset{}
  }

  method ValidateField(f: CapabilityField, path: string, strict: bool, componentIds: set<string>, rules: Rules, log: IssueLog)
    modifies log
    ensures log.Bag() == old(log.Bag()) + FieldIssues(f, path, strict, componentIds, rules)
  {
    hide At, IssueLog.Bag, FactIssues, NumericIssues, EnumIssues, InventoryIssues, MappingsIssues, MemberPath;
    ValidateFacts(f, path, strict, rules, log);
    ValidateNumericFacts(f.validation, path, rules, log);
    ValidateEnumValues(f, path, strict, log);
    ValidateInventory(f, path, componentIds, log);
    if strict {
      ValidateSurfaceComponents(f, componentIds, MemberPath(path, "surfaceComponents"), log);
    }
  }

  // ----- data sources and actions

  function PermissionIssues(permissions: seq<string>, path: string, rules: Rules): multiset<Issue> {
    When(permissions == [], PermissionsMissing, path) + NameIssues(permissions, BadPermission(rules), PermissionInvalid, PermissionRepeated, path)
  }

  method ValidatePermissions(permissions: seq<string>, path: string, rules: Rules, log: IssueLog)
    modifies log
    ensures log.Bag() == old(log.Bag()) + PermissionIssues(permissions, path, rules)
  {
    hide At, When, IssueLog.Bag, NameIssues;
    log.Check(permissions == [], PermissionsMissing, path);
    ValidateNames(permissions, BadPermission(rules), PermissionInvalid, PermissionRepeated, path, log);
  }

  function OptionsBefore(options: seq<int>, i: nat): set<int>
    requires i <= |options|
  {
    set j | 0 <= j < i :: options[j]
  }

  lemma OptionsNext(options: seq<int>, i: nat)
    requires i < |options|
    ensures OptionsBefore(options, 0) == {} && OptionsBefore(options, i + 1) == OptionsBefore(options, i) + {options[i]}
  {
  }

  function OptionIssues(option: int, maximum: int, repeated: bool, unsorted: bool, path: string): multiset<Issue> {
    When(option < 1 || option > maximum, SourceOptionInvalid, path) + When(repeated, SourceOptionRepeated, path)
    + When(unsorted, SourceOptionUnsorted, path)
  }

  function OptionPart(options: seq<int>, maximum: int, path: string): Part<nat> {
    (i: nat) =>
      if i >= |options| then multiset{}
      else OptionIssues(options[i], maximum, options[i] in OptionsBefore(options, i), i > 0 && options[i] <= options[i - 1], ItemPath(path, i))
  }

  method ValidateOption(option: int, maximum: int, repeated: bool, unsorted: bool, path: string, log: IssueLog)
    modifies log
    ensures log.Bag() == old(log.Bag()) + OptionIssues(option, maximum, repeated, unsorted, path)
  {
    hide At, When, IssueLog.Bag;
    log.Check(option < 1 || option > maximum, SourceOptionInvalid, path);
    log.Check(repeated, SourceOptionRepeated, path);
    log.Check(unsorted, SourceOptionUnsorted, path);
  }

  method ValidateOptions(options: seq<int>, maximum: int, path: string, log: IssueLog)
    modifies log
    ensures log.Bag() == old(log.Bag()) + Upto(|options|, OptionPart(options, maximum, path))
  {
    hide At, When, IssueLog.Bag, ItemPath, OptionsBefore, OptionIssues, Upto;
    ghost var part := OptionPart(options, maximum, path);
    UptoNext(0, part);
    if options == [] {
      return;
    }
    OptionsNext(options, 0);
    ghost var before := log.Bag();
    var previous := 0;
    var seen: set<int> := {};
    for index := 0 to |options|
      invariant seen == OptionsBefore(options, index)
      invariant index > 0 ==> previous == options[index - 1]
      invariant log.Bag() == before + Upto(index, part)
    {
      UptoNext(index, part);
      OptionsNext(options, index);
      ValidateOption(options[index], maximum, options[index] in seen, index > 0 && options[index] <= previous, ItemPath(path, index), log);
      seen, previous := seen + {options[index]}, options[index];
    }
  }

  function LimitIssues(d: DataSource, path: string): multiset<Issue> {
    When(d.maxPageSize < 1 || d.maxPageSize > 200, SourcePageSize, path)
    + When(d.pageSizeOptions == [], SourceOptionsMissing, path)
    + Upto(|d.pageSizeOptions|, OptionPart(d.pageSizeOptions, d.maxPageSize, MemberPath(path, "pageSizeOptions")))
    + When(d.maxSortFields < 0 || d.maxSortFields > 3, SourceSortFields, path)
  }

  method ValidateDataSourceLimits(d: DataSource, path: string, log: IssueLog)
    modifies log
    ensures log.Bag() == old(log.Bag()) + LimitIssues(d, path)
  {
    hide At, When, IssueLog.Bag, MemberPath, OptionPart, Upto;
    log.Check(d.maxPageSize < 1 || d.maxPageSize > 200, SourcePageSize, path);
    log.Check(d.pageSizeOptions == [], SourceOptionsMissing, path);
    ValidateOptions(d.pageSizeOptions, d.maxPageSize, MemberPath(path, "pageSizeOptions"), log);
    log.Check(d.maxSortFields < 0 || d.maxSortFields > 3, SourceSortFields, path);
  }

  function SourceIssues(d: DataSource, path: string, strict: bool, rules: Rules): multiset<Issue> {
    PermissionIssues(d.requiredPermissions, MemberPath(path, "requiredPermissions"), rules)
    + if strict then LimitIssues(d, path) else multiset{}
  }

  method ValidateSource(d: DataSource, path: string, strict: bool, rules: Rules, log: IssueLog)
    modifies log
    ensures log.Bag() == old(log.Bag()) + SourceIssues(d, path, strict, rules)
  {
    hide At, When, IssueLog.Bag, MemberPath, PermissionIssues, LimitIssues;
    ValidatePermissions(d.requiredPermissions, MemberPath(path, "requiredPermissions"), rules, log);
    if strict {
      ValidateDataSourceLimits(d, path, log);
    }
  }

  function ActionIssues(a: CapabilityAction, path: string, rules: Rules): multiset<Issue> {
    PermissionIssues(a.requiredPermissions, MemberPath(path, "requiredPermissions"), rules)
    + When(a.placements == [], PlacementsMissing, path)
    + NameIssues(a.placements, BadPlacement, PlacementInvalid, PlacementRepeated, MemberPath(path, "placements"))
  }

  method ValidateAction(a: CapabilityAction, path: string, rules: Rules, log: IssueLog)
    modifies log
    ensures log.Bag() == old(log.Bag()) + ActionIssues(a, path, rules)
  {
    hide At, When, IssueLog.Bag, MemberPath, PermissionIssues, NameIssues;
    ValidatePermissions(a.requiredPermissions, MemberPath(path, "requiredPermissions"), rules, log);
    log.Check(a.placements == [], PlacementsMissing, path);
    ValidateNames(a.placements, BadPlacement, PlacementInvalid, PlacementRepeated, MemberPath(path, "placements"), log);
  }

  // ----- everything a capability registers

  predicate IsStrict(c: Capability) {
    c.definitionVersion == VERSION_2
  }

  ghost function FieldPart(c: Capability, rules: Rules): Part<nat> {
    (i: nat) =>
      if i >= |c.fields| then multiset{} else FieldIssues(c.fields[i], ItemPath("fields", i), IsStrict(c), Names(c.components), rules)
  }

  function SourcePart(c: Capability, rules: Rules): Part<nat> {
    (i: nat) => if i >= |c.dataSources| then multiset{} else SourceIssues(c.dataSources[i], ItemPath("dataSources", i), IsStrict(c), rules)
  }

  function ActionPart(c: Capability, rules: Rules): Part<nat> {
    (i: nat) => if i >= |c.actions| then multiset{} else ActionIssues(c.actions[i], ItemPath("actions", i), rules)
  }

  ghost function RegisteredIssues(c: Capability, rules: Rules): multiset<Issue> {
    IdIssues(c) + Upto(|c.fields|, FieldPart(c, rules)) + Upto(|c.dataSources|, SourcePart(c, rules)) + Upto(|c.actions|, ActionPart(c, rules))
  }

  /** validateCapabilityIDs */
  method ValidateCapabilityIDs(c: Capability, rules: Rules, log: IssueLog)
    modifies log
    ensures log.Bag() == old(log.Bag()) + RegisteredIssues(c, rules)
  {
    hide At, IssueLog.Bag, ItemPath, IdIssues, FieldIssues, SourceIssues, ActionIssues, Upto, Names;
    ValidateIds(c, log);
    ghost var ids := log.Bag();
    UptoNext(0, FieldPart(c, rules));
    for i := 0 to |c.fields|
      invariant log.Bag() == ids + Upto(i, FieldPart(c, rules))
    {
      UptoNext(i, FieldPart(c, rules));
      ValidateField(c.fields[i], ItemPath("fields", i), IsStrict(c), Names(c.components), rules, log);
    }
    ghost var fields := log.Bag();
    UptoNext(0, SourcePart(c, rules));
    for i := 0 to |c.dataSources|
      invariant log.Bag() == fields + Upto(i, SourcePart(c, rules))
    {
      UptoNext(i, SourcePart(c, rules));
      ValidateSource(c.dataSources[i], ItemPath("dataSources", i), IsStrict(c), rules, log);
    }
    ghost var sources := log.Bag();
    UptoNext(0, ActionPart(c, rules));
    for i := 0 to |c.actions|
      invariant log.Bag() == sources + Upto(i, ActionPart(c, rules))
    {
      UptoNext(i, ActionPart(c, rules));
      ValidateAction(c.actions[i], ItemPath("actions", i), rules, log);
    }
  }
}
