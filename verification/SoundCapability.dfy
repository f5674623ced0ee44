/** The capabilities in whose key, ids and registered facts ValidateCapability of
    admin/presentation/validation.go finds nothing wrong, and what they offer the lookups. */
module SoundCapability {
  import opened Text
  import opened Findings
  import opened Issues
  import opened Patterns
  import opened PatternScanner
  import opened PresentationModel
  import opened CapabilityIdentity

  // ----- page key, version and hash

  ghost predicate GoodKey(c: Capability, rules: Rules) {
    && IsIdentifier(c.pageKey) && !IsProtected(c.pageKey)
    && !rules.blank(c.definitionVersion) && Supported(c.definitionVersion)
    && MatchesHash(c.definitionHash) && rules.hash(c) == Hash(c.definitionHash)
  }

  lemma KeyClean(c: Capability, rules: Rules)
    ensures |KeyIssues(c, rules)| == 0 <==> GoodKey(c, rules)
  {
    hide At, When, IsIdentifier, IsProtected, Supported, MatchesHash;
    WhenCount(!IsIdentifier(c.pageKey), IdentifierInvalid, "pageKey");
    WhenCount(IsProtected(c.pageKey), ProtectedPage, "pageKey");
    WhenCount(true, VersionMissing, "definitionVersion");
    WhenCount(!Supported(c.definitionVersion), VersionUnsupported, "definitionVersion");
    WhenCount(true, HashInvalid, "definitionHash");
    match rules.hash(c)
    case HashError(error) => WhenCount(true, HashComputation(error), "definitionHash");
    case Hash(value) => WhenCount(value != c.definitionHash, HashMismatch, "definitionHash");
  }

  /** A page key is protected exactly when it is one of the names or continues one after a dot. */
  lemma ProtectedExactly(pageKey: string)
    ensures IsProtected(pageKey)
       <==> exists name :: name in PROTECTED && (pageKey == name || (|name| < |pageKey| && pageKey[..|name| + 1] == name + "."))
  {
    hide BeforeDot, PROTECTED;
    var first := BeforeDot(pageKey);
    BeforeDotSplits(pageKey, first);
    NoDots();
    forall name | name in PROTECTED && (pageKey == name || (|name| < |pageKey| && pageKey[..|name| + 1] == name + ".")) ensures name == first {
      BeforeDotSplits(pageKey, name);
    }
  }

  lemma NoDots()
    ensures forall name :: name in PROTECTED ==> '.' !in name
  {
  }

  lemma {:induction false} BeforeDotSplits(s: string, name: string)
    ensures name == BeforeDot(s) <==> '.' !in name && (s == name || (|name| < |s| && s[..|name| + 1] == name + "."))
  {
    if s != "" && s[0] != '.' && name != "" {
      BeforeDotSplits(s[1..], name[1..]);
      assert s == [s[0]] + s[1..] && name == [name[0]] + name[1..];
      assert |name| < |s| ==> s[..|name| + 1] == [s[0]] + s[1..][..|name[1..]| + 1];
    }
  }

  // ----- lists of names

  ghost predicate Distinct(list: seq<string>) {
    forall i, j :: 0 <= i < j < |list| ==> list[i] != list[j]
  }

  /** All different, and none bad. */
  ghost predicate GoodNames(list: seq<string>, bad: string -> bool) {
    Distinct(list) && forall i :: 0 <= i < |list| ==> !bad(list[i])
  }

  lemma NameClean(list: seq<string>, bad: string -> bool, badProblem: Problem, repeated: Problem, path: string, i: nat)
    requires i < |list|
    ensures |NamePart(list, bad, badProblem, repeated, path)(i)| == 0 <==> !bad(list[i]) && list[i] !in NamesBefore(list, i)
  {
    hide At, When, ItemPath, NamesBefore;
    WhenCount(bad(list[i]), badProblem, ItemPath(path, i));
    WhenCount(list[i] in NamesBefore(list, i), repeated, ItemPath(path, i));
  }

  lemma NamesClean(list: seq<string>, bad: string -> bool, badProblem: Problem, repeated: Problem, path: string)
    ensures |NameIssues(list, bad, badProblem, repeated, path)| == 0 <==> GoodNames(list, bad)
  {
    hide At, NamePart, NamesBefore, Upto;
    var part := NamePart(list, bad, badProblem, repeated, path);
    UptoClean(|list|, part);
    NamesDistinct(list);
    forall i | 0 <= i < |list| ensures |part(i)| == 0 <==> !bad(list[i]) && list[i] !in NamesBefore(list, i) {
      NameClean(list, bad, badProblem, repeated, path, i);
    }
  }

  /** All ids are well-formed, and different within their kind. */
  ghost predicate GoodIds(c: Capability) {
    && GoodNames(c.components, BadId) && GoodNames(SourceIds(c.dataSources), BadId) && GoodNames(ActionIds(c.actions), BadId)
    && GoodNames(FieldIds(c.fields), if IsStrict(c) then BadFieldId else BadFieldIdVersion1)
  }

  lemma IdsClean(c: Capability)
    ensures |IdIssues(c)| == 0 <==> GoodIds(c)
  {
    hide At, NameIssues, GoodNames, FieldIds, SourceIds, ActionIds;
    NamesClean(c.components, BadId, IdInvalid, IdRepeated, "components");
    NamesClean(FieldIds(c.fields), BadFieldId, FieldIdInvalid, IdRepeated, "fields");
    NamesClean(FieldIds(c.fields), BadFieldIdVersion1, FieldIdInvalidVersion1, IdRepeated, "fields");
    NamesClean(SourceIds(c.dataSources), BadId, IdInvalid, IdRepeated, "dataSources");
    NamesClean(ActionIds(c.actions), BadId, IdInvalid, IdRepeated, "actions");
  }

  /** Then the lookups by id lose nothing: each field and action is the one its id stands
      for, and each data source is found. */
  lemma IdsIdentify(c: Capability)
    requires GoodIds(c)
    ensures forall i :: 0 <= i < |c.fields| ==> c.fields[i].id in Definitions(c.fields) && Definitions(c.fields)[c.fields[i].id] == c.fields[i]
    ensures forall i :: 0 <= i < |c.actions| ==> c.actions[i].id in Placements(c.actions) && Placements(c.actions)[c.actions[i].id] == c.actions[i]
    ensures forall i :: 0 <= i < |c.dataSources| ==> FindDataSource(c.dataSources, c.dataSources[i].id) == Some(c.dataSources[i])
  {
    hide Definitions, Placements, FindDataSource, BadId, BadFieldId, BadFieldIdVersion1;
    DefinitionsAreLast(c.fields);
    forall i | 0 <= i < |c.fields| ensures IsLastField(c.fields, c.fields[i].id, i) {
      assert forall j :: 0 <= j < |c.fields| ==> FieldIds(c.fields)[j] == c.fields[j].id;
    }
    PlacementsAreLast(c.actions);
    forall i | 0 <= i < |c.actions| ensures IsLastAction(c.actions, c.actions[i].id, i) {
      assert forall j :: 0 <= j < |c.actions| ==> ActionIds(c.actions)[j] == c.actions[j].id;
    }
    forall i | 0 <= i < |c.dataSources| ensures FindDataSource(c.dataSources, c.dataSources[i].id) == Some(c.dataSources[i]) {
      assert forall j :: 0 <= j < |c.dataSources| ==> SourceIds(c.dataSources)[j] == c.dataSources[j].id;
      FoundFirst(c.dataSources, i);
    }
  }

  lemma {:induction false} FoundFirst(sources: seq<DataSource>, i: nat)
    requires i < |sources| && forall j :: 0 <= j < i ==> sources[j].id != sources[i].id
    ensures FindDataSource(sources, sources[i].id) == Some(sources[i])
  {
    if i > 0 { FoundFirst(sources[1..], i - 1); }
  }

  // ----- the facts of one field

  ghost predicate InRange(length: Option<int>, strict: bool) {
    length.Some? ==> 0 <= length.value && (strict ==> length.value <= MAX_SAFE_INTEGER)
  }

  predicate NotAbove(low: Option<int>, high: Option<int>) {
    low.Some? && high.Some? ==> low.value <= high.value
  }

  ghost predicate GoodPattern(pattern: string, strict: bool, rules: Rules) {
    pattern != "" ==> rules.compiles(pattern) && (strict ==> Portable(pattern))
  }

  ghost predicate GoodFacts(f: CapabilityField, strict: bool, rules: Rules) {
    && GoodText(Some(f.labelText)) && AllowedValueType(f.valueType) && !(f.required && f.nullable)
    && InRange(f.validation.minLength, strict) && InRange(f.validation.maxLength, strict)
    && NotAbove(f.validation.minLength, f.validation.maxLength)
    && GoodPattern(f.validation.pattern, strict, rules)
    && (AllowedFormat(f.format) || (!strict && f.format == ""))
  }

  lemma PatternClean(f: CapabilityField, path: string, strict: bool, rules: Rules)
    ensures |PatternIssues(f, path, strict, rules)| == 0
       <==> GoodPattern(f.validation.pattern, strict, rules) && (AllowedFormat(f.format) || (!strict && f.format == ""))
  {
    hide At, When, Portable, AllowedFormat;
    WhenCount(DoesNotCompile(f.validation.pattern, rules), PatternInvalid, path);
    WhenCount(IsNotPortable(f.validation.pattern, strict), PatternNotPortable, path);
    WhenCount(BadFormat(f.format, strict), Findings.Format, path);
  }

  lemma FactsClean(f: CapabilityField, path: string, strict: bool, rules: Rules)
    ensures |FactIssues(f, path, strict, rules)| == 0 <==> GoodFacts(f, strict, rules)
  {
    hide At, When, MemberPath, TextIssues, GoodText, AllowedValueType, AllowedFormat, PatternIssues, GoodPattern;
    var v := f.validation;
    TextClean(Some(f.labelText), MemberPath(path, "label"));
    WhenCount(!AllowedValueType(f.valueType), ValueType, path);
    WhenCount(f.required && f.nullable, Nullability, path);
    WhenCount(BadLength(v.minLength, strict), MinLength, path);
    WhenCount(BadLength(v.maxLength, strict), MaxLength, path);
    WhenCount(Exceeds(v.minLength, v.maxLength), LengthRange, path);
    PatternClean(f, path, strict, rules);
  }

  /** Bounds that are finite numbers and do not cross; at most 38 digits, of which the scale
      are decimals. */
  ghost predicate GoodNumbers(v: FieldValidation, rules: Rules) {
    && (v.minimum.Some? ==> rules.parseBound(v.minimum.value).Some?)
    && (v.maximum.Some? ==> rules.parseBound(v.maximum.value).Some?)
    && (v.minimum.Some? && v.maximum.Some? ==> rules.parseBound(v.minimum.value).value <= rules.parseBound(v.maximum.value).value)
    && (v.precision.Some? ==> 1 <= v.precision.value <= 38)
    && (v.scale.Some? ==> 0 <= v.scale.value <= 38)
    && NotAbove(v.scale, v.precision)
  }

  lemma NumericClean(v: FieldValidation, path: string, rules: Rules)
    ensures |NumericIssues(v, path, rules)| == 0 <==> GoodNumbers(v, rules)
  {
    hide At, When;
    WhenCount(BadBound(v.minimum, rules), NumberBound("minimum"), path);
    WhenCount(BadBound(v.maximum, rules), NumberBound("maximum"), path);
    WhenCount(BoundsCross(v, rules), NumberRange, path);
    WhenCount(OutOf(v.precision, 1, 38), Findings.Precision, path);
    WhenCount(OutOf(v.scale, 0, 38), Findings.Scale, path);
    WhenCount(Exceeds(v.scale, v.precision), ScaleBeyondPrecision, path);
  }

  ghost predicate GoodEnumValues(values: seq<EnumValue>) {
    && Distinct(EnumNames(values))
    && forall i :: 0 <= i < |values| ==> IsEnumValue(values[i].value) && GoodText(Some(values[i].labelText))
  }

  /** Different well-formed values with good labels, on enums only, and in version 2 on each. */
  ghost predicate GoodEnum(f: CapabilityField, strict: bool) {
    && GoodEnumValues(f.enumValues)
    && (f.enumValues != [] ==> f.valueType == "enum")
    && (strict && f.valueType == "enum" ==> f.enumValues != [])
  }

  lemma EnumValueClean(value: EnumValue, repeated: bool, path: string)
    ensures |EnumValueIssues(value, repeated, path)| == 0 <==> IsEnumValue(value.value) && GoodText(Some(value.labelText)) && !repeated
  {
    hide At, When, MemberPath, IsEnumValue, TextIssues, GoodText;
    WhenCount(!IsEnumValue(value.value), Findings.EnumValue, path);
    TextClean(Some(value.labelText), MemberPath(path, "label"));
    WhenCount(repeated, EnumValueRepeated, path);
  }

  lemma EnumValuesClean(values: seq<EnumValue>, path: string)
    ensures |Upto(|values|, EnumPart(values, path))| == 0 <==> GoodEnumValues(values)
  {
    hide At, ItemPath, NamesBefore, EnumValueIssues, IsEnumValue, GoodText, Upto;
    UptoClean(|values|, EnumPart(values, path));
    NamesDistinct(EnumNames(values));
    forall i | 0 <= i < |values|
      ensures |EnumPart(values, path)(i)| == 0 <==> IsEnumValue(values[i].value) && GoodText(Some(values[i].labelText)) && !EnumRepeats(values, i)
    {
      EnumValueClean(values[i], EnumRepeats(values, i), ItemPath(path, i));
    }
  }

  lemma EnumClean(f: CapabilityField, path: string, strict: bool)
    ensures |EnumIssues(f, path, strict)| == 0 <==> GoodEnum(f, strict)
  {
    hide At, When, MemberPath, EnumPart, Upto, GoodEnumValues;
    WhenCount(NeedsEnumValues(f, strict), EnumValuesMissing, path);
    WhenCount(TakesNoEnumValues(f), EnumValuesUnexpected, path);
    EnumValuesClean(f.enumValues, MemberPath(path, "enumValues"));
  }

  // ----- surfaces and components of a field

  /** Different valid surfaces and different registered components, some of each. */
  ghost predicate GoodInventory(f: CapabilityField, componentIds: set<string>) {
    && f.surfaces != [] && GoodNames(f.surfaces, BadSurface)
    && f.components != [] && GoodNames(f.components, NotIn(componentIds))
  }

  lemma InventoryClean(f: CapabilityField, path: string, componentIds: set<string>)
    ensures |InventoryIssues(f, path, componentIds)| == 0 <==> GoodInventory(f, componentIds)
  {
    hide At, When, MemberPath, NameIssues, GoodNames;
    WhenCount(f.surfaces == [], SurfacesMissing, path);
    NamesClean(f.surfaces, BadSurface, SurfaceInvalid, SurfaceRepeated, MemberPath(path, "surfaces"));
    WhenCount(f.components == [], ComponentsMissing, path);
    NamesClean(f.components, NotIn(componentIds), ComponentUnknown, ComponentRepeated, MemberPath(path, "components"));
  }

  ghost predicate GoodChoices(components: seq<string>, declared: set<string>, componentIds: set<string>) {
    Distinct(components) && forall i :: 0 <= i < |components| ==> components[i] in componentIds && components[i] in declared
  }

  lemma ChoiceClean(components: seq<string>, declared: set<string>, componentIds: set<string>, path: string, i: nat)
    requires i < |components|
    ensures |ChoicePart(components, declared, componentIds, path)(i)| == 0
       <==> components[i] in componentIds && components[i] in declared && components[i] !in NamesBefore(components, i)
  {
    hide At, When, ItemPath, NamesBefore;
    WhenCount(components[i] !in componentIds, MappingComponentUnknown, ItemPath(path, i));
    WhenCount(components[i] !in declared, MappingComponentUndeclared, ItemPath(path, i));
    WhenCount(components[i] in NamesBefore(components, i), MappingComponentRepeated, ItemPath(path, i));
  }

  lemma ChoicesClean(components: seq<string>, declared: set<string>, componentIds: set<string>, path: string)
    ensures |ChoiceIssues(components, declared, componentIds, path)| == 0 <==> GoodChoices(components, declared, componentIds)
  {
    hide At, ChoicePart, NamesBefore, Upto;
    var part := ChoicePart(components, declared, componentIds, path);
    UptoClean(|components|, part);
    NamesDistinct(components);
    forall i | 0 <= i < |components|
      ensures |part(i)| == 0 <==> components[i] in componentIds && components[i] in declared && components[i] !in NamesBefore(components, i)
    {
      ChoiceClean(components, declared, componentIds, path, i);
    }
  }

  /** A valid surface of the field, with some of its components. */
  ghost predicate GoodMapping(m: SurfaceComponents, f: CapabilityField, componentIds: set<string>) {
    && ValidSurface(m.surface) && m.surface in f.surfaces
    && m.components != [] && GoodChoices(m.components, Names(f.components), componentIds)
  }

  lemma MappingClean(m: SurfaceComponents, repeated: bool, f: CapabilityField, componentIds: set<string>, path: string)
    ensures |MappingIssues(m, repeated, f, componentIds, path)| == 0 <==> !repeated && GoodMapping(m, f, componentIds)
  {
    hide At, When, MemberPath, ValidSurface, ChoiceIssues, GoodChoices;
    WhenCount(!ValidSurface(m.surface), MappingSurfaceInvalid, path);
    WhenCount(m.surface !in Names(f.surfaces), MappingSurfaceUndeclared, path);
    WhenCount(repeated, MappingSurfaceRepeated, path);
    WhenCount(m.components == [], MappingEmpty, path);
    ChoicesClean(m.components, Names(f.components), componentIds, MemberPath(path, "components"));
  }

  /** Some mapping lists the component. */
  ghost predicate Mapped(mappings: seq<SurfaceComponents>, component: string) {
    exists i :: 0 <= i < |mappings| && component in mappings[i].components
  }

  /** Every surface of the field is mapped exactly once, and its components are exactly those
      that the mappings list. */
  ghost predicate GoodMappings(f: CapabilityField, componentIds: set<string>) {
    && f.surfaceComponents != []
    && Distinct(MappingSurfaces(f.surfaceComponents))
    && (forall i :: 0 <= i < |f.surfaceComponents| ==> GoodMapping(f.surfaceComponents[i], f, componentIds))
    && (forall surface :: surface in f.surfaces ==> surface in MappingSurfaces(f.surfaceComponents))
    && forall component :: component in f.components ==> Mapped(f.surfaceComponents, component)
  }

  lemma {:induction false} UsedIsMapped(mappings: seq<SurfaceComponents>, n: nat)
    requires n <= |mappings|
    ensures forall component :: component in Used(mappings, n) <==> Mapped(mappings[..n], component)
  {
    if n > 0 {
      UsedIsMapped(mappings, n - 1);
      assert mappings[..n] == mappings[..n - 1] + [mappings[n - 1]];
      forall component ensures Mapped(mappings[..n], component) <==> Mapped(mappings[..n - 1], component) || component in mappings[n - 1].components {
        if component in mappings[n - 1].components { assert component in mappings[..n][n - 1].components; }
        if Mapped(mappings[..n - 1], component) {
          var i :| 0 <= i < n - 1 && component in mappings[..n - 1][i].components;
          assert component in mappings[..n][i].components;
        }
      }
    }
  }

  lemma CoverClean(names: set<string>, covered: set<string>, path: string)
    ensures |Over(names, UnmappedPart(covered, path))| == 0 <==> names <= covered
    ensures |Over(names, UnusedPart(covered, path))| == 0 <==> names <= covered
  {
    hide At, When, Over;
    OverClean(names, UnmappedPart(covered, path));
    OverClean(names, UnusedPart(covered, path));
    forall name
      ensures |UnmappedPart(covered, path)(name)| == 0 <==> name in covered
      ensures |UnusedPart(covered, path)(name)| == 0 <==> name in covered
    {
      WhenCount(name !in covered, SurfaceUnmapped(name), path);
      WhenCount(name !in covered, ComponentUnused(name), path);
    }
  }

  lemma MappingPartClean(f: CapabilityField, componentIds: set<string>, path: string)
    ensures |Upto(|f.surfaceComponents|, MappingPart(f, componentIds, path))| == 0
       <==> Distinct(MappingSurfaces(f.surfaceComponents))
            && forall i :: 0 <= i < |f.surfaceComponents| ==> GoodMapping(f.surfaceComponents[i], f, componentIds)
  {
    hide At, ItemPath, NamesBefore, MappingIssues, GoodMapping, Upto;
    var mappings, part := f.surfaceComponents, MappingPart(f, componentIds, path);
    UptoClean(|mappings|, part);
    NamesDistinct(MappingSurfaces(mappings));
    forall i | 0 <= i < |mappings| ensures |part(i)| == 0 <==> !MappingRepeats(mappings, i) && GoodMapping(mappings[i], f, componentIds) {
      MappingClean(mappings[i], MappingRepeats(mappings, i), f, componentIds, ItemPath(path, i));
    }
  }

  lemma NamesWithin(list: seq<string>, names: set<string>)
    ensures Names(list) <= names <==> forall name :: name in list ==> name in names
  {
    assert forall name :: name in list ==> name in Names(list);
  }

  lemma MappingsClean(f: CapabilityField, componentIds: set<string>, path: string)
    ensures |MappingsIssues(f, componentIds, path)| == 0 <==> GoodMappings(f, componentIds)
  {
    hide At, When, MappingPart, GoodMapping, UnmappedPart, UnusedPart, Over, Used, Mapped, Upto, Distinct;
    var mappings := f.surfaceComponents;
    WhenCount(true, MappingsMissing, path);
    MappingPartClean(f, componentIds, path);
    CoverClean(Names(f.surfaces), Names(MappingSurfaces(mappings)), path);
    CoverClean(Names(f.components), Used(mappings, |mappings|), path);
    UsedIsMapped(mappings, |mappings|);
    assert mappings[..|mappings|] == mappings;
    NamesWithin(f.components, Used(mappings, |mappings|));
    NamesWithin(f.surfaces, Names(MappingSurfaces(mappings)));
  }

  lemma {:induction false} ComponentsOnAt(mappings: seq<SurfaceComponents>, i: nat)
    requires i < |mappings| && forall j :: 0 <= j < i ==> mappings[j].surface != mappings[i].surface
    ensures ComponentsOn(mappings, mappings[i].surface) == mappings[i].components
  {
    if i > 0 { ComponentsOnAt(mappings[1..], i - 1); }
  }

  lemma {:induction false} ComponentsOnFrom(mappings: seq<SurfaceComponents>, surface: Surface, component: string)
    requires component in ComponentsOn(mappings, surface)
    ensures exists i :: 0 <= i < |mappings| && mappings[i].surface == surface && component in mappings[i].components
  {
    if mappings[0].surface != surface {
      ComponentsOnFrom(mappings[1..], surface, component);
      var i :| 0 <= i < |mappings[1..]| && mappings[1..][i].surface == surface && component in mappings[1..][i].components;
      assert mappings[i + 1].surface == surface && component in mappings[i + 1].components;
    }
  }

  /** What version 2 supports on a surface is a choice among what version 1 would: a surface
      of the field with a component of it. Every surface has such a component, and every
      component such a surface. */
  lemma MappingsChoose(f: CapabilityField, componentIds: set<string>)
    requires GoodMappings(f, componentIds)
    ensures forall surface, component :: SupportsComponent(f, surface, component, true) ==>
              surface in f.surfaces && SupportsComponent(f, surface, component, false)
    ensures forall surface :: surface in f.surfaces ==> exists component :: SupportsComponent(f, surface, component, true)
    ensures forall component :: component in f.components ==> exists surface :: SupportsComponent(f, surface, component, true)
  {
    hide ComponentsOn, ValidSurface;
    var mappings := f.surfaceComponents;
    forall i | 0 <= i < |mappings| ensures ComponentsOn(mappings, mappings[i].surface) == mappings[i].components {
      assert forall j :: 0 <= j < |mappings| ==> MappingSurfaces(mappings)[j] == mappings[j].surface;
      ComponentsOnAt(mappings, i);
    }
    forall surface, component | SupportsComponent(f, surface, component, true) ensures surface in f.surfaces && component in f.components {
      ComponentsOnFrom(mappings, surface, component);
      var i :| 0 <= i < |mappings| && mappings[i].surface == surface && component in mappings[i].components;
      assert GoodMapping(mappings[i], f, componentIds);
    }
    forall surface | surface in f.surfaces ensures exists component :: SupportsComponent(f, surface, component, true) {
      var i :| 0 <= i < |mappings| && MappingSurfaces(mappings)[i] == surface;
      assert GoodMapping(mappings[i], f, componentIds);
      assert SupportsComponent(f, surface, mappings[i].components[0], true);
    }
    forall component | component in f.components ensures exists surface :: SupportsComponent(f, surface, component, true) {
      assert Mapped(mappings, component);
      var i :| 0 <= i < |mappings| && component in mappings[i].components;
      assert SupportsComponent(f, mappings[i].surface, component, true);
    }
  }

  ghost predicate GoodField(f: CapabilityField, strict: bool, componentIds: set<string>, rules: Rules) {
    && GoodFacts(f, strict, rules) && GoodNumbers(f.validation, rules) && GoodEnum(f, strict) && GoodInventory(f, componentIds)
    && (strict ==> GoodMappings(f, componentIds))
  }

  lemma FieldClean(f: CapabilityField, path: string, strict: bool, componentIds: set<string>, rules: Rules)
    ensures |FieldIssues(f, path, strict, componentIds, rules)| == 0 <==> GoodField(f, strict, componentIds, rules)
  {
    hide At, MemberPath, FactIssues, NumericIssues, EnumIssues, InventoryIssues, MappingsIssues,
         GoodFacts, GoodNumbers, GoodEnum, GoodInventory, GoodMappings;
    FactsClean(f, path, strict, rules);
    NumericClean(f.validation, path, rules);
    EnumClean(f, path, strict);
    InventoryClean(f, path, componentIds);
    MappingsClean(f, componentIds, MemberPath(path, "surfaceComponents"));
  }

  // ----- data sources and actions

  ghost predicate GoodPermissions(permissions: seq<string>, rules: Rules) {
    permissions != [] && GoodNames(permissions, BadPermission(rules))
  }

  lemma PermissionsClean(permissions: seq<string>, path: string, rules: Rules)
    ensures |PermissionIssues(permissions, path, rules)| == 0 <==> GoodPermissions(permissions, rules)
  {
    hide At, When, NameIssues, GoodNames, BadPermission;
    WhenCount(permissions == [], PermissionsMissing, path);
    NamesClean(permissions, BadPermission(rules), PermissionInvalid, PermissionRepeated, path);
  }

  ghost predicate Increasing(options: seq<int>) {
    forall i, j :: 0 <= i < j < |options| ==> options[i] < options[j]
  }

  /** Some options, strictly increasing from 1 to the maximum, itself at most 200. */
  ghost predicate GoodLimits(d: DataSource) {
    && 1 <= d.maxPageSize <= 200 && 0 <= d.maxSortFields <= 3
    && d.pageSizeOptions != [] && Increasing(d.pageSizeOptions)
    && 1 <= d.pageSizeOptions[0] && d.pageSizeOptions[|d.pageSizeOptions| - 1] <= d.maxPageSize
  }

  lemma {:induction false} StepsIncrease(options: seq<int>, j: nat)
    requires j < |options| && forall i :: 0 < i < |options| ==> options[i - 1] < options[i]
    ensures forall i :: 0 <= i < j ==> options[i] < options[j]
  {
    if j > 0 { StepsIncrease(options, j - 1); }
  }

  lemma OptionClean(option: int, maximum: int, repeated: bool, unsorted: bool, path: string)
    ensures |OptionIssues(option, maximum, repeated, unsorted, path)| == 0 <==> 1 <= option <= maximum && !repeated && !unsorted
  {
    hide At, When;
    WhenCount(option < 1 || option > maximum, SourceOptionInvalid, path);
    WhenCount(repeated, SourceOptionRepeated, path);
    WhenCount(unsorted, SourceOptionUnsorted, path);
  }

  /** New among the options and above the one before it, for all of them: increasing. */
  lemma OptionsIncrease(options: seq<int>)
    ensures (forall i :: 0 <= i < |options| ==> NextOption(options, i)) <==> Increasing(options)
  {
    if forall i :: 0 <= i < |options| ==> NextOption(options, i) {
      forall i | 0 < i < |options| ensures options[i - 1] < options[i] {
        assert NextOption(options, i);
      }
      forall i, j | 0 <= i < j < |options| ensures options[i] < options[j] {
        StepsIncrease(options, j);
      }
    }
  }

  ghost predicate NextOption(options: seq<int>, i: nat)
    requires i < |options|
  {
    options[i] !in OptionsBefore(options, i) && (i > 0 ==> options[i - 1] < options[i])
  }

  lemma OptionsClean(options: seq<int>, maximum: int, path: string)
    ensures |Upto(|options|, OptionPart(options, maximum, path))| == 0
       <==> Increasing(options) && forall i :: 0 <= i < |options| ==> 1 <= options[i] <= maximum
  {
    hide At, ItemPath, OptionIssues, OptionsBefore, Upto, Increasing;
    var part := OptionPart(options, maximum, path);
    UptoClean(|options|, part);
    OptionsIncrease(options);
    forall i | 0 <= i < |options| ensures |part(i)| == 0 <==> 1 <= options[i] <= maximum && NextOption(options, i) {
      OptionClean(options[i], maximum, options[i] in OptionsBefore(options, i), i > 0 && options[i] <= options[i - 1], ItemPath(path, i));
    }
  }

  lemma LimitsClean(d: DataSource, path: string)
    ensures |LimitIssues(d, path)| == 0 <==> GoodLimits(d)
  {
    hide At, When, MemberPath, OptionPart, Upto;
    WhenCount(d.maxPageSize < 1 || d.maxPageSize > 200, SourcePageSize, path);
    WhenCount(d.pageSizeOptions == [], SourceOptionsMissing, path);
    WhenCount(d.maxSortFields < 0 || d.maxSortFields > 3, SourceSortFields, path);
    OptionsClean(d.pageSizeOptions, d.maxPageSize, MemberPath(path, "pageSizeOptions"));
  }

  /** With good limits the options alone say which page sizes are allowed. */
  lemma OptionsDecide(d: DataSource, value: int)
    requires GoodLimits(d)
    ensures PageSizeAllowed(value, d) <==> value in d.pageSizeOptions
  {
    var last := |d.pageSizeOptions| - 1;
    if value in d.pageSizeOptions {
      var i :| 0 <= i <= last && d.pageSizeOptions[i] == value;
      assert d.pageSizeOptions[i] <= d.pageSizeOptions[last];
    }
  }

  ghost predicate GoodSource(d: DataSource, strict: bool, rules: Rules) {
    GoodPermissions(d.requiredPermissions, rules) && (strict ==> GoodLimits(d))
  }

  lemma SourceClean(d: DataSource, path: string, strict: bool, rules: Rules)
    ensures |SourceIssues(d, path, strict, rules)| == 0 <==> GoodSource(d, strict, rules)
  {
    hide At, MemberPath, PermissionIssues, GoodPermissions, LimitIssues, GoodLimits;
    PermissionsClean(d.requiredPermissions, MemberPath(path, "requiredPermissions"), rules);
    LimitsClean(d, path);
  }

  ghost predicate GoodAction(a: CapabilityAction, rules: Rules) {
    GoodPermissions(a.requiredPermissions, rules) && a.placements != [] && GoodNames(a.placements, BadPlacement)
  }

  lemma ActionClean(a: CapabilityAction, path: string, rules: Rules)
    ensures |ActionIssues(a, path, rules)| == 0 <==> GoodAction(a, rules)
  {
    hide At, When, MemberPath, PermissionIssues, GoodPermissions, NameIssues, GoodNames;
    PermissionsClean(a.requiredPermissions, MemberPath(path, "requiredPermissions"), rules);
    WhenCount(a.placements == [], PlacementsMissing, path);
    NamesClean(a.placements, BadPlacement, PlacementInvalid, PlacementRepeated, MemberPath(path, "placements"));
  }

  // ----- everything a capability registers

  ghost predicate GoodRegistered(c: Capability, rules: Rules) {
    && GoodIds(c)
    && (forall i :: 0 <= i < |c.fields| ==> GoodField(c.fields[i], IsStrict(c), Names(c.components), rules))
    && (forall i :: 0 <= i < |c.dataSources| ==> GoodSource(c.dataSources[i], IsStrict(c), rules))
    && forall i :: 0 <= i < |c.actions| ==> GoodAction(c.actions[i], rules)
  }

  lemma RegisteredClean(c: Capability, rules: Rules)
    ensures |RegisteredIssues(c, rules)| == 0 <==> GoodRegistered(c, rules)
  {
    hide At, ItemPath, IdIssues, FieldIssues, SourceIssues, ActionIssues, GoodIds, GoodField, GoodSource, GoodAction, Names, IsStrict, Upto;
    IdsClean(c);
    UptoClean(|c.fields|, FieldPart(c, rules));
    UptoClean(|c.dataSources|, SourcePart(c, rules));
    UptoClean(|c.actions|, ActionPart(c, rules));
    forall i | 0 <= i < |c.fields| ensures |FieldPart(c, rules)(i)| == 0 <==> GoodField(c.fields[i], IsStrict(c), Names(c.components), rules) {
      FieldClean(c.fields[i], ItemPath("fields", i), IsStrict(c), Names(c.components), rules);
    }
    forall i | 0 <= i < |c.dataSources| ensures |SourcePart(c, rules)(i)| == 0 <==> GoodSource(c.dataSources[i], IsStrict(c), rules) {
      SourceClean(c.dataSources[i], ItemPath("dataSources", i), IsStrict(c), rules);
    }
    forall i | 0 <= i < |c.actions| ensures |ActionPart(c, rules)(i)| == 0 <==> GoodAction(c.actions[i], rules) {
      ActionClean(c.actions[i], ItemPath("actions", i), rules);
    }
  }
}
