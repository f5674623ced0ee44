/** Capabilities, their default presentations and the profiles that patch them, as
    admin/presentation/types.go declares them, with the lookups the validators share. */
module PresentationModel {
  import opened Text
  import opened Canonical
  import opened Findings
  import opened Issues
  import opened Conditions
  import opened Patterns

  datatype LocalizedText = LocalizedText(zhCN: Option<string>, enUS: Option<string>)

  type Surface = string

  const LIST: Surface := "list"
  const SEARCH: Surface := "search"
  const FORM: Surface := "form"
  const DETAIL: Surface := "detail"

  // ----- capabilities

  datatype SurfaceComponents = SurfaceComponents(surface: Surface, components: seq<string>)

  datatype EnumValue = EnumValue(value: string, labelText: LocalizedText)

  datatype FieldValidation = FieldValidation(
    minLength: Option<int>, maxLength: Option<int>, minimum: Option<string>, maximum: Option<string>,
    pattern: string, precision: Option<int>, scale: Option<int>)

  datatype CapabilityField = CapabilityField(
    id: string, labelText: LocalizedText, valueType: string, format: string, required: bool, nullable: bool, sortable: bool,
    surfaces: seq<Surface>, components: seq<string>, surfaceComponents: seq<SurfaceComponents>,
    enumValues: seq<EnumValue>, validation: FieldValidation)

  datatype DataSource = DataSource(
    id: string, requiredPermissions: seq<string>, pageSizeOptions: seq<int>, maxPageSize: int, maxSortFields: int)

  datatype CapabilityAction = CapabilityAction(id: string, requiredPermissions: seq<string>, placements: seq<string>)

  datatype Sort = Sort(field: string, direction: string)

  datatype CompleteField = CompleteField(
    field: string, labelText: Option<LocalizedText>, component: string, order: int, hidden: bool, width: Option<int>,
    span: Option<int>, placeholder: Option<LocalizedText>, help: Option<LocalizedText>, visibleWhen: Option<Condition>)

  datatype CompleteAction = CompleteAction(
    action: string, labelText: Option<LocalizedText>, placement: string, order: int, hidden: bool,
    confirm: Option<LocalizedText>, visibleWhen: Option<Condition>)

  datatype CompletePresentation = CompletePresentation(
    title: LocalizedText, dataSource: string,
    columns: seq<CompleteField>, density: string, pageSize: int, defaultSort: seq<Sort>,
    searchFields: seq<CompleteField>, collapsedByDefault: bool,
    formFields: seq<CompleteField>, formColumns: int,
    detailFields: seq<CompleteField>, detailColumns: int,
    actions: seq<CompleteAction>)

  datatype Capability = Capability(
    pageKey: string, definitionVersion: string, definitionHash: string,
    components: seq<string>, fields: seq<CapabilityField>, dataSources: seq<DataSource>,
    actions: seq<CapabilityAction>, defaultPresentation: CompletePresentation)

  const VERSION_1 := "1"
  const VERSION_2 := "2"

  /** capabilityUsesLimitedTablePresentation */
  predicate Limited(c: Capability) {
    && c.actions == [] && c.defaultPresentation.formFields == []
    && c.defaultPresentation.detailFields == [] && c.defaultPresentation.actions == []
  }

  // ----- profiles

  datatype FieldPatch = FieldPatch(
    field: string, labelText: Option<LocalizedText>, component: Option<string>, order: Option<int>, hidden: Option<bool>,
    width: Option<int>, span: Option<int>, placeholder: Option<LocalizedText>, help: Option<LocalizedText>,
    visibleWhen: Option<Condition>)

  datatype ActionPatch = ActionPatch(
    action: string, labelText: Option<LocalizedText>, placement: Option<string>, order: Option<int>, hidden: Option<bool>,
    confirm: Option<LocalizedText>, visibleWhen: Option<Condition>)

  datatype ListPatch = ListPatch(
    columns: Option<seq<FieldPatch>>, density: Option<string>, pageSize: Option<int>, defaultSort: Option<seq<Sort>>)

  datatype SearchPatch = SearchPatch(fields: Option<seq<FieldPatch>>, collapsedByDefault: Option<bool>)

  /** The patch of a form or a detail page. */
  datatype LayoutPatch = LayoutPatch(fields: Option<seq<FieldPatch>>, columns: Option<int>)

  datatype ProfileSpec = ProfileSpec(
    title: Option<LocalizedText>, dataSource: Option<string>, list: Option<ListPatch>, search: Option<SearchPatch>,
    form: Option<LayoutPatch>, detail: Option<LayoutPatch>, actions: Option<seq<ActionPatch>>)

  datatype Scope = Scope(kind: string, subject: Option<string>)

  datatype Metadata = Metadata(
    name: string, pageKey: string, description: Option<string>, definitionHash: string, scope: Scope)

  datatype Profile = Profile(apiVersion: string, kind: string, metadata: Metadata, spec: ProfileSpec)

  // ----- what comes from outside

  datatype Hashed = Hash(value: string) | HashError(error: string)

  /** The marshaller's string encoding, `regexp.Compile`, finite `strconv.ParseFloat`, strings
      of white space, and ComputeDefinitionHash. */
  datatype Rules = Rules(
    marshal: Encoder, compiles: string -> bool, parseBound: string -> Option<real>, blank: string -> bool,
    hash: Capability -> Hashed)

  // ----- lookups

  /** Position k holds the last of the fields with that id. */
  ghost predicate IsLastField(fields: seq<CapabilityField>, id: string, k: nat) {
    k < |fields| && fields[k].id == id && forall j :: k < j < |fields| ==> fields[j].id != id
  }

  ghost predicate IsLastAction(actions: seq<CapabilityAction>, id: string, k: nat) {
    k < |actions| && actions[k].id == id && forall j :: k < j < |actions| ==> actions[j].id != id
  }

  /** What `definitions[field.ID] = field` over the fields leaves. */
  function Definitions(fields: seq<CapabilityField>): map<string, CapabilityField> {
    if fields == [] then map[]
    else
      var last := fields[|fields| - 1];
      Definitions(fields[..|fields| - 1])[last.id := last]
  }

  function Placements(actions: seq<CapabilityAction>): map<string, CapabilityAction> {
    if actions == [] then map[]
    else
      var last := actions[|actions| - 1];
      Placements(actions[..|actions| - 1])[last.id := last]
  }

  /** Each id of a field is mapped, to the last field with that id, and nothing else is. */
  lemma {:induction false} DefinitionsAreLast(fields: seq<CapabilityField>)
    ensures forall id, k: nat :: IsLastField(fields, id, k) ==> k < |fields| && id in Definitions(fields) && Definitions(fields)[id] == fields[k]
    ensures forall id :: id in Definitions(fields) ==> exists k: nat :: IsLastField(fields, id, k)
  {
    if fields != [] {
      var n := |fields| - 1;
      var before := fields[..n];
      DefinitionsAreLast(before);
      forall id, k: nat ensures IsLastField(fields, id, k) <==> if id == fields[n].id then k == n else IsLastField(before, id, k) {
        IsLastFieldGrows(fields, n, id, k);
      }
      assert Definitions(fields) == Definitions(before)[fields[n].id := fields[n]];
      hide IsLastField, Definitions;
      assert IsLastField(fields, fields[n].id, n);
      forall id, k: nat | IsLastField(fields, id, k) ensures id in Definitions(fields) && Definitions(fields)[id] == fields[k] {
        IsLastFieldInRange(fields, id, k);
        if id != fields[n].id { IsLastFieldInRange(before, id, k); }
      }
    }
  }

  lemma IsLastFieldInRange(fields: seq<CapabilityField>, id: string, k: nat)
    requires IsLastField(fields, id, k)
    ensures k < |fields|
  {
  }

  lemma IsLastFieldGrows(fields: seq<CapabilityField>, n: nat, id: string, k: nat)
    requires n + 1 == |fields|
    ensures IsLastField(fields, id, k) <==> if id == fields[n].id then k == n else IsLastField(fields[..n], id, k)
  {
  }

  lemma {:induction false} PlacementsAreLast(actions: seq<CapabilityAction>)
    ensures forall id, k: nat :: IsLastAction(actions, id, k) ==> k < |actions| && id in Placements(actions) && Placements(actions)[id] == actions[k]
    ensures forall id :: id in Placements(actions) ==> exists k: nat :: IsLastAction(actions, id, k)
  {
    if actions != [] {
      var n := |actions| - 1;
      var before := actions[..n];
      PlacementsAreLast(before);
      forall id, k: nat ensures IsLastAction(actions, id, k) <==> if id == actions[n].id then k == n else IsLastAction(before, id, k) {
        IsLastActionGrows(actions, n, id, k);
      }
      assert Placements(actions) == Placements(before)[actions[n].id := actions[n]];
      hide IsLastAction, Placements;
      assert IsLastAction(actions, actions[n].id, n);
      forall id, k: nat | IsLastAction(actions, id, k) ensures id in Placements(actions) && Placements(actions)[id] == actions[k] {
        IsLastActionInRange(actions, id, k);
        if id != actions[n].id { IsLastActionInRange(before, id, k); }
      }
    }
  }

  lemma IsLastActionInRange(actions: seq<CapabilityAction>, id: string, k: nat)
    requires IsLastAction(actions, id, k)
    ensures k < |actions|
  {
  }

  lemma IsLastActionGrows(actions: seq<CapabilityAction>, n: nat, id: string, k: nat)
    requires n + 1 == |actions|
    ensures IsLastAction(actions, id, k) <==> if id == actions[n].id then k == n else IsLastAction(actions[..n], id, k)
  {
  }

  /** The map of field definitions: each id of a field stands for the last field with that
      id, and no other id is mapped. */
  method BuildDefinitions(fields: seq<CapabilityField>) returns (definitions: map<string, CapabilityField>)
    ensures forall id, k: nat :: IsLastField(fields, id, k) ==> k < |fields| && id in definitions && definitions[id] == fields[k]
    ensures forall id :: id in definitions ==> exists k: nat :: IsLastField(fields, id, k)
    ensures definitions == Definitions(fields)
  {
    definitions := map[];
    for i := 0 to |fields|
      invariant definitions == Definitions(fields[..i])
    {
      assert fields[..i + 1][..i] == fields[..i];
      definitions := definitions[fields[i].id := fields[i]];
    }
    assert fields[..|fields|] == fields;
    DefinitionsAreLast(fields);
  }

  method BuildPlacements(actions: seq<CapabilityAction>) returns (definitions: map<string, CapabilityAction>)
    ensures forall id, k: nat :: IsLastAction(actions, id, k) ==> k < |actions| && id in definitions && definitions[id] == actions[k]
    ensures forall id :: id in definitions ==> exists k: nat :: IsLastAction(actions, id, k)
    ensures definitions == Placements(actions)
  {
    definitions := map[];
    for i := 0 to |actions|
      invariant definitions == Placements(actions[..i])
    {
      assert actions[..i + 1][..i] == actions[..i];
      definitions := definitions[actions[i].id := actions[i]];
    }
    assert actions[..|actions|] == actions;
    PlacementsAreLast(actions);
  }

  function Names(list: seq<string>): set<string> {
    set name | name in list
  }

  /** The names before the i-th one: what a `seen` map holds when it comes up. */
  function NamesBefore(list: seq<string>, i: nat): set<string>
    requires i <= |list|
  {
    set j | 0 <= j < i :: list[j]
  }

  lemma NamesNext(list: seq<string>, i: nat)
    requires i < |list|
    ensures NamesBefore(list, i + 1) == NamesBefore(list, i) + {list[i]}
  {
  }

  lemma NamesFirst(list: seq<string>)
    ensures NamesBefore(list, 0) == {} && NamesBefore(list, |list|) == Names(list)
  {
  }

  /** No name is among those before it exactly when all are different. */
  lemma NamesDistinct(list: seq<string>)
    ensures (forall i :: 0 <= i < |list| ==> list[i] !in NamesBefore(list, i)) <==> forall i, j :: 0 <= i < j < |list| ==> list[i] != list[j]
  {
    if forall i :: 0 <= i < |list| ==> list[i] !in NamesBefore(list, i) {
      forall i, j | 0 <= i < j < |list| ensures list[i] != list[j] {
        assert list[i] in NamesBefore(list, j);
      }
    }
  }

  /** The first data source of that id. */
  function FindDataSource(values: seq<DataSource>, id: string): Option<DataSource> {
    if values == [] then None else if values[0].id == id then Some(values[0]) else FindDataSource(values[1..], id)
  }

  function ComponentsOn(mappings: seq<SurfaceComponents>, surface: Surface): seq<string> {
    if mappings == [] then []
    else if mappings[0].surface == surface then mappings[0].components
    else ComponentsOn(mappings[1..], surface)
  }

  /** capabilityFieldSupportsComponent */
  predicate SupportsComponent(field: CapabilityField, surface: Surface, component: string, strict: bool) {
    if strict then component in ComponentsOn(field.surfaceComponents, surface) else component in field.components
  }

  predicate ValidSurface(surface: Surface) {
    surface == LIST || surface == SEARCH || surface == FORM || surface == DETAIL
  }

  predicate ValidPlacement(placement: string) {
    placement == "toolbar" || placement == "row" || placement == "form" || placement == "detail"
  }

  predicate ValidDensity(density: string) {
    density == "compact" || density == "middle" || density == "large"
  }

  predicate ValidDirection(direction: string) {
    direction == "asc" || direction == "desc"
  }

  predicate OutOf(value: Option<int>, low: int, high: int) {
    value.Some? && (value.value < low || value.value > high)
  }

  // ----- localized texts

  const ZH_CN := "zh-CN"
  const EN_US := "en-US"
  const LOCALES := {ZH_CN, EN_US}

  function TextIn(value: LocalizedText, locale: string): Option<string> {
    if locale == ZH_CN then value.zhCN else value.enUS
  }

  lemma TwoLocales(value: LocalizedText)
    ensures TextIn(value, ZH_CN) == value.zhCN && TextIn(value, EN_US) == value.enUS
  {
    assert ZH_CN[0] != EN_US[0];
  }

  predicate GoodLength(text: Option<string>) {
    text.Some? ==> 1 <= |text.value| <= 200
  }

  predicate GoodText(value: Option<LocalizedText>) {
    value.Some? ==> (value.value.zhCN.Some? || value.value.enUS.Some?) && GoodLength(value.value.zhCN) && GoodLength(value.value.enUS)
  }

  function LocalePart(value: LocalizedText, path: string): Part<string> {
    locale => When(!GoodLength(TextIn(value, locale)), TextLength(locale), path)
  }

  ghost function TextIssues(value: Option<LocalizedText>, path: string): multiset<Issue> {
    if value == None then multiset{}
    else When(value.value.zhCN == None && value.value.enUS == None, TextEmpty, path) + Over(LOCALES, LocalePart(value.value, path))
  }

  /** The two locales are the keys of a map and come in any order. */
  method ValidateLocalizedText(value: Option<LocalizedText>, path: string, log: IssueLog)
    modifies log
    ensures log.Bag() == old(log.Bag()) + TextIssues(value, path)
  {
    hide At, When, IssueLog.Bag, GoodLength, LOCALES;
    if value == None {
      return;
    }
    var texts := value.value;
    log.Check(texts.zhCN == None && texts.enUS == None, TextEmpty, path);
    ghost var before := log.Bag();
    var rest := LOCALES;
    while rest != {}
      invariant log.Bag() + Over(rest, LocalePart(texts, path)) == before + Over(LOCALES, LocalePart(texts, path))
      decreases rest
    {
      var locale :| locale in rest;
      AnyFirst(rest, LocalePart(texts, path), locale);
      log.Check(!GoodLength(TextIn(texts, locale)), TextLength(locale), path);
      rest := rest - {locale};
    }
    assert Over(rest, LocalePart(texts, path)) == multiset{};
    assert log.Bag() == before + Over(LOCALES, LocalePart(texts, path));
  }

  lemma LocalesClean(value: LocalizedText, path: string)
    ensures |Over(LOCALES, LocalePart(value, path))| == 0 <==> GoodLength(value.zhCN) && GoodLength(value.enUS)
  {
    hide At, When, GoodLength, TextIn, ZH_CN, EN_US, Over;
    TwoLocales(value);
    OverClean(LOCALES, LocalePart(value, path));
    forall locale ensures |LocalePart(value, path)(locale)| == 0 <==> GoodLength(TextIn(value, locale)) {
      WhenCount(!GoodLength(TextIn(value, locale)), TextLength(locale), path);
    }
    assert ZH_CN in LOCALES && EN_US in LOCALES;
  }

  lemma TextClean(value: Option<LocalizedText>, path: string)
    ensures |TextIssues(value, path)| == 0 <==> GoodText(value)
  {
    hide At, When, GoodLength, LOCALES, Over;
    if value.Some? {
      WhenCount(value.value.zhCN == None && value.value.enUS == None, TextEmpty, path);
      LocalesClean(value.value, path);
    }
  }

  // ----- sorts

  function SortKey(s: Sort): string {
    s.field + "\0" + s.direction
  }

  function SortKeys(sorts: seq<Sort>): (keys: seq<string>)
    ensures |keys| == |sorts| && forall i :: 0 <= i < |sorts| ==> keys[i] == SortKey(sorts[i])
  {
    seq(|sorts|, i requires 0 <= i < |sorts| => SortKey(sorts[i]))
  }

  ghost predicate GoodSorts(sorts: seq<Sort>) {
    && |sorts| <= 3
    && (forall i :: 0 <= i < |sorts| ==> IsReference(sorts[i].field) && ValidDirection(sorts[i].direction))
    && forall i, j :: 0 <= i < j < |sorts| ==> SortKey(sorts[i]) != SortKey(sorts[j])
  }

  /** The issues of one sort; `repeated` if one before it has the same key. */
  function SortEntryIssues(sort: Sort, repeated: bool, path: string): multiset<Issue> {
    When(!IsReference(sort.field), ReferenceInvalid, path) + When(!ValidDirection(sort.direction), SortDirection, path)
    + When(repeated, SortRepeated, path)
  }

  function SortPart(sorts: seq<Sort>, path: string): Part<nat> {
    (i: nat) => if i >= |sorts| then multiset{} else SortEntryIssues(sorts[i], SortRepeats(sorts, i), ItemPath(path, i))
  }

  predicate SortRepeats(sorts: seq<Sort>, i: nat)
    requires i < |sorts|
  {
    SortKeys(sorts)[i] in NamesBefore(SortKeys(sorts), i)
  }

  function SortIssues(sorts: seq<Sort>, path: string): multiset<Issue> {
    When(|sorts| > 3, TooManySorts, path) + Upto(|sorts|, SortPart(sorts, path))
  }

  method ValidateSort(sort: Sort, repeated: bool, path: string, log: IssueLog)
    modifies log
    ensures log.Bag() == old(log.Bag()) + SortEntryIssues(sort, repeated, path)
  {
    hide At, When, IssueLog.Bag, IsReference, ValidDirection;
    log.Check(!IsReference(sort.field), ReferenceInvalid, path);
    log.Check(!ValidDirection(sort.direction), SortDirection, path);
    log.Check(repeated, SortRepeated, path);
  }

  method ValidateSorts(sorts: seq<Sort>, path: string, log: IssueLog)
    modifies log
    ensures log.Bag() == old(log.Bag()) + SortIssues(sorts, path)
  {
    hide At, When, IssueLog.Bag, ItemPath, SortKey, NamesBefore, SortEntryIssues, Upto;
    UptoNext(0, SortPart(sorts, path));
    log.Check(|sorts| > 3, TooManySorts, path);
    ghost var before := log.Bag();
    var seen: set<string> := {};
    NamesFirst(SortKeys(sorts));
    for index := 0 to |sorts|
      invariant seen == NamesBefore(SortKeys(sorts), index)
      invariant log.Bag() == before + Upto(index, SortPart(sorts, path))
    {
      UptoNext(index, SortPart(sorts, path));
      var key := SortKey(sorts[index]);
      ValidateSort(sorts[index], key in seen, ItemPath(path, index), log);
      NamesNext(SortKeys(sorts), index);
      seen := seen + {key};
    }
  }

  lemma SortEntryClean(sort: Sort, repeated: bool, path: string)
    ensures |SortEntryIssues(sort, repeated, path)| == 0 <==> IsReference(sort.field) && ValidDirection(sort.direction) && !repeated
  {
    hide At, When, IsReference, ValidDirection;
    WhenCount(!IsReference(sort.field), ReferenceInvalid, path);
    WhenCount(!ValidDirection(sort.direction), SortDirection, path);
    WhenCount(repeated, SortRepeated, path);
  }

  lemma SortsClean(sorts: seq<Sort>, path: string)
    ensures |SortIssues(sorts, path)| == 0 <==> GoodSorts(sorts)
  {
    hide At, When, ItemPath, IsReference, ValidDirection, SortKey, NamesBefore, SortEntryIssues;
    WhenCount(|sorts| > 3, TooManySorts, path);
    UptoClean(|sorts|, SortPart(sorts, path));
    NamesDistinct(SortKeys(sorts));
    forall i | 0 <= i < |sorts|
      ensures |SortPart(sorts, path)(i)| == 0
         <==> IsReference(sorts[i].field) && ValidDirection(sorts[i].direction) && !SortRepeats(sorts, i)
    {
      SortEntryClean(sorts[i], SortRepeats(sorts, i), ItemPath(path, i));
    }
  }

  // ----- a capability as its validators see it

  datatype Context = Context(
    definitions: map<string, CapabilityField>, components: set<string>, strict: bool, placements: map<string, CapabilityAction>)

  function ContextOf(c: Capability): Context {
    Context(Definitions(c.fields), Names(c.components), c.definitionVersion == VERSION_2, Placements(c.actions))
  }

  method BuildContext(c: Capability) returns (x: Context)
    ensures x == ContextOf(c)
  {
    var definitions := BuildDefinitions(c.fields);
    var placements := BuildPlacements(c.actions);
    x := Context(definitions, Names(c.components), c.definitionVersion == VERSION_2, placements);
  }

  predicate SortableField(field: string, x: Context) {
    field in x.definitions && x.definitions[field].sortable
  }

  ghost predicate Sortable(sorts: seq<Sort>, x: Context) {
    forall i :: 0 <= i < |sorts| ==> SortableField(sorts[i].field, x)
  }

  function SortablePart(sorts: seq<Sort>, path: string, x: Context): Part<nat> {
    (i: nat) =>
      if i >= |sorts| then multiset{}
      else
        When(sorts[i].field !in x.definitions, SortFieldUnknown, ItemPath(path, i))
        + When(sorts[i].field in x.definitions && !SortableField(sorts[i].field, x), SortFieldUnsortable, ItemPath(path, i))
  }

  function SortableIssues(sorts: seq<Sort>, path: string, x: Context): multiset<Issue> {
    Upto(|sorts|, SortablePart(sorts, path, x))
  }

  method ValidateSemanticSort(sorts: seq<Sort>, path: string, x: Context, log: IssueLog)
    modifies log
    ensures log.Bag() == old(log.Bag()) + SortableIssues(sorts, path, x)
  {
    hide At, When, IssueLog.Bag, ItemPath, SortableField, Upto;
    ghost var part := SortablePart(sorts, path, x);
    UptoNext(0, part);
    ghost var before := log.Bag();
    for index := 0 to |sorts|
      invariant log.Bag() == before + Upto(index, part)
    {
      UptoNext(index, part);
      var field := sorts[index].field;
      log.Check(field !in x.definitions, SortFieldUnknown, ItemPath(path, index));
      log.Check(field in x.definitions && !SortableField(field, x), SortFieldUnsortable, ItemPath(path, index));
    }
  }

  lemma SortableClean(sorts: seq<Sort>, path: string, x: Context)
    ensures |SortableIssues(sorts, path, x)| == 0 <==> Sortable(sorts, x)
  {
    hide At, When, ItemPath;
    UptoClean(|sorts|, SortablePart(sorts, path, x));
    forall i | 0 <= i < |sorts| ensures |SortablePart(sorts, path, x)(i)| == 0 <==> SortableField(sorts[i].field, x) {
      var field := sorts[i].field;
      WhenCount(field !in x.definitions, SortFieldUnknown, ItemPath(path, i));
      WhenCount(field in x.definitions && !SortableField(field, x), SortFieldUnsortable, ItemPath(path, i));
    }
  }

  predicate BeyondMaximum(value: int, source: DataSource) {
    source.maxPageSize > 0 && value > source.maxPageSize
  }

  predicate NoOption(value: int, source: DataSource) {
    source.pageSizeOptions != [] && value !in source.pageSizeOptions
  }

  predicate PageSizeAllowed(value: int, source: DataSource) {
    && (source.maxPageSize > 0 ==> value <= source.maxPageSize)
    && (source.pageSizeOptions != [] ==> value in source.pageSizeOptions)
  }

  function PageSizeIssues(value: int, source: DataSource, path: string): multiset<Issue> {
    When(BeyondMaximum(value, source), PageSizeLimit, path) + When(NoOption(value, source), PageSizeOption, path)
  }

  method ValidateCapabilityPageSize(value: int, source: DataSource, path: string, log: IssueLog)
    modifies log
    ensures log.Bag() == old(log.Bag()) + PageSizeIssues(value, source, path)
  {
    hide At, When, IssueLog.Bag;
    log.Check(source.maxPageSize > 0 && value > source.maxPageSize, PageSizeLimit, path);
    var allowed, i := false, 0;
    while i < |source.pageSizeOptions| && !allowed
      invariant 0 <= i <= |source.pageSizeOptions|
      invariant allowed <==> value in source.pageSizeOptions[..i]
    {
      allowed := value == source.pageSizeOptions[i];
      i := i + 1;
    }
    assert !allowed ==> source.pageSizeOptions[..i] == source.pageSizeOptions;
    log.Check(|source.pageSizeOptions| > 0 && !allowed, PageSizeOption, path);
  }

  lemma PageSizeClean(value: int, source: DataSource, path: string)
    ensures |PageSizeIssues(value, source, path)| == 0 <==> PageSizeAllowed(value, source)
  {
    hide At, When;
    WhenCount(BeyondMaximum(value, source), PageSizeLimit, path);
    WhenCount(NoOption(value, source), PageSizeOption, path);
  }
}
