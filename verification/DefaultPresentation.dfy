/** The default presentation of a capability and, with it, ValidateCapability of
    admin/presentation/validation.go. */
module DefaultPresentation {
  import opened Text
  import opened Canonical
  import opened Findings
  import opened Issues
  import opened Conditions
  import opened PresentationModel
  import Identity = CapabilityIdentity
  import Sound = SoundCapability

  // ----- what a default presentation has to satisfy

  /** A registered field on a surface it is registered for, shown by a component it supports
      there; a required form field neither hidden nor conditional. */
  ghost predicate WellPlaced(f: CompleteField, surface: Surface, x: Context) {
    && f.field in x.definitions
    && var d := x.definitions[f.field];
    && surface in d.surfaces
    && f.component in x.components && SupportsComponent(d, surface, f.component, x.strict)
    && !(surface == FORM && d.required && f.hidden)
    && !(surface == FORM && d.required && f.visibleWhen.Some?)
  }

  ghost predicate WellSet(f: CompleteField, x: Context, marshal: Encoder) {
    && 0 <= f.order <= 10000 && !OutOf(f.width, 60, 1200) && !OutOf(f.span, 1, 24)
    && GoodText(f.labelText) && GoodText(f.placeholder) && GoodText(f.help)
    && WellShapedWhen(f.visibleWhen, marshal) && KnownWhen(f.visibleWhen, x.definitions.Keys)
  }

  ghost predicate GoodField(f: CompleteField, surface: Surface, x: Context, marshal: Encoder) {
    WellPlaced(f, surface, x) && WellSet(f, x, marshal)
  }

  ghost predicate GoodFields(fields: seq<CompleteField>, surface: Surface, x: Context, marshal: Encoder) {
    && (forall i, j :: 0 <= i < j < |fields| ==> fields[i].field != fields[j].field)
    && forall i :: 0 <= i < |fields| ==> GoodField(fields[i], surface, x, marshal)
  }

  ghost predicate GoodAction(a: CompleteAction, x: Context, marshal: Encoder) {
    && a.action in x.placements && a.placement in x.placements[a.action].placements
    && GoodText(a.labelText) && GoodText(a.confirm)
    && WellShapedWhen(a.visibleWhen, marshal) && KnownWhen(a.visibleWhen, x.definitions.Keys)
  }

  ghost predicate GoodActions(actions: seq<CompleteAction>, x: Context, marshal: Encoder) {
    && (forall i, j :: 0 <= i < j < |actions| ==> actions[i].action != actions[j].action)
    && forall i :: 0 <= i < |actions| ==> GoodAction(actions[i], x, marshal)
  }

  function CollectionOf(p: CompletePresentation, surface: Surface): seq<CompleteField> {
    if surface == LIST then p.columns
    else if surface == SEARCH then p.searchFields
    else if surface == FORM then p.formFields
    else if surface == DETAIL then p.detailFields
    else []
  }

  ghost predicate Shows(p: CompletePresentation, surface: Surface, field: string) {
    exists i :: 0 <= i < |CollectionOf(p, surface)| && CollectionOf(p, surface)[i].field == field
  }

  ghost predicate ShownEverywhere(p: CompletePresentation, field: CapabilityField) {
    forall i :: 0 <= i < |field.surfaces| ==> Shows(p, field.surfaces[i], field.id)
  }

  /** Every field is shown on every surface it is registered for. */
  ghost predicate NothingMissing(p: CompletePresentation, fields: seq<CapabilityField>) {
    forall i :: 0 <= i < |fields| ==> ShownEverywhere(p, fields[i])
  }

  ghost predicate SomeVisible(columns: seq<CompleteField>) {
    exists i :: 0 <= i < |columns| && !columns[i].hidden
  }

  ghost predicate GoodSettings(p: CompletePresentation) {
    SomeVisible(p.columns) && ValidDensity(p.density) && 1 <= p.pageSize <= 200 && 1 <= p.formColumns <= 4 && 1 <= p.detailColumns <= 4
  }

  ghost predicate FitsSource(p: CompletePresentation, source: Option<DataSource>, strict: bool) {
    source.Some? && (strict ==> PageSizeAllowed(p.pageSize, source.value) && |p.defaultSort| <= source.value.maxSortFields)
  }

  ghost predicate GoodPresentation(c: Capability, marshal: Encoder) {
    var p, x := c.defaultPresentation, ContextOf(c);
    && GoodText(Some(p.title)) && FitsSource(p, FindDataSource(c.dataSources, p.dataSource), x.strict)
    && GoodFields(p.columns, LIST, x, marshal) && GoodFields(p.searchFields, SEARCH, x, marshal)
    && GoodFields(p.formFields, FORM, x, marshal) && GoodFields(p.detailFields, DETAIL, x, marshal)
    && NothingMissing(p, c.fields) && GoodSettings(p)
    && GoodSorts(p.defaultSort) && Sortable(p.defaultSort, x)
    && GoodActions(p.actions, x, marshal)
  }

  ghost predicate Unconditional(fields: seq<CompleteField>) {
    forall i :: 0 <= i < |fields| ==> fields[i].visibleWhen == None
  }

  ghost predicate NoConditions(p: CompletePresentation) {
    && Unconditional(p.columns) && Unconditional(p.searchFields) && Unconditional(p.formFields) && Unconditional(p.detailFields)
    && forall i :: 0 <= i < |p.actions| ==> p.actions[i].visibleWhen == None
  }

  /** Nothing is wrong with the page key, version and hash, nor with what is registered. */
  ghost predicate GoodIdentity(c: Capability, rules: Rules) {
    Sound.GoodKey(c, rules) && Sound.GoodRegistered(c, rules)
  }

  ghost predicate GoodCapability(c: Capability, rules: Rules) {
    GoodIdentity(c, rules) && (Limited(c) ==> NoConditions(c.defaultPresentation)) && GoodPresentation(c, rules.marshal)
  }

  // ----- one field

  predicate HiddenRequired(f: CompleteField, surface: Surface, d: CapabilityField) {
    surface == FORM && d.required && f.hidden
  }

  predicate ConditionalRequired(f: CompleteField, surface: Surface, d: CapabilityField) {
    surface == FORM && d.required && f.visibleWhen.Some?
  }

  function PlacementIssues(f: CompleteField, surface: Surface, path: string, x: Context): multiset<Issue>
    requires f.field in x.definitions
  {
    var d := x.definitions[f.field];
    When(surface !in d.surfaces, DefaultFieldSurface, path)
    + When(f.component !in x.components, DefaultComponentUnknown, path)
    + When(f.component in x.components && !SupportsComponent(d, surface, f.component, x.strict), DefaultComponentUnsupported, path)
    + When(HiddenRequired(f, surface, d), RequiredHidden, path)
    + When(ConditionalRequired(f, surface, d), RequiredConditional, path)
  }

  ghost function SettingIssues(f: CompleteField, path: string, x: Context, marshal: Encoder): multiset<Issue> {
    When(f.order < 0 || f.order > 10000, DefaultOrder, path)
    + When(OutOf(f.width, 60, 1200), DefaultWidth, path)
    + When(OutOf(f.span, 1, 24), DefaultSpan, path)
    + TextIssues(f.labelText, MemberPath(path, "label"))
    + TextIssues(f.placeholder, MemberPath(path, "placeholder"))
    + TextIssues(f.help, MemberPath(path, "help"))
    + ShapeIssuesWhen(f.visibleWhen, MemberPath(path, "visibleWhen"), marshal)
    + ReferenceIssuesWhen(f.visibleWhen, MemberPath(path, "visibleWhen"), x.definitions.Keys)
  }

  ghost function FieldIssues(f: CompleteField, repeated: bool, surface: Surface, path: string, x: Context, marshal: Encoder): multiset<Issue> {
    When(repeated, DefaultFieldRepeated, path)
    + if f.field !in x.definitions then When(true, DefaultFieldUnknown, path)
      else PlacementIssues(f, surface, path, x) + SettingIssues(f, path, x, marshal)
  }

  method ValidatePlacement(f: CompleteField, surface: Surface, path: string, x: Context, log: IssueLog)
    requires f.field in x.definitions
    modifies log
    ensures log.Bag() == old(log.Bag()) + PlacementIssues(f, surface, path, x)
  {
    hide At, When, IssueLog.Bag, SupportsComponent, HiddenRequired, ConditionalRequired;
    var d := x.definitions[f.field];
    log.Check(surface !in d.surfaces, DefaultFieldSurface, path);
    log.Check(f.component !in x.components, DefaultComponentUnknown, path);
    log.Check(f.component in x.components && !SupportsComponent(d, surface, f.component, x.strict), DefaultComponentUnsupported, path);
    log.Check(HiddenRequired(f, surface, d), RequiredHidden, path);
    log.Check(ConditionalRequired(f, surface, d), RequiredConditional, path);
  }

  method ValidateFieldSettings(f: CompleteField, path: string, x: Context, marshal: Encoder, log: IssueLog)
    modifies log
    ensures log.Bag() == old(log.Bag()) + SettingIssues(f, path, x, marshal)
  {
    hide At, When, IssueLog.Bag, MemberPath, OutOf, TextIssues, ShapeIssues, ReferenceIssuesWhen;
    log.Check(f.order < 0 || f.order > 10000, DefaultOrder, path);
    log.Check(OutOf(f.width, 60, 1200), DefaultWidth, path);
    log.Check(OutOf(f.span, 1, 24), DefaultSpan, path);
    ValidateLocalizedText(f.labelText, MemberPath(path, "label"), log);
    ValidateLocalizedText(f.placeholder, MemberPath(path, "placeholder"), log);
    ValidateLocalizedText(f.help, MemberPath(path, "help"), log);
    ValidateConditionShape(f.visibleWhen, MemberPath(path, "visibleWhen"), log, 0, marshal);
    ValidateSemanticCondition(f.visibleWhen, MemberPath(path, "visibleWhen"), x.definitions.Keys, log);
  }

  method ValidateCompleteField(f: CompleteField, repeated: bool, surface: Surface, path: string, x: Context, marshal: Encoder, log: IssueLog)
    modifies log
    ensures log.Bag() == old(log.Bag()) + FieldIssues(f, repeated, surface, path, x, marshal)
  {
    hide At, When, IssueLog.Bag, PlacementIssues, SettingIssues;
    log.Check(repeated, DefaultFieldRepeated, path);
    if f.field !in x.definitions {
      log.Check(true, DefaultFieldUnknown, path);
    } else {
      ValidatePlacement(f, surface, path, x, log);
      ValidateFieldSettings(f, path, x, marshal, log);
    }
  }

  lemma FieldClean(f: CompleteField, repeated: bool, surface: Surface, path: string, x: Context, marshal: Encoder)
    ensures |FieldIssues(f, repeated, surface, path, x, marshal)| == 0 <==> !repeated && GoodField(f, surface, x, marshal)
  {
    hide At, When, PlacementIssues, SettingIssues, WellPlaced, WellSet;
    WhenCount(repeated, DefaultFieldRepeated, path);
    WhenCount(true, DefaultFieldUnknown, path);
    PlacedIsKnown(f, surface, x);
    if f.field in x.definitions {
      PlacementClean(f, surface, path, x);
      SettingsClean(f, path, x, marshal);
    }
  }

  lemma PlacedIsKnown(f: CompleteField, surface: Surface, x: Context)
    ensures WellPlaced(f, surface, x) ==> f.field in x.definitions
  {
  }

  lemma PlacementClean(f: CompleteField, surface: Surface, path: string, x: Context)
    requires f.field in x.definitions
    ensures |PlacementIssues(f, surface, path, x)| == 0 <==> WellPlaced(f, surface, x)
  {
    hide At, When, SupportsComponent;
    var d := x.definitions[f.field];
    WhenCount(surface !in d.surfaces, DefaultFieldSurface, path);
    WhenCount(f.component !in x.components, DefaultComponentUnknown, path);
    WhenCount(f.component in x.components && !SupportsComponent(d, surface, f.component, x.strict), DefaultComponentUnsupported, path);
    WhenCount(HiddenRequired(f, surface, d), RequiredHidden, path);
    WhenCount(ConditionalRequired(f, surface, d), RequiredConditional, path);
  }

  lemma SettingsClean(f: CompleteField, path: string, x: Context, marshal: Encoder)
    ensures |SettingIssues(f, path, x, marshal)| == 0 <==> WellSet(f, x, marshal)
  {
    hide At, When, MemberPath, OutOf, TextIssues, ShapeIssuesWhen, ReferenceIssuesWhen, GoodText, WellShapedWhen, KnownWhen;
    WhenCount(f.order < 0 || f.order > 10000, DefaultOrder, path);
    WhenCount(OutOf(f.width, 60, 1200), DefaultWidth, path);
    WhenCount(OutOf(f.span, 1, 24), DefaultSpan, path);
    TextClean(f.labelText, MemberPath(path, "label"));
    TextClean(f.placeholder, MemberPath(path, "placeholder"));
    TextClean(f.help, MemberPath(path, "help"));
    ShapeWhenClean(f.visibleWhen, MemberPath(path, "visibleWhen"), marshal);
    ReferenceWhenClean(f.visibleWhen, MemberPath(path, "visibleWhen"), x.definitions.Keys);
  }

  // ----- the fields of a surface

  function FieldNames(fields: seq<CompleteField>): (names: seq<string>)
    ensures |names| == |fields| && forall i :: 0 <= i < |fields| ==> names[i] == fields[i].field
  {
    seq(|fields|, i requires 0 <= i < |fields| => fields[i].field)
  }

  predicate FieldRepeats(fields: seq<CompleteField>, i: nat)
    requires i < |fields|
  {
    FieldNames(fields)[i] in NamesBefore(FieldNames(fields), i)
  }

  ghost function FieldPart(fields: seq<CompleteField>, surface: Surface, path: string, x: Context, marshal: Encoder): Part<nat> {
    (i: nat) =>
      if i >= |fields| then multiset{} else FieldIssues(fields[i], FieldRepeats(fields, i), surface, ItemPath(path, i), x, marshal)
  }

  ghost function FieldsIssues(fields: seq<CompleteField>, surface: Surface, path: string, x: Context, marshal: Encoder): multiset<Issue> {
    Upto(|fields|, FieldPart(fields, surface, path, x, marshal))
  }

  method ValidateCompleteFields(fields: seq<CompleteField>, surface: Surface, path: string, x: Context, marshal: Encoder, log: IssueLog)
    modifies log
    ensures log.Bag() == old(log.Bag()) + FieldsIssues(fields, surface, path, x, marshal)
  {
    hide At, IssueLog.Bag, ItemPath, NamesBefore, FieldIssues, Upto;
    ghost var part := FieldPart(fields, surface, path, x, marshal);
    UptoNext(0, part);
    ghost var before := log.Bag();
    var seen: set<string> := {};
    NamesFirst(FieldNames(fields));
    for index := 0 to |fields|
      invariant seen == NamesBefore(FieldNames(fields), index)
      invariant log.Bag() == before + Upto(index, part)
    {
      UptoNext(index, part);
      ValidateCompleteField(fields[index], fields[index].field in seen, surface, ItemPath(path, index), x, marshal, log);
      NamesNext(FieldNames(fields), index);
      seen := seen + {fields[index].field};
    }
  }

  lemma FieldsClean(fields: seq<CompleteField>, surface: Surface, path: string, x: Context, marshal: Encoder)
    ensures |FieldsIssues(fields, surface, path, x, marshal)| == 0 <==> GoodFields(fields, surface, x, marshal)
  {
    hide At, ItemPath, NamesBefore, FieldIssues, GoodField;
    UptoClean(|fields|, FieldPart(fields, surface, path, x, marshal));
    NamesDistinct(FieldNames(fields));
    forall i | 0 <= i < |fields|
      ensures |FieldPart(fields, surface, path, x, marshal)(i)| == 0 <==> !FieldRepeats(fields, i) && GoodField(fields[i], surface, x, marshal)
    {
      FieldClean(fields[i], FieldRepeats(fields, i), surface, ItemPath(path, i), x, marshal);
    }
  }

  // ----- the actions

  ghost function ActionIssues(a: CompleteAction, repeated: bool, path: string, x: Context, marshal: Encoder): multiset<Issue> {
    When(repeated, DefaultActionRepeated, path)
    + When(a.action !in x.placements, DefaultActionUnknown, path)
    + When(a.action in x.placements && a.placement !in x.placements[a.action].placements, DefaultActionPlacement, path)
    + TextIssues(a.labelText, MemberPath(path, "label"))
    + TextIssues(a.confirm, MemberPath(path, "confirm"))
    + ShapeIssuesWhen(a.visibleWhen, MemberPath(path, "visibleWhen"), marshal)
    + ReferenceIssuesWhen(a.visibleWhen, MemberPath(path, "visibleWhen"), x.definitions.Keys)
  }

  method ValidateCompleteAction(a: CompleteAction, repeated: bool, path: string, x: Context, marshal: Encoder, log: IssueLog)
    modifies log
    ensures log.Bag() == old(log.Bag()) + ActionIssues(a, repeated, path, x, marshal)
  {
    hide At, When, IssueLog.Bag, MemberPath, TextIssues, ShapeIssues, ReferenceIssuesWhen;
    log.Check(repeated, DefaultActionRepeated, path);
    log.Check(a.action !in x.placements, DefaultActionUnknown, path);
    log.Check(a.action in x.placements && a.placement !in x.placements[a.action].placements, DefaultActionPlacement, path);
    ValidateLocalizedText(a.labelText, MemberPath(path, "label"), log);
    ValidateLocalizedText(a.confirm, MemberPath(path, "confirm"), log);
    ValidateConditionShape(a.visibleWhen, MemberPath(path, "visibleWhen"), log, 0, marshal);
    ValidateSemanticCondition(a.visibleWhen, MemberPath(path, "visibleWhen"), x.definitions.Keys, log);
  }

  lemma ActionClean(a: CompleteAction, repeated: bool, path: string, x: Context, marshal: Encoder)
    ensures |ActionIssues(a, repeated, path, x, marshal)| == 0 <==> !repeated && GoodAction(a, x, marshal)
  {
    hide At, When, MemberPath, TextIssues, ShapeIssuesWhen, ReferenceIssuesWhen, GoodText, WellShapedWhen, KnownWhen;
    WhenCount(repeated, DefaultActionRepeated, path);
    WhenCount(a.action !in x.placements, DefaultActionUnknown, path);
    WhenCount(a.action in x.placements && a.placement !in x.placements[a.action].placements, DefaultActionPlacement, path);
    TextClean(a.labelText, MemberPath(path, "label"));
    TextClean(a.confirm, MemberPath(path, "confirm"));
    ShapeWhenClean(a.visibleWhen, MemberPath(path, "visibleWhen"), marshal);
    ReferenceWhenClean(a.visibleWhen, MemberPath(path, "visibleWhen"), x.definitions.Keys);
  }

  function ActionNames(actions: seq<CompleteAction>): (names: seq<string>)
    ensures |names| == |actions| && forall i :: 0 <= i < |actions| ==> names[i] == actions[i].action
  {
    seq(|actions|, i requires 0 <= i < |actions| => actions[i].action)
  }

  predicate ActionRepeats(actions: seq<CompleteAction>, i: nat)
    requires i < |actions|
  {
    ActionNames(actions)[i] in NamesBefore(ActionNames(actions), i)
  }

  const ACTIONS := "defaultPresentation.actions"

  ghost function ActionPart(actions: seq<CompleteAction>, x: Context, marshal: Encoder): Part<nat> {
    (i: nat) =>
      if i >= |actions| then multiset{} else ActionIssues(actions[i], ActionRepeats(actions, i), ItemPath(ACTIONS, i), x, marshal)
  }

  ghost function ActionsIssues(actions: seq<CompleteAction>, x: Context, marshal: Encoder): multiset<Issue> {
    Upto(|actions|, ActionPart(actions, x, marshal))
  }

  method ValidateCompleteActions(actions: seq<CompleteAction>, x: Context, marshal: Encoder, log: IssueLog)
    modifies log
    ensures log.Bag() == old(log.Bag()) + ActionsIssues(actions, x, marshal)
  {
    hide At, IssueLog.Bag, ItemPath, NamesBefore, ActionIssues, Upto, ACTIONS;
    ghost var part := ActionPart(actions, x, marshal);
    UptoNext(0, part);
    ghost var before := log.Bag();
    var seen: set<string> := {};
    NamesFirst(ActionNames(actions));
    for index := 0 to |actions|
      invariant seen == NamesBefore(ActionNames(actions), index)
      invariant log.Bag() == before + Upto(index, part)
    {
      UptoNext(index, part);
      ValidateCompleteAction(actions[index], actions[index].action in seen, ItemPath(ACTIONS, index), x, marshal, log);
      NamesNext(ActionNames(actions), index);
      seen := seen + {actions[index].action};
    }
  }

  lemma ActionsClean(actions: seq<CompleteAction>, x: Context, marshal: Encoder)
    ensures |ActionsIssues(actions, x, marshal)| == 0 <==> GoodActions(actions, x, marshal)
  {
    hide At, ItemPath, NamesBefore, ActionIssues, GoodAction, ACTIONS;
    UptoClean(|actions|, ActionPart(actions, x, marshal));
    NamesDistinct(ActionNames(actions));
    forall i | 0 <= i < |actions|
      ensures |ActionPart(actions, x, marshal)(i)| == 0 <==> !ActionRepeats(actions, i) && GoodAction(actions[i], x, marshal)
    {
      ActionClean(actions[i], ActionRepeats(actions, i), ItemPath(ACTIONS, i), x, marshal);
    }
  }

  // ----- fields that are not shown

  ghost function MissingPart(p: CompletePresentation, field: CapabilityField): Part<nat> {
    (j: nat) =>
      if j >= |field.surfaces| then multiset{}
      else When(!Shows(p, field.surfaces[j], field.id), DefaultFieldMissing(field.surfaces[j]), "defaultPresentation")
  }

  ghost function MissingOf(p: CompletePresentation, fields: seq<CapabilityField>): Part<nat> {
    (i: nat) => if i >= |fields| then multiset{} else Upto(|fields[i].surfaces|, MissingPart(p, fields[i]))
  }

  ghost function MissingIssues(p: CompletePresentation, fields: seq<CapabilityField>): multiset<Issue> {
    Upto(|fields|, MissingOf(p, fields))
  }

  method CompleteCollectionHasField(p: CompletePresentation, surface: Surface, field: string) returns (found: bool)
    ensures found <==> Shows(p, surface, field)
  {
    var fields := CollectionOf(p, surface);
    for i := 0 to |fields|
      invariant forall k :: 0 <= k < i ==> fields[k].field != field
    {
      if fields[i].field == field {
        return true;
      }
    }
    found := false;
  }

  method ValidateShownField(p: CompletePresentation, field: CapabilityField, log: IssueLog)
    modifies log
    ensures log.Bag() == old(log.Bag()) + Upto(|field.surfaces|, MissingPart(p, field))
  {
    hide At, When, IssueLog.Bag, Shows, Upto;
    ghost var part := MissingPart(p, field);
    UptoNext(0, part);
    ghost var before := log.Bag();
    for j := 0 to |field.surfaces|
      invariant log.Bag() == before + Upto(j, part)
    {
      UptoNext(j, part);
      var found := CompleteCollectionHasField(p, field.surfaces[j], field.id);
      log.Check(!found, DefaultFieldMissing(field.surfaces[j]), "defaultPresentation");
    }
  }

  method ValidateShown(p: CompletePresentation, fields: seq<CapabilityField>, log: IssueLog)
    modifies log
    ensures log.Bag() == old(log.Bag()) + MissingIssues(p, fields)
  {
    hide At, IssueLog.Bag, MissingPart, Upto;
    ghost var part := MissingOf(p, fields);
    UptoNext(0, part);
    ghost var before := log.Bag();
    for i := 0 to |fields|
      invariant log.Bag() == before + Upto(i, part)
    {
      UptoNext(i, part);
      ValidateShownField(p, fields[i], log);
    }
  }

  lemma MissingClean(p: CompletePresentation, fields: seq<CapabilityField>)
    ensures |MissingIssues(p, fields)| == 0 <==> NothingMissing(p, fields)
  {
    hide At, When, Shows;
    UptoClean(|fields|, MissingOf(p, fields));
    forall i | 0 <= i < |fields| ensures |MissingOf(p, fields)(i)| == 0 <==> ShownEverywhere(p, fields[i]) {
      var field := fields[i];
      UptoClean(|field.surfaces|, MissingPart(p, field));
      forall j | 0 <= j < |field.surfaces| ensures |MissingPart(p, field)(j)| == 0 <==> Shows(p, field.surfaces[j], field.id) {
        WhenCount(!Shows(p, field.surfaces[j], field.id), DefaultFieldMissing(field.surfaces[j]), "defaultPresentation");
      }
    }
  }

  // ----- the settings

  ghost function LayoutIssues(p: CompletePresentation): multiset<Issue> {
    When(!SomeVisible(p.columns), NothingVisible, "defaultPresentation.list")
    + When(!ValidDensity(p.density), DefaultDensity, "defaultPresentation.list")
    + When(p.pageSize < 1 || p.pageSize > 200, DefaultPageSize, "defaultPresentation.list")
    + When(p.formColumns < 1 || p.formColumns > 4, DefaultFormColumns, "defaultPresentation")
    + When(p.detailColumns < 1 || p.detailColumns > 4, DefaultDetailColumns, "defaultPresentation")
  }

  method HasVisible(columns: seq<CompleteField>) returns (visible: bool)
    ensures visible <==> SomeVisible(columns)
  {
    visible := false;
    for i := 0 to |columns|
      invariant visible <==> exists k :: 0 <= k < i && !columns[k].hidden
    {
      visible := visible || !columns[i].hidden;
    }
  }

  method ValidateLayout(p: CompletePresentation, log: IssueLog)
    modifies log
    ensures log.Bag() == old(log.Bag()) + LayoutIssues(p)
  {
    hide At, When, IssueLog.Bag, SomeVisible, ValidDensity;
    var visible := HasVisible(p.columns);
    log.Check(!visible, NothingVisible, "defaultPresentation.list");
    log.Check(!ValidDensity(p.density), DefaultDensity, "defaultPresentation.list");
    log.Check(p.pageSize < 1 || p.pageSize > 200, DefaultPageSize, "defaultPresentation.list");
    log.Check(p.formColumns < 1 || p.formColumns > 4, DefaultFormColumns, "defaultPresentation");
    log.Check(p.detailColumns < 1 || p.detailColumns > 4, DefaultDetailColumns, "defaultPresentation");
  }

  lemma LayoutClean(p: CompletePresentation)
    ensures |LayoutIssues(p)| == 0 <==> GoodSettings(p)
  {
    hide At, When, SomeVisible, ValidDensity;
    WhenCount(!SomeVisible(p.columns), NothingVisible, "defaultPresentation.list");
    WhenCount(!ValidDensity(p.density), DefaultDensity, "defaultPresentation.list");
    WhenCount(p.pageSize < 1 || p.pageSize > 200, DefaultPageSize, "defaultPresentation.list");
    WhenCount(p.formColumns < 1 || p.formColumns > 4, DefaultFormColumns, "defaultPresentation");
    WhenCount(p.detailColumns < 1 || p.detailColumns > 4, DefaultDetailColumns, "defaultPresentation");
  }

  function SourceIssues(p: CompletePresentation, source: Option<DataSource>, strict: bool): multiset<Issue> {
    if source == None then When(true, DefaultDataSource, "defaultPresentation.dataSource")
    else if strict then
      PageSizeIssues(p.pageSize, source.value, "defaultPresentation.list.pageSize")
      + When(|p.defaultSort| > source.value.maxSortFields, Findings.SortFields, "defaultPresentation.list.defaultSort")
    else multiset{}
  }

  method ValidateFit(p: CompletePresentation, source: Option<DataSource>, strict: bool, log: IssueLog)
    modifies log
    ensures log.Bag() == old(log.Bag()) + SourceIssues(p, source, strict)
  {
    hide At, When, IssueLog.Bag, PageSizeIssues;
    if source == None {
      log.Check(true, DefaultDataSource, "defaultPresentation.dataSource");
    } else if strict {
      ValidateCapabilityPageSize(p.pageSize, source.value, "defaultPresentation.list.pageSize", log);
      log.Check(|p.defaultSort| > source.value.maxSortFields, Findings.SortFields, "defaultPresentation.list.defaultSort");
    }
  }

  lemma SourceClean(p: CompletePresentation, source: Option<DataSource>, strict: bool)
    ensures |SourceIssues(p, source, strict)| == 0 <==> FitsSource(p, source, strict)
  {
    hide At, When, PageSizeIssues, PageSizeAllowed;
    WhenCount(true, DefaultDataSource, "defaultPresentation.dataSource");
    if source.Some? {
      PageSizeClean(p.pageSize, source.value, "defaultPresentation.list.pageSize");
      WhenCount(|p.defaultSort| > source.value.maxSortFields, Findings.SortFields, "defaultPresentation.list.defaultSort");
    }
  }

  // ----- the whole presentation

  ghost function CollectionIssues(p: CompletePresentation, x: Context, marshal: Encoder): multiset<Issue> {
    FieldsIssues(p.columns, LIST, "defaultPresentation.list.columns", x, marshal)
    + FieldsIssues(p.searchFields, SEARCH, "defaultPresentation.search.fields", x, marshal)
    + FieldsIssues(p.formFields, FORM, "defaultPresentation.form.fields", x, marshal)
    + FieldsIssues(p.detailFields, DETAIL, "defaultPresentation.detail.fields", x, marshal)
  }

  method ValidateCollections(p: CompletePresentation, x: Context, marshal: Encoder, log: IssueLog)
    modifies log
    ensures log.Bag() == old(log.Bag()) + CollectionIssues(p, x, marshal)
  {
    hide At, IssueLog.Bag, FieldsIssues, LIST, SEARCH, FORM, DETAIL;
    ValidateCompleteFields(p.columns, LIST, "defaultPresentation.list.columns", x, marshal, log);
    ValidateCompleteFields(p.searchFields, SEARCH, "defaultPresentation.search.fields", x, marshal, log);
    ValidateCompleteFields(p.formFields, FORM, "defaultPresentation.form.fields", x, marshal, log);
    ValidateCompleteFields(p.detailFields, DETAIL, "defaultPresentation.detail.fields", x, marshal, log);
  }

  ghost function PresentationIssues(c: Capability, marshal: Encoder): multiset<Issue> {
    var p, x := c.defaultPresentation, ContextOf(c);
    TextIssues(Some(p.title), "defaultPresentation.title")
    + CollectionIssues(p, x, marshal)
    + MissingIssues(p, c.fields)
    + LayoutIssues(p)
    + SourceIssues(p, FindDataSource(c.dataSources, p.dataSource), x.strict)
    + SortIssues(p.defaultSort, "defaultPresentation.list.defaultSort")
    + SortableIssues(p.defaultSort, "defaultPresentation.list.defaultSort", x)
    + ActionsIssues(p.actions, x, marshal)
  }

  method ValidateCompletePresentation(c: Capability, marshal: Encoder, log: IssueLog)
    modifies log
    ensures log.Bag() == old(log.Bag()) + PresentationIssues(c, marshal)
  {
    hide At, IssueLog.Bag, TextIssues, CollectionIssues, MissingIssues, LayoutIssues, SourceIssues, SortIssues, SortableIssues, ActionsIssues,
         ContextOf, FindDataSource;
    var p := c.defaultPresentation;
    var x := BuildContext(c);
    ValidateLocalizedText(Some(p.title), "defaultPresentation.title", log);
    ValidateCollections(p, x, marshal, log);
    ValidateShown(p, c.fields, log);
    ValidateLayout(p, log);
    ValidateFit(p, FindDataSource(c.dataSources, p.dataSource), x.strict, log);
    ValidateSorts(p.defaultSort, "defaultPresentation.list.defaultSort", log);
    ValidateSemanticSort(p.defaultSort, "defaultPresentation.list.defaultSort", x, log);
    ValidateCompleteActions(p.actions, x, marshal, log);
  }

  lemma PresentationClean(c: Capability, marshal: Encoder)
    ensures |PresentationIssues(c, marshal)| == 0 <==> GoodPresentation(c, marshal)
  {
    hide At, TextIssues, FieldsIssues, MissingIssues, LayoutIssues, SourceIssues, SortIssues, SortableIssues, ActionsIssues, ContextOf,
         GoodText, GoodFields, NothingMissing, GoodSettings, FitsSource, GoodSorts, Sortable, GoodActions, FindDataSource, LIST, SEARCH, FORM, DETAIL;
    var p, x := c.defaultPresentation, ContextOf(c);
    TextClean(Some(p.title), "defaultPresentation.title");
    FieldsClean(p.columns, LIST, "defaultPresentation.list.columns", x, marshal);
    FieldsClean(p.searchFields, SEARCH, "defaultPresentation.search.fields", x, marshal);
    FieldsClean(p.formFields, FORM, "defaultPresentation.form.fields", x, marshal);
    FieldsClean(p.detailFields, DETAIL, "defaultPresentation.detail.fields", x, marshal);
    MissingClean(p, c.fields);
    LayoutClean(p);
    SourceClean(p, FindDataSource(c.dataSources, p.dataSource), x.strict);
    SortsClean(p.defaultSort, "defaultPresentation.list.defaultSort");
    SortableClean(p.defaultSort, "defaultPresentation.list.defaultSort", x);
    ActionsClean(p.actions, x, marshal);
  }

  // ----- limited tables

  function ConditionPart(fields: seq<CompleteField>, path: string): Part<nat> {
    (i: nat) => if i >= |fields| then multiset{} else When(fields[i].visibleWhen.Some?, LimitedCondition, ItemPath(path, i))
  }

  function ConditionIssues(fields: seq<CompleteField>, path: string): multiset<Issue> {
    Upto(|fields|, ConditionPart(fields, path))
  }

  method ValidateUnconditional(fields: seq<CompleteField>, path: string, log: IssueLog)
    modifies log
    ensures log.Bag() == old(log.Bag()) + ConditionIssues(fields, path)
  {
    hide At, When, IssueLog.Bag, ItemPath, Upto;
    ghost var part := ConditionPart(fields, path);
    UptoNext(0, part);
    ghost var before := log.Bag();
    for i := 0 to |fields|
      invariant log.Bag() == before + Upto(i, part)
    {
      UptoNext(i, part);
      log.Check(fields[i].visibleWhen.Some?, LimitedCondition, ItemPath(path, i));
    }
  }

  lemma ConditionsClean(fields: seq<CompleteField>, path: string)
    ensures |ConditionIssues(fields, path)| == 0 <==> Unconditional(fields)
  {
    hide At, When, ItemPath;
    UptoClean(|fields|, ConditionPart(fields, path));
    forall i | 0 <= i < |fields| ensures |ConditionPart(fields, path)(i)| == 0 <==> fields[i].visibleWhen == None {
      WhenCount(fields[i].visibleWhen.Some?, LimitedCondition, ItemPath(path, i));
    }
  }

  function ActionConditionPart(actions: seq<CompleteAction>): Part<nat> {
    (i: nat) => if i >= |actions| then multiset{} else When(actions[i].visibleWhen.Some?, LimitedCondition, ItemPath(ACTIONS, i))
  }

  function LimitedIssues(p: CompletePresentation): multiset<Issue> {
    ConditionIssues(p.columns, "defaultPresentation.list.columns")
    + ConditionIssues(p.searchFields, "defaultPresentation.search.fields")
    + ConditionIssues(p.formFields, "defaultPresentation.form.fields")
    + ConditionIssues(p.detailFields, "defaultPresentation.detail.fields")
    + Upto(|p.actions|, ActionConditionPart(p.actions))
  }

  method ValidateLimitedCompletePresentationConditions(p: CompletePresentation, log: IssueLog)
    modifies log
    ensures log.Bag() == old(log.Bag()) + LimitedIssues(p)
  {
    hide At, When, IssueLog.Bag, ItemPath, ConditionIssues, Upto, ACTIONS;
    ValidateUnconditional(p.columns, "defaultPresentation.list.columns", log);
    ValidateUnconditional(p.searchFields, "defaultPresentation.search.fields", log);
    ValidateUnconditional(p.formFields, "defaultPresentation.form.fields", log);
    ValidateUnconditional(p.detailFields, "defaultPresentation.detail.fields", log);
    ghost var part := ActionConditionPart(p.actions);
    UptoNext(0, part);
    ghost var before := log.Bag();
    for i := 0 to |p.actions|
      invariant log.Bag() == before + Upto(i, part)
    {
      UptoNext(i, part);
      log.Check(p.actions[i].visibleWhen.Some?, LimitedCondition, ItemPath(ACTIONS, i));
    }
  }

  lemma LimitedClean(p: CompletePresentation)
    ensures |LimitedIssues(p)| == 0 <==> NoConditions(p)
  {
    hide At, When, ItemPath, ConditionIssues, Unconditional, ACTIONS;
    ConditionsClean(p.columns, "defaultPresentation.list.columns");
    ConditionsClean(p.searchFields, "defaultPresentation.search.fields");
    ConditionsClean(p.formFields, "defaultPresentation.form.fields");
    ConditionsClean(p.detailFields, "defaultPresentation.detail.fields");
    UptoClean(|p.actions|, ActionConditionPart(p.actions));
    forall i | 0 <= i < |p.actions| ensures |ActionConditionPart(p.actions)(i)| == 0 <==> p.actions[i].visibleWhen == None {
      WhenCount(p.actions[i].visibleWhen.Some?, LimitedCondition, ItemPath(ACTIONS, i));
    }
  }

  // ----- the whole capability

  ghost function CapabilityIssues(c: Capability, rules: Rules): multiset<Issue> {
    Identity.KeyIssues(c, rules) + Identity.RegisteredIssues(c, rules)
    + (if Limited(c) then LimitedIssues(c.defaultPresentation) else multiset{})
    + PresentationIssues(c, rules.marshal)
  }

  /** The report on a capability, also for a pointer that is not set. */
  ghost predicate IsReport(c: Option<Capability>, rules: Rules, issues: seq<Issue>) {
    if c == None then issues == [At(CapabilityMissing, "$")]
    else Ascending(issues) && multiset(issues) == CapabilityIssues(c.value, rules)
  }

  method CollectIssues(c: Capability, rules: Rules, log: IssueLog)
    modifies log
    ensures log.Bag() == old(log.Bag()) + CapabilityIssues(c, rules)
  {
    hide At, IssueLog.Bag, Identity.KeyIssues, Identity.RegisteredIssues, LimitedIssues, PresentationIssues, Limited;
    Identity.ValidateKey(c, rules, log);
    Identity.ValidateCapabilityIDs(c, rules, log);
    if Limited(c) {
      ValidateLimitedCompletePresentationConditions(c.defaultPresentation, log);
    }
    ValidateCompletePresentation(c, rules.marshal, log);
  }

  lemma CapabilityClean(c: Capability, rules: Rules)
    ensures |CapabilityIssues(c, rules)| == 0 <==> GoodCapability(c, rules)
  {
    hide At, Identity.KeyIssues, Identity.RegisteredIssues, LimitedIssues, PresentationIssues, Limited, NoConditions, GoodPresentation,
         Sound.GoodKey, Sound.GoodRegistered;
    Sound.KeyClean(c, rules);
    Sound.RegisteredClean(c, rules);
    LimitedClean(c.defaultPresentation);
    PresentationClean(c, rules.marshal);
  }

  /** ValidateCapability: the sorted list of all issues, empty exactly for a good capability. */
  method ValidateCapability(c: Option<Capability>, rules: Rules) returns (issues: seq<Issue>)
    ensures IsReport(c, rules, issues)
    ensures issues == [] <==> c.Some? && GoodCapability(c.value, rules)
  {
    hide At, CapabilityIssues, GoodCapability, Ascending;
    if c == None {
      return [At(CapabilityMissing, "$")];
    }
    var log := new IssueLog();
    CollectIssues(c.value, rules, log);
    log.Sort();
    issues := log.issues;
    CapabilityClean(c.value, rules);
    assert |issues| == |multiset(issues)|;
  }

  /** Any two runs of ValidateCapability return the identical list, whatever the orders in
      which maps were iterated. */
  lemma ReportUnique(c: Option<Capability>, rules: Rules, a: seq<Issue>, b: seq<Issue>)
    requires IsReport(c, rules, a) && IsReport(c, rules, b)
    ensures a == b
  {
    hide At, CapabilityIssues, Ascending;
    if c.Some? {
      ArrangementUnique(a, b);
    }
  }
}
