/** What the validators accept, read off capability and profile alone: without the maps,
    lookups and shared checks that the code and its specification have in common. */
module PlainTerms {
  import opened Text
  import opened Canonical
  import opened Patterns
  import opened Conditions
  import opened PresentationModel
  import D = DefaultPresentation
  import P = ProfileCheck

  // ----- lookups

  /** The last field with that id. */
  ghost predicate IsField(c: Capability, id: string, d: CapabilityField) {
    exists k: nat :: IsLastField(c.fields, id, k) && d == c.fields[k]
  }

  ghost predicate IsAction(c: Capability, id: string, a: CapabilityAction) {
    exists k: nat :: IsLastAction(c.actions, id, k) && a == c.actions[k]
  }

  /** The first data source with that id. */
  ghost predicate IsSource(c: Capability, id: string, s: DataSource) {
    exists k: nat :: FirstSource(c.dataSources, id, k) && s == c.dataSources[k]
  }

  ghost predicate FirstSource(sources: seq<DataSource>, id: string, k: nat) {
    k < |sources| && sources[k].id == id && forall j :: 0 <= j < k ==> sources[j].id != id
  }

  /** In version 2 the first mapping of the surface lists the component, in version 1 the field does. */
  ghost predicate Offers(c: Capability, d: CapabilityField, surface: string, component: string) {
    && component in c.components
    && if c.definitionVersion == "2"
       then exists i: nat :: FirstMapping(d.surfaceComponents, surface, i) && component in d.surfaceComponents[i].components
       else component in d.components
  }

  ghost predicate FirstMapping(mappings: seq<SurfaceComponents>, surface: string, i: nat) {
    i < |mappings| && mappings[i].surface == surface && forall j :: 0 <= j < i ==> mappings[j].surface != surface
  }

  ghost predicate Mentions(c: Capability, condition: Option<Condition>) {
    condition.Some? ==> forall f :: f in Visited(condition.value) ==> exists k :: 0 <= k < |c.fields| && c.fields[k].id == f
  }

  lemma FieldLookup(c: Capability, id: string, d: CapabilityField)
    ensures IsField(c, id, d) <==> id in Definitions(c.fields) && Definitions(c.fields)[id] == d
    ensures id in Definitions(c.fields) <==> exists k :: 0 <= k < |c.fields| && c.fields[k].id == id
  {
    DefinitionsAreLast(c.fields);
    if k: nat :| IsLastField(c.fields, id, k) {
      assert c.fields[k].id == id;
    }
    if k :| 0 <= k < |c.fields| && c.fields[k].id == id {
      var last := LastField(c.fields, id, k);
    }
    hide Definitions;
    if id in Definitions(c.fields) {
      var k: nat :| IsLastField(c.fields, id, k);
      assert Definitions(c.fields)[id] == c.fields[k];
    }
  }

  lemma {:induction false} LastField(fields: seq<CapabilityField>, id: string, k: nat) returns (last: nat)
    requires k < |fields| && fields[k].id == id
    ensures IsLastField(fields, id, last)
    decreases |fields| - k
  {
    if j :| k < j < |fields| && fields[j].id == id {
      last := LastField(fields, id, j);
    } else {
      last := k;
    }
  }

  lemma ActionLookup(c: Capability, id: string, a: CapabilityAction)
    ensures IsAction(c, id, a) <==> id in Placements(c.actions) && Placements(c.actions)[id] == a
  {
    PlacementsAreLast(c.actions);
    hide Placements;
    if id in Placements(c.actions) {
      var k: nat :| IsLastAction(c.actions, id, k);
    }
  }

  lemma {:induction false} SourceLookup(sources: seq<DataSource>, id: string)
    ensures match FindDataSource(sources, id)
            case None => forall k: nat :: !FirstSource(sources, id, k)
            case Some(s) => exists k: nat :: FirstSource(sources, id, k) && s == sources[k]
    ensures forall k: nat, l: nat :: FirstSource(sources, id, k) && FirstSource(sources, id, l) ==> k == l
  {
    if sources != [] {
      if sources[0].id == id {
        assert FirstSource(sources, id, 0);
      } else {
        SourceLookup(sources[1..], id);
        forall k: nat ensures FirstSource(sources, id, k) <==> k > 0 && FirstSource(sources[1..], id, k - 1) {
          SourceShifts(sources, id, k);
        }
        if k: nat :| FirstSource(sources[1..], id, k) { assert FirstSource(sources, id, k + 1); }
      }
    }
  }

  lemma SourceShifts(sources: seq<DataSource>, id: string, k: nat)
    requires sources != [] && sources[0].id != id
    ensures FirstSource(sources, id, k) <==> k > 0 && FirstSource(sources[1..], id, k - 1)
  {
    if k > 0 && FirstSource(sources[1..], id, k - 1) {
      forall j | 0 <= j < k ensures sources[j].id != id {
        if j > 0 { assert sources[1..][j - 1].id != id; }
      }
    }
  }

  lemma SourceIs(c: Capability, id: string, s: DataSource)
    ensures IsSource(c, id, s) <==> FindDataSource(c.dataSources, id) == Some(s)
  {
    SourceLookup(c.dataSources, id);
  }

  lemma {:induction false} MappingLookup(mappings: seq<SurfaceComponents>, surface: string, component: string)
    ensures component in ComponentsOn(mappings, surface) <==> exists i: nat :: FirstMapping(mappings, surface, i) && component in mappings[i].components
  {
    if mappings != [] {
      if mappings[0].surface == surface {
        assert FirstMapping(mappings, surface, 0);
        assert forall i: nat :: FirstMapping(mappings, surface, i) ==> i == 0;
      } else {
        MappingLookup(mappings[1..], surface, component);
        forall i: nat ensures FirstMapping(mappings, surface, i) <==> i > 0 && FirstMapping(mappings[1..], surface, i - 1) {
          MappingShifts(mappings, surface, i);
        }
        if i: nat :| FirstMapping(mappings[1..], surface, i) && component in mappings[1..][i].components {
          assert FirstMapping(mappings, surface, i + 1);
        }
      }
    }
  }

  lemma MappingShifts(mappings: seq<SurfaceComponents>, surface: string, i: nat)
    requires mappings != [] && mappings[0].surface != surface
    ensures FirstMapping(mappings, surface, i) <==> i > 0 && FirstMapping(mappings[1..], surface, i - 1)
  {
    if i > 0 && FirstMapping(mappings[1..], surface, i - 1) {
      forall j | 0 <= j < i ensures mappings[j].surface != surface {
        if j > 0 { assert mappings[1..][j - 1].surface != surface; }
      }
    }
  }

  lemma OffersExactly(c: Capability, d: CapabilityField, surface: string, component: string)
    ensures Offers(c, d, surface, component) <==>
      component in Names(c.components) && SupportsComponent(d, surface, component, ContextOf(c).strict)
  {
    MappingLookup(d.surfaceComponents, surface, component);
    hide FirstMapping, ComponentsOn, Definitions, Placements;
  }

  lemma MentionsExactly(c: Capability, condition: Option<Condition>)
    ensures Mentions(c, condition) <==> KnownWhen(condition, Definitions(c.fields).Keys)
  {
    if condition.Some? {
      KnownIsVisited(condition.value, Definitions(c.fields).Keys);
      hide Known, Definitions, Visited;
      forall id ensures id in Definitions(c.fields) <==> exists k :: 0 <= k < |c.fields| && c.fields[k].id == id {
        if id in Definitions(c.fields) { FieldLookup(c, id, Definitions(c.fields)[id]); }
        else if k :| 0 <= k < |c.fields| && c.fields[k].id == id { FieldLookup(c, id, c.fields[k]); }
      }
    }
  }

  // ----- profiles

  /** A patch of a field: registered there, with a component offered there, a required form
      field neither hidden nor conditional, and a condition on registered fields. */
  ghost predicate FieldFits(c: Capability, f: FieldPatch, surface: string) {
    exists d :: IsField(c, f.field, d) && PatchFits(c, d, f, surface)
  }

  ghost predicate PatchFits(c: Capability, d: CapabilityField, f: FieldPatch, surface: string) {
    && surface in d.surfaces
    && (f.component.Some? ==> Offers(c, d, surface, f.component.value))
    && (surface == "form" && d.required ==> f.hidden != Some(true) && f.visibleWhen == None)
    && Mentions(c, f.visibleWhen)
  }

  ghost predicate FieldsFit(c: Capability, fields: Option<seq<FieldPatch>>, surface: string) {
    fields.Some? ==>
      && (forall i, j :: 0 <= i < j < |fields.value| ==> fields.value[i].field != fields.value[j].field)
      && forall i :: 0 <= i < |fields.value| ==> FieldFits(c, fields.value[i], surface)
  }

  ghost predicate ActionFits(c: Capability, a: ActionPatch) {
    && (exists d :: IsAction(c, a.action, d) && (a.placement.Some? ==> a.placement.value in d.placements))
    && Mentions(c, a.visibleWhen)
  }

  ghost predicate ActionsFit(c: Capability, actions: Option<seq<ActionPatch>>) {
    actions.Some? ==>
      && (forall i, j :: 0 <= i < j < |actions.value| ==> actions.value[i].action != actions.value[j].action)
      && forall i :: 0 <= i < |actions.value| ==> ActionFits(c, actions.value[i])
  }

  ghost predicate SortsFit(c: Capability, sorts: seq<Sort>) {
    forall i :: 0 <= i < |sorts| ==> SortFits(c, sorts[i])
  }

  ghost predicate SortFits(c: Capability, s: Sort) {
    exists d :: IsField(c, s.field, d) && d.sortable
  }

  /** In version 2 page size and number of sorts keep within what the data source allows. */
  ghost predicate WithinSource(c: Capability, id: string, pageSize: Option<int>, sorts: Option<seq<Sort>>) {
    c.definitionVersion == "2" ==> forall s :: IsSource(c, id, s) ==>
      && (sorts.Some? ==> |sorts.value| <= s.maxSortFields)
      && (pageSize.Some? && s.maxPageSize > 0 ==> pageSize.value <= s.maxPageSize)
      && (pageSize.Some? && s.pageSizeOptions != [] ==> pageSize.value in s.pageSizeOptions)
  }

  /** The data source a profile is held to: the one it names, or the default one. */
  function NamedSource(c: Capability, spec: ProfileSpec): string {
    match spec.dataSource
    case Some(id) => id
    case None => c.defaultPresentation.dataSource
  }

  ghost predicate ListFits(c: Capability, spec: ProfileSpec) {
    spec.list.Some? ==>
      && FieldsFit(c, spec.list.value.columns, "list")
      && (spec.list.value.defaultSort.Some? ==> SortsFit(c, spec.list.value.defaultSort.value))
      && WithinSource(c, NamedSource(c, spec), spec.list.value.pageSize, spec.list.value.defaultSort)
  }

  /** A page without actions, form fields and detail fields. */
  predicate TableOnly(c: Capability) {
    && c.actions == [] && c.defaultPresentation.actions == []
    && c.defaultPresentation.formFields == [] && c.defaultPresentation.detailFields == []
  }

  /** On such a page a profile sets no data source, form, detail, action or sort, and of its
      fields at most label, order, visibility and, in the list, width. */
  ghost predicate KeepsToTable(spec: ProfileSpec) {
    && spec.dataSource == None && spec.form == None && spec.detail == None && spec.actions == None
    && (spec.list.Some? ==> spec.list.value.defaultSort == None)
    && (spec.list.Some? && spec.list.value.columns.Some? ==>
          forall i :: 0 <= i < |spec.list.value.columns.value| ==>
            var f := spec.list.value.columns.value[i];
            f == FieldPatch(f.field, f.labelText, None, f.order, f.hidden, f.width, None, None, None, None))
    && (spec.search.Some? && spec.search.value.fields.Some? ==>
          forall i :: 0 <= i < |spec.search.value.fields.value| ==>
            var f := spec.search.value.fields.value[i];
            f == FieldPatch(f.field, f.labelText, None, f.order, f.hidden, None, None, None, None, None))
  }

  ghost predicate ProfileFits(c: Capability, p: Profile) {
    && p.metadata.pageKey == c.pageKey && p.metadata.definitionHash == c.definitionHash
    && (TableOnly(c) ==> KeepsToTable(p.spec))
    && (p.spec.dataSource.Some? ==> exists s :: IsSource(c, p.spec.dataSource.value, s))
    && ListFits(c, p.spec)
    && (p.spec.search.Some? ==> FieldsFit(c, p.spec.search.value.fields, "search"))
    && (p.spec.form.Some? ==> FieldsFit(c, p.spec.form.value.fields, "form"))
    && (p.spec.detail.Some? ==> FieldsFit(c, p.spec.detail.value.fields, "detail"))
    && ActionsFit(c, p.spec.actions)
  }

  lemma FieldFitsExactly(c: Capability, f: FieldPatch, surface: string)
    ensures FieldFits(c, f, surface) <==> P.GoodField(f, surface, ContextOf(c))
  {
    MentionsExactly(c, f.visibleWhen);
    forall d ensures IsField(c, f.field, d) <==> f.field in Definitions(c.fields) && Definitions(c.fields)[f.field] == d {
      FieldLookup(c, f.field, d);
    }
    hide IsField, Mentions, KnownWhen, Definitions, Offers, SupportsComponent;
    if f.field in Definitions(c.fields) && f.component.Some? {
      OffersExactly(c, Definitions(c.fields)[f.field], surface, f.component.value);
    }
    if f.field in Definitions(c.fields) { assert IsField(c, f.field, Definitions(c.fields)[f.field]); }
  }

  lemma FieldsFitExactly(c: Capability, fields: Option<seq<FieldPatch>>, surface: string)
    ensures FieldsFit(c, fields, surface) <==> P.GoodFieldsWhen(fields, surface, ContextOf(c))
  {
    hide FieldFits, P.GoodField, ContextOf;
    if fields.Some? {
      forall i | 0 <= i < |fields.value| ensures FieldFits(c, fields.value[i], surface) <==> P.GoodField(fields.value[i], surface, ContextOf(c)) {
        FieldFitsExactly(c, fields.value[i], surface);
      }
    }
  }

  lemma ActionFitsExactly(c: Capability, a: ActionPatch)
    ensures ActionFits(c, a) <==> P.GoodAction(a, ContextOf(c))
  {
    MentionsExactly(c, a.visibleWhen);
    forall d ensures IsAction(c, a.action, d) <==> a.action in Placements(c.actions) && Placements(c.actions)[a.action] == d {
      ActionLookup(c, a.action, d);
    }
    hide IsAction, Mentions, KnownWhen, Definitions, Placements;
    if a.action in Placements(c.actions) { assert IsAction(c, a.action, Placements(c.actions)[a.action]); }
  }

  lemma ActionsFitExactly(c: Capability, actions: Option<seq<ActionPatch>>)
    ensures ActionsFit(c, actions) <==> (actions.Some? ==> P.GoodActions(actions.value, ContextOf(c)))
  {
    hide ActionFits, P.GoodAction, ContextOf;
    if actions.Some? {
      forall i | 0 <= i < |actions.value| ensures ActionFits(c, actions.value[i]) <==> P.GoodAction(actions.value[i], ContextOf(c)) {
        ActionFitsExactly(c, actions.value[i]);
      }
    }
  }

  lemma SortsFitExactly(c: Capability, sorts: seq<Sort>)
    ensures SortsFit(c, sorts) <==> Sortable(sorts, ContextOf(c))
  {
    forall i | 0 <= i < |sorts| ensures SortFits(c, sorts[i]) <==> SortableField(sorts[i].field, ContextOf(c)) {
      SortFitsExactly(c, sorts[i]);
    }
    hide SortFits, SortableField, ContextOf;
  }

  lemma SortFitsExactly(c: Capability, s: Sort)
    ensures SortFits(c, s) <==> SortableField(s.field, ContextOf(c))
  {
    forall d ensures IsField(c, s.field, d) <==> s.field in Definitions(c.fields) && Definitions(c.fields)[s.field] == d {
      FieldLookup(c, s.field, d);
    }
    hide IsField, Definitions, Placements;
    if s.field in Definitions(c.fields) { assert IsField(c, s.field, Definitions(c.fields)[s.field]); }
  }

  lemma WithinSourceExactly(c: Capability, id: string, pageSize: Option<int>, sorts: Option<seq<Sort>>)
    ensures WithinSource(c, id, pageSize, sorts) <==>
      var source := FindDataSource(c.dataSources, id);
      && (ContextOf(c).strict && source.Some? && sorts.Some? ==> |sorts.value| <= source.value.maxSortFields)
      && (ContextOf(c).strict && source.Some? && pageSize.Some? ==> PageSizeAllowed(pageSize.value, source.value))
  {
    forall s ensures IsSource(c, id, s) <==> FindDataSource(c.dataSources, id) == Some(s) {
      SourceIs(c, id, s);
    }
    hide IsSource, FindDataSource, Definitions, Placements;
  }

  lemma ListFitsExactly(c: Capability, spec: ProfileSpec)
    ensures ListFits(c, spec) <==> (spec.list.Some? ==> P.GoodList(spec.list.value, P.EffectiveSource(c, spec), ContextOf(c)))
  {
    if spec.list.Some? {
      var l := spec.list.value;
      FieldsFitExactly(c, l.columns, "list");
      if l.defaultSort.Some? { SortsFitExactly(c, l.defaultSort.value); }
      WithinSourceExactly(c, NamedSource(c, spec), l.pageSize, l.defaultSort);
      hide FieldsFit, P.GoodFieldsWhen, SortsFit, Sortable, WithinSource, ContextOf, FindDataSource, PageSizeAllowed;
    }
  }

  /** What ValidateProfile accepts, in plain terms. */
  lemma ProfileFitsExactly(c: Capability, p: Profile)
    ensures P.GoodProfile(c, p) <==> ProfileFits(c, p)
  {
    var spec := p.spec;
    TableExactly(c, spec);
    ListFitsExactly(c, spec);
    if spec.search.Some? { FieldsFitExactly(c, spec.search.value.fields, "search"); }
    if spec.form.Some? { FieldsFitExactly(c, spec.form.value.fields, "form"); }
    if spec.detail.Some? { FieldsFitExactly(c, spec.detail.value.fields, "detail"); }
    ActionsFitExactly(c, spec.actions);
    if spec.dataSource.Some? {
      SourceNamed(c, spec.dataSource.value);
    }
    hide TableOnly, KeepsToTable, Limited, P.LimitedSpec, ListFits, P.GoodList, P.EffectiveSource, FieldsFit, P.GoodFieldsWhen, ActionsFit, P.GoodActions,
         ContextOf, IsSource, FindDataSource;
  }

  lemma SourceNamed(c: Capability, id: string)
    ensures (exists s :: IsSource(c, id, s)) <==> FindDataSource(c.dataSources, id).Some?
  {
    forall s ensures IsSource(c, id, s) <==> FindDataSource(c.dataSources, id) == Some(s) {
      SourceIs(c, id, s);
    }
    hide IsSource, FindDataSource;
    if FindDataSource(c.dataSources, id).Some? { assert IsSource(c, id, FindDataSource(c.dataSources, id).value); }
  }

  lemma TableExactly(c: Capability, spec: ProfileSpec)
    ensures TableOnly(c) <==> Limited(c)
    ensures KeepsToTable(spec) <==> P.LimitedSpec(spec)
  {
  }

  // ----- default presentations

  predicate TextFits(t: Option<LocalizedText>) {
    t.Some? ==>
      && (t.value.zhCN.Some? || t.value.enUS.Some?)
      && (t.value.zhCN.Some? ==> 1 <= |t.value.zhCN.value| <= 200)
      && (t.value.enUS.Some? ==> 1 <= |t.value.enUS.value| <= 200)
  }

  ghost predicate DefaultFits(c: Capability, f: CompleteField, surface: string, marshal: Encoder) {
    && (exists d :: IsField(c, f.field, d) && ShownFits(c, d, f, surface))
    && 0 <= f.order <= 10000 && (f.width.Some? ==> 60 <= f.width.value <= 1200) && (f.span.Some? ==> 1 <= f.span.value <= 24)
    && TextFits(f.labelText) && TextFits(f.placeholder) && TextFits(f.help)
    && (f.visibleWhen.Some? ==> WellShaped(f.visibleWhen.value, 0, marshal)) && Mentions(c, f.visibleWhen)
  }

  ghost predicate ShownFits(c: Capability, d: CapabilityField, f: CompleteField, surface: string) {
    && surface in d.surfaces && Offers(c, d, surface, f.component)
    && (surface == "form" && d.required ==> !f.hidden && f.visibleWhen == None)
  }

  ghost predicate DefaultsFit(c: Capability, fields: seq<CompleteField>, surface: string, marshal: Encoder) {
    && (forall i, j :: 0 <= i < j < |fields| ==> fields[i].field != fields[j].field)
    && forall i :: 0 <= i < |fields| ==> DefaultFits(c, fields[i], surface, marshal)
  }

  ghost predicate DefaultActionFits(c: Capability, a: CompleteAction, marshal: Encoder) {
    && (exists d :: IsAction(c, a.action, d) && a.placement in d.placements)
    && TextFits(a.labelText) && TextFits(a.confirm)
    && (a.visibleWhen.Some? ==> WellShaped(a.visibleWhen.value, 0, marshal)) && Mentions(c, a.visibleWhen)
  }

  ghost predicate Contains(fields: seq<CompleteField>, id: string) {
    exists i :: 0 <= i < |fields| && fields[i].field == id
  }

  ghost predicate ShownOn(p: CompletePresentation, surface: string, id: string) {
    || (surface == "list" && Contains(p.columns, id)) || (surface == "search" && Contains(p.searchFields, id))
    || (surface == "form" && Contains(p.formFields, id)) || (surface == "detail" && Contains(p.detailFields, id))
  }

  /** The field is shown on every surface it is registered for. */
  ghost predicate ShownThroughout(p: CompletePresentation, d: CapabilityField) {
    forall i :: 0 <= i < |d.surfaces| ==> ShownOn(p, d.surfaces[i], d.id)
  }

  /** At most three sorts, no two of the same field and direction. */
  ghost predicate SortsOrdered(sorts: seq<Sort>) {
    && |sorts| <= 3
    && (forall i :: 0 <= i < |sorts| ==> IsReference(sorts[i].field) && sorts[i].direction in {"asc", "desc"})
    && forall i, j :: 0 <= i < j < |sorts| ==> sorts[i] != sorts[j]
  }

  ghost predicate PresentationFits(c: Capability, marshal: Encoder) {
    var p := c.defaultPresentation;
    && TextFits(Some(p.title))
    && (exists s :: IsSource(c, p.dataSource, s)) && WithinSource(c, p.dataSource, Some(p.pageSize), Some(p.defaultSort))
    && DefaultsFit(c, p.columns, "list", marshal) && DefaultsFit(c, p.searchFields, "search", marshal)
    && DefaultsFit(c, p.formFields, "form", marshal) && DefaultsFit(c, p.detailFields, "detail", marshal)
    && (forall i :: 0 <= i < |c.fields| ==> ShownThroughout(p, c.fields[i]))
    && (exists i :: 0 <= i < |p.columns| && !p.columns[i].hidden)
    && p.density in {"compact", "middle", "large"} && 1 <= p.pageSize <= 200 && 1 <= p.formColumns <= 4 && 1 <= p.detailColumns <= 4
    && SortsOrdered(p.defaultSort) && SortsFit(c, p.defaultSort)
    && (forall i, j :: 0 <= i < j < |p.actions| ==> p.actions[i].action != p.actions[j].action)
    && forall i :: 0 <= i < |p.actions| ==> DefaultActionFits(c, p.actions[i], marshal)
  }

  lemma DefaultFitsExactly(c: Capability, f: CompleteField, surface: string, marshal: Encoder)
    ensures DefaultFits(c, f, surface, marshal) <==> D.GoodField(f, surface, ContextOf(c), marshal)
  {
    MentionsExactly(c, f.visibleWhen);
    ShownExactly(c, f, surface);
    hide IsField, Mentions, KnownWhen, Definitions, Offers, SupportsComponent, ShownFits, D.WellPlaced, WellShaped;
  }

  lemma ShownExactly(c: Capability, f: CompleteField, surface: string)
    ensures (exists d :: IsField(c, f.field, d) && ShownFits(c, d, f, surface)) <==> D.WellPlaced(f, surface, ContextOf(c))
  {
    forall d ensures IsField(c, f.field, d) <==> f.field in Definitions(c.fields) && Definitions(c.fields)[f.field] == d {
      FieldLookup(c, f.field, d);
    }
    hide IsField, Definitions, Offers, SupportsComponent;
    if f.field in Definitions(c.fields) {
      OffersExactly(c, Definitions(c.fields)[f.field], surface, f.component);
      assert IsField(c, f.field, Definitions(c.fields)[f.field]);
    }
  }

  lemma DefaultsFitExactly(c: Capability, fields: seq<CompleteField>, surface: string, marshal: Encoder)
    ensures DefaultsFit(c, fields, surface, marshal) <==> D.GoodFields(fields, surface, ContextOf(c), marshal)
  {
    hide DefaultFits, D.GoodField, ContextOf;
    forall i | 0 <= i < |fields| ensures DefaultFits(c, fields[i], surface, marshal) <==> D.GoodField(fields[i], surface, ContextOf(c), marshal) {
      DefaultFitsExactly(c, fields[i], surface, marshal);
    }
  }

  lemma DefaultActionsFitExactly(c: Capability, marshal: Encoder)
    ensures D.GoodActions(c.defaultPresentation.actions, ContextOf(c), marshal) <==>
      var actions := c.defaultPresentation.actions;
      && (forall i, j :: 0 <= i < j < |actions| ==> actions[i].action != actions[j].action)
      && forall i :: 0 <= i < |actions| ==> DefaultActionFits(c, actions[i], marshal)
  {
    var actions := c.defaultPresentation.actions;
    forall i | 0 <= i < |actions| ensures DefaultActionFits(c, actions[i], marshal) <==> D.GoodAction(actions[i], ContextOf(c), marshal) {
      DefaultActionFitsExactly(c, actions[i], marshal);
    }
    hide DefaultActionFits, D.GoodAction, ContextOf;
  }

  lemma DefaultActionFitsExactly(c: Capability, a: CompleteAction, marshal: Encoder)
    ensures DefaultActionFits(c, a, marshal) <==> D.GoodAction(a, ContextOf(c), marshal)
  {
    MentionsExactly(c, a.visibleWhen);
    forall d ensures IsAction(c, a.action, d) <==> a.action in Placements(c.actions) && Placements(c.actions)[a.action] == d {
      ActionLookup(c, a.action, d);
    }
    hide IsAction, Mentions, KnownWhen, Definitions, Placements, WellShaped;
    if a.action in Placements(c.actions) { assert IsAction(c, a.action, Placements(c.actions)[a.action]); }
  }

  lemma ShownThroughoutExactly(p: CompletePresentation, d: CapabilityField)
    ensures ShownThroughout(p, d) <==> D.ShownEverywhere(p, d)
  {
    forall i | 0 <= i < |d.surfaces| ensures D.Shows(p, d.surfaces[i], d.id) <==> ShownOn(p, d.surfaces[i], d.id) {
      ShowsExactly(p, d.surfaces[i], d.id);
    }
    hide D.Shows, ShownOn;
  }

  lemma ShowsExactly(p: CompletePresentation, surface: string, id: string)
    ensures D.Shows(p, surface, id) <==> ShownOn(p, surface, id)
  {
    assert "list"[0] != "form"[0] && "search"[0] != "detail"[0];
    var fields := D.CollectionOf(p, surface);
    assert D.Shows(p, surface, id) <==> Contains(fields, id) by {
      if i :| 0 <= i < |fields| && fields[i].field == id {}
    }
    assert !Contains([], id);
    hide D.Shows, Contains;
  }

  lemma SortsOrderedExactly(sorts: seq<Sort>)
    ensures SortsOrdered(sorts) <==> GoodSorts(sorts)
  {
    forall i, j | 0 <= i < j < |sorts| && IsReference(sorts[i].field) && IsReference(sorts[j].field)
      ensures SortKey(sorts[i]) == SortKey(sorts[j]) <==> sorts[i] == sorts[j]
    {
      SortKeySplits(sorts[i], sorts[j]);
    }
    hide SortKey, IsReference;
  }

  lemma SortKeySplits(a: Sort, b: Sort)
    requires IsReference(a.field) && IsReference(b.field)
    ensures SortKey(a) == SortKey(b) <==> a == b
  {
    assert '\0' !in a.field && '\0' !in b.field;
    hide IsReference;
    if SortKey(a) == SortKey(b) {
      var key := SortKey(a);
      assert key[|a.field|] == '\0' && key[|b.field|] == '\0';
      assert forall k :: 0 <= k < |a.field| ==> key[k] == a.field[k];
      assert forall k :: 0 <= k < |b.field| ==> key[k] == b.field[k];
      assert |a.field| == |b.field|;
      assert key[..|a.field|] == a.field && key[..|b.field|] == b.field;
      assert key[|a.field| + 1..] == a.direction && key[|b.field| + 1..] == b.direction;
    }
  }

  /** What ValidateCapability accepts of a default presentation, in plain terms. */
  lemma PresentationFitsExactly(c: Capability, marshal: Encoder)
    ensures D.GoodPresentation(c, marshal) <==> PresentationFits(c, marshal)
  {
    var p := c.defaultPresentation;
    SourceNamed(c, p.dataSource);
    WithinSourceExactly(c, p.dataSource, Some(p.pageSize), Some(p.defaultSort));
    DefaultsFitExactly(c, p.columns, "list", marshal);
    DefaultsFitExactly(c, p.searchFields, "search", marshal);
    DefaultsFitExactly(c, p.formFields, "form", marshal);
    DefaultsFitExactly(c, p.detailFields, "detail", marshal);
    forall i | 0 <= i < |c.fields| ensures ShownThroughout(p, c.fields[i]) <==> D.ShownEverywhere(p, c.fields[i]) {
      ShownThroughoutExactly(p, c.fields[i]);
    }
    SortsOrderedExactly(p.defaultSort);
    SortsFitExactly(c, p.defaultSort);
    DefaultActionsFitExactly(c, marshal);
    StrictIs(c);
    hide DefaultsFit, D.GoodFields, ShownThroughout, D.ShownEverywhere, SortsOrdered, GoodSorts, SortsFit, Sortable, WithinSource,
         DefaultActionFits, D.GoodActions, ContextOf, IsSource, FindDataSource, PageSizeAllowed;
  }

  lemma StrictIs(c: Capability)
    ensures ContextOf(c).strict <==> c.definitionVersion == "2"
  {
  }

  // ----- identifiers and conditions

  predicate IsWord(s: string) {
    s != "" && forall i :: 0 <= i < |s| ==> 'a' <= s[i] <= 'z' || '0' <= s[i] <= '9'
  }

  predicate IsCamel(s: string) {
    forall i :: 0 <= i < |s| ==> 'a' <= s[i] <= 'z' || 'A' <= s[i] <= 'Z' || '0' <= s[i] <= '9'
  }

  /** Words joined by single dots or dashes. */
  ghost predicate IsWords(s: string)
    decreases |s|
  {
    IsWord(s) || exists k :: 0 <= k < |s| && JoinedAt(s, k) && IsWords(s[k + 1..])
  }

  predicate JoinedAt(s: string, k: nat)
    requires k < |s|
  {
    (s[k] == '.' || s[k] == '-') && IsWord(s[..k])
  }

  ghost predicate Separated(s: string) {
    && s != "" && !IsSeparator(s[0])
    && (forall i :: 0 <= i < |s| ==> IsLower(s[i]) || IsDigit(s[i]) || IsSeparator(s[i]))
    && forall i :: 0 <= i < |s| && IsSeparator(s[i]) ==> i + 1 < |s| && !IsSeparator(s[i + 1])
  }

  lemma {:induction false} WordsSeparated(s: string)
    ensures IsWords(s) <==> Separated(s)
    decreases |s|
  {
    if IsWords(s) && !IsWord(s) {
      var k :| 0 <= k < |s| && JoinedAt(s, k) && IsWords(s[k + 1..]);
      WordsSeparated(s[k + 1..]);
      forall i | 0 <= i < |s|
        ensures IsLower(s[i]) || IsDigit(s[i]) || IsSeparator(s[i])
        ensures IsSeparator(s[i]) ==> i + 1 < |s| && !IsSeparator(s[i + 1])
      {
        if i < k { assert s[..k][i] == s[i]; }
        if i > k { assert s[k + 1..][i - k - 1] == s[i]; }
        if i == k { assert s[k + 1..][0] == s[k + 1]; }
      }
      assert s[..k][0] == s[0];
    } else if Separated(s) && !IsWord(s) {
      var k := FirstSeparator(s, 0);
      assert forall i :: 0 <= i < k ==> s[..k][i] == s[i];
      assert JoinedAt(s, k);
      var rest := s[k + 1..];
      assert forall i :: 0 <= i < |rest| ==> rest[i] == s[k + 1 + i];
      WordsSeparated(rest);
    }
  }

  lemma {:induction false} FirstSeparator(s: string, from: nat) returns (k: nat)
    requires from <= |s| && (forall i :: 0 <= i < from ==> !IsSeparator(s[i])) && exists i :: 0 <= i < |s| && IsSeparator(s[i])
    ensures k < |s| && IsSeparator(s[k]) && forall i :: 0 <= i < k ==> !IsSeparator(s[i])
    decreases |s| - from
  {
    if IsSeparator(s[from]) {
      k := from;
    } else {
      k := FirstSeparator(s, from + 1);
    }
  }

  /** An identifier is 2 to 120 characters of words joined by single dots or dashes, the first
      starting with a letter; a reference is that, or a name in camel case, from 1 on. */
  lemma IdentifiersExactly(s: string)
    ensures IsIdentifier(s) <==> 2 <= |s| <= 120 && 'a' <= s[0] <= 'z' && IsWords(s)
    ensures IsReference(s) <==> 1 <= |s| <= 120 && 'a' <= s[0] <= 'z' && (IsWords(s) || IsCamel(s))
  {
    WordsSeparated(s);
    hide IsWords;
  }

  ghost predicate GroupFits(group: Group, depth: nat, marshal: Encoder)
    requires depth <= 8
  {
    group.Group? && 1 <= |group.items| <= 20 && forall i :: 0 <= i < |group.items| ==> WellShaped(group.items[i], depth + 1, marshal)
  }

  /** A well-shaped condition is exactly one of: 1 to 20 conditions of which all, or any, must
      hold; a condition that must not; or a field with an operator and, unless that asks for
      presence, a value. None is nested deeper than 8. */
  lemma ConditionExactly(c: Condition, depth: nat, marshal: Encoder)
    ensures WellShaped(c, depth, marshal) <==>
      depth <= 8 &&
      var bare := c.field == None && c.operator == None && c.value == None;
      || (bare && c.any == Absent && c.not == None && GroupFits(c.all, depth, marshal))
      || (bare && c.all == Absent && c.not == None && GroupFits(c.any, depth, marshal))
      || (bare && c.all == Absent && c.any == Absent && c.not.Some? && WellShaped(c.not.value, depth + 1, marshal))
      || (c.all == Absent && c.any == Absent && c.not == None && c.field.Some? && IsReference(c.field.value) && c.operator.Some?
          && ((c.operator.value in {"exists", "not-exists"} && c.value == None)
              || (c.operator.value in {"eq", "neq", "in", "not-in", "gt", "gte", "lt", "lte"} && c.value.Some? && GoodValue(c.value.value, marshal))))
  {
    hide GoodValue, IsReference;
    if c.operator.Some? { OperatorsExactly(c.operator.value); }
    hide IsOperator, IsPresence;
  }

  lemma OperatorsExactly(operator: string)
    ensures IsPresence(operator) <==> operator in {"exists", "not-exists"}
    ensures IsOperator(operator) <==> operator in {"eq", "neq", "in", "not-in", "exists", "not-exists", "gt", "gte", "lt", "lte"}
  {
  }
}
