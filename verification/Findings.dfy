/** Every issue that admin/presentation/validation.go can report: its code, where below the
    checked value it points, and its message. */
module Findings {

  datatype Issue = Issue(code: string, path: string, message: string)

  datatype Problem =
    // nulls, texts and identifiers
    | UnexpectedNull
    | TextEmpty
    | TextLength(locale: string)
    | IdentifierInvalid
    | ReferenceInvalid
    // conditions
    | ConditionDepth
    | ConditionVariants
    | ConditionFieldMissing
    | ConditionOperatorMissing
    | ConditionOperatorUnknown
    | ConditionValueUnexpected
    | ConditionValueMissing
    | ConditionValueMalformed(error: string)
    | ConditionValueSize
    | ConditionItemNotScalar
    | ConditionItemRepeated
    | ConditionValueNotScalar
    | ConditionGroupSize
    | ConditionFieldUnknown
    // the shape of a profile
    | DocumentEmpty
    | DocumentTooLarge
    | JsonInvalid(error: string)
    | DocumentInvalid(error: string)
    | ApiVersion
    | ProfileKind
    | ProfileHash
    | DescriptionLength
    | ScopeSubjectUnexpected
    | ScopeSubjectMissing
    | ScopeSubjectInvalid
    | ScopeKind
    | SpecEmpty
    | ListEmpty
    | SearchEmpty
    | LayoutEmpty
    | TooManyActions
    | TooManyFields
    | PatchDensity
    | PatchPageSize
    | PatchColumns
    | PatchOrder
    | PatchWidth
    | PatchSpan
    | PatchPlacement
    | PatchActionOrder
    | TooManySorts
    | SortDirection
    | SortRepeated
    // a profile against its capability
    | ProfileMissing
    | PageUnknown
    | PageKeyMismatch
    | DefinitionDrift
    | ProfileDataSource
    | SortFields
    | PageSizeLimit
    | PageSizeOption
    | PatchFieldRepeated
    | PatchFieldUnknown
    | PatchFieldSurface
    | PatchComponentUnknown
    | PatchComponentUnsupported
    | RequiredHidden
    | RequiredConditional
    | SortFieldUnknown
    | SortFieldUnsortable
    | PatchActionRepeated
    | PatchActionUnknown
    | PatchActionPlacement
    | LimitedSurface
    // the identity of a capability
    | CapabilityMissing
    | ProtectedPage
    | VersionMissing
    | VersionUnsupported
    | HashInvalid
    | HashComputation(error: string)
    | HashMismatch
    | IdInvalid
    | IdRepeated
    | FieldIdInvalid
    | FieldIdInvalidVersion1
    // the fields, data sources and actions of a capability
    | ValueType
    | Nullability
    | MinLength
    | MaxLength
    | LengthRange
    | PatternInvalid
    | PatternNotPortable
    | Format
    | NumberBound(bound: string)
    | NumberRange
    | Precision
    | Scale
    | ScaleBeyondPrecision
    | EnumValue
    | EnumValueRepeated
    | EnumValuesMissing
    | EnumValuesUnexpected
    | SurfacesMissing
    | SurfaceInvalid
    | SurfaceRepeated
    | ComponentsMissing
    | ComponentUnknown
    | ComponentRepeated
    | MappingsMissing
    | MappingSurfaceInvalid
    | MappingSurfaceUndeclared
    | MappingSurfaceRepeated
    | MappingEmpty
    | MappingComponentUnknown
    | MappingComponentUndeclared
    | MappingComponentRepeated
    | SurfaceUnmapped(surface: string)
    | ComponentUnused(component: string)
    | PermissionsMissing
    | PermissionInvalid
    | PermissionRepeated
    | SourcePageSize
    | SourceOptionsMissing
    | SourceOptionInvalid
    | SourceOptionRepeated
    | SourceOptionUnsorted
    | SourceSortFields
    | PlacementsMissing
    | PlacementInvalid
    | PlacementRepeated
    // the default presentation of a capability
    | LimitedCondition
    | DefaultDataSource
    | DefaultFieldRepeated
    | DefaultFieldUnknown
    | DefaultFieldSurface
    | DefaultComponentUnknown
    | DefaultComponentUnsupported
    | DefaultOrder
    | DefaultWidth
    | DefaultSpan
    | DefaultFieldMissing(surface: string)
    | NothingVisible
    | DefaultDensity
    | DefaultPageSize
    | DefaultFormColumns
    | DefaultDetailColumns
    | DefaultActionRepeated
    | DefaultActionUnknown
    | DefaultActionPlacement

  /** The issue for a problem with the value at `path`. */
  function At(problem: Problem, path: string): Issue {
    match problem
    // nulls, texts and identifiers
    case UnexpectedNull => Issue("unexpected-null", path, "null is not allowed here")
    case TextEmpty => Issue("empty-localized-text", path, "localized text requires zh-CN or en-US")
    case TextLength(locale) => Issue("invalid-localized-text", path + "." + locale, "localized text must contain 1 to 200 characters")
    case IdentifierInvalid => Issue("invalid-identifier", path, "value must be a stable lowercase identifier")
    case ReferenceInvalid => Issue("invalid-identifier", path + ".field", "value must be a stable field identifier")
    // conditions
    case ConditionDepth => Issue("condition-depth", path, "condition depth exceeds 8")
    case ConditionVariants => Issue("invalid-condition-shape", path, "condition must contain exactly one predicate, all, any, or not variant")
    case ConditionFieldMissing => Issue("missing-condition-field", path + ".field", "predicate field is required")
    case ConditionOperatorMissing => Issue("missing-condition-operator", path + ".operator", "predicate operator is required")
    case ConditionOperatorUnknown => Issue("unknown-condition-operator", path + ".operator", "condition operator is not supported")
    case ConditionValueUnexpected => Issue("unexpected-condition-value", path + ".value", "presence operators take no value")
    case ConditionValueMissing => Issue("missing-condition-value", path + ".value", "comparison operator requires a value")
    case ConditionValueMalformed(error) => Issue("invalid-condition-value", path, error)
    case ConditionValueSize => Issue("condition-value-size", path, "condition value array must contain 1 to 50 items")
    case ConditionItemNotScalar => Issue("invalid-condition-value", path, "condition values must be scalar")
    case ConditionItemRepeated => Issue("duplicate-condition-value", path, "condition value array contains a duplicate")
    case ConditionValueNotScalar => Issue("invalid-condition-value", path, "condition value must be a scalar or scalar array")
    case ConditionGroupSize => Issue("condition-size", path, "condition group must contain 1 to 20 items")
    case ConditionFieldUnknown => Issue("unknown-condition-field", path + ".field", "condition references an unknown field")
    // the shape of a profile
    case DocumentEmpty => Issue("empty-document", path, "presentation document is empty")
    case DocumentTooLarge => Issue("document-too-large", path, "presentation document exceeds 131072 bytes")
    case JsonInvalid(error) => Issue("invalid-json", path, error)
    case DocumentInvalid(error) => Issue("invalid-document", path, error)
    case ApiVersion => Issue("invalid-api-version", path, "apiVersion must be mss.io/v1alpha1")
    case ProfileKind => Issue("invalid-kind", path, "kind must be AdminPagePresentation")
    case ProfileHash => Issue("invalid-definition-hash", path, "definition hash must use sha256 and 64 lowercase hexadecimal characters")
    case DescriptionLength => Issue("description-too-long", path, "description exceeds 500 characters")
    case ScopeSubjectUnexpected => Issue("unexpected-scope-subject", path, "application scope cannot contain a subject")
    case ScopeSubjectMissing => Issue("missing-scope-subject", path, "role scope requires a subject")
    case ScopeSubjectInvalid => Issue("invalid-scope-subject", path, "role and user scope subjects must contain 1 to 160 characters")
    case ScopeKind => Issue("invalid-scope-kind", path, "scope kind must be application, role, or user")
    case SpecEmpty => Issue("empty-spec", path, "presentation spec needs at least one property")
    case ListEmpty => Issue("empty-list", path, "list needs at least one property")
    case SearchEmpty => Issue("empty-search", path, "search needs at least one property")
    case LayoutEmpty => Issue("empty-layout", path, "layout needs at least one property")
    case TooManyActions => Issue("too-many-actions", path, "actions exceed the limit of 64")
    case TooManyFields => Issue("too-many-fields", path, "field collection exceeds the limit of 100")
    case PatchDensity => Issue("invalid-density", path + ".density", "density must be compact, middle, or large")
    case PatchPageSize => Issue("invalid-page-size", path + ".pageSize", "page size must be 1 to 200")
    case PatchColumns => Issue("invalid-layout-columns", path + ".columns", "layout columns must be 1 to 4")
    case PatchOrder => Issue("invalid-field-order", path + ".order", "field order must be 0 to 10000")
    case PatchWidth => Issue("invalid-field-width", path + ".width", "field width must be 60 to 1200")
    case PatchSpan => Issue("invalid-field-span", path + ".span", "field span must be 1 to 24")
    case PatchPlacement => Issue("invalid-action-placement", path + ".placement", "action placement is not supported")
    case PatchActionOrder => Issue("invalid-action-order", path + ".order", "action order must be 0 to 10000")
    case TooManySorts => Issue("too-many-sort-fields", path, "default sort exceeds the limit of 3")
    case SortDirection => Issue("invalid-sort-direction", path + ".direction", "sort direction must be asc or desc")
    case SortRepeated => Issue("duplicate-sort", path, "default sort contains a duplicate entry")
    // a profile against its capability
    case ProfileMissing => Issue("missing-profile", path, "presentation profile is required")
    case PageUnknown => Issue("unknown-page", path, "page is not registered by the server")
    case PageKeyMismatch => Issue("page-key-mismatch", path, "profile page key does not match the selected capability")
    case DefinitionDrift => Issue("definition-drift", path, "profile definition hash does not match the current capability")
    case ProfileDataSource => Issue("unknown-data-source", path, "profile references an unknown data source")
    case SortFields => Issue("too-many-data-source-sort-fields", path, "default sort exceeds the compiled data source limit")
    case PageSizeLimit => Issue("page-size-exceeds-data-source-limit", path, "page size exceeds the compiled data source maximum")
    case PageSizeOption => Issue("unsupported-page-size", path, "page size is not allowed by the compiled data source")
    case PatchFieldRepeated => Issue("duplicate-field", path + ".field", "field is configured more than once")
    case PatchFieldUnknown => Issue("unknown-field", path + ".field", "profile references an unknown field")
    case PatchFieldSurface => Issue("unsupported-field-surface", path + ".field", "field is not registered for this surface")
    case PatchComponentUnknown => Issue("unknown-component", path + ".component", "profile references an unknown component")
    case PatchComponentUnsupported => Issue("unsupported-field-component", path + ".component", "component is not allowed for this field")
    case RequiredHidden => Issue("required-form-field-hidden", path + ".hidden", "required form field cannot be hidden")
    case RequiredConditional => Issue("required-form-field-conditional", path + ".visibleWhen", "required form field cannot be conditionally hidden")
    case SortFieldUnknown => Issue("unknown-sort-field", path + ".field", "sort references an unknown field")
    case SortFieldUnsortable => Issue("unsupported-sort-field", path + ".field", "field is not sortable")
    case PatchActionRepeated => Issue("duplicate-action", path + ".action", "action is configured more than once")
    case PatchActionUnknown => Issue("unknown-action", path + ".action", "profile references an unknown action")
    case PatchActionPlacement => Issue("unsupported-action-placement", path + ".placement", "action cannot use this placement")
    case LimitedSurface => Issue("unsupported-limited-surface", path, "property is not supported by limited table pages")
    // the identity of a capability
    case CapabilityMissing => Issue("missing-capability", path, "capability definition is required")
    case ProtectedPage => Issue("protected-page", path, "protected core page cannot be presentation-configurable")
    case VersionMissing => Issue("missing-definition-version", path, "definition version is required")
    case VersionUnsupported => Issue("unsupported-definition-version", path, "definition version must be 1 or 2")
    case HashInvalid => Issue("invalid-definition-hash", path, "definition hash is invalid")
    case HashComputation(error) => Issue("definition-hash-computation", path, error)
    case HashMismatch => Issue("definition-hash-mismatch", path, "definition hash does not match the canonical compatibility contract")
    case IdInvalid => Issue("invalid-identifier", path + ".id", "value must be a stable lowercase identifier")
    case IdRepeated => Issue("duplicate-capability-id", path + ".id", "capability identifier is duplicated")
    case FieldIdInvalid => Issue("invalid-field-identifier", path + ".id", "field id must be a stable lower-camel identifier")
    case FieldIdInvalidVersion1 => Issue("invalid-field-identifier", path + ".id", "field id must be a stable version 1 identifier")
    // the fields, data sources and actions of a capability
    case ValueType => Issue("invalid-field-value-type", path + ".valueType", "field value type is not supported")
    case Nullability => Issue("conflicting-field-nullability", path, "required and nullable cannot both be true")
    case MinLength => Issue("invalid-field-min-length", path + ".validation.minLength", "minimum length cannot be negative")
    case MaxLength => Issue("invalid-field-max-length", path + ".validation.maxLength", "maximum length cannot be negative")
    case LengthRange => Issue("invalid-field-length-range", path + ".validation", "minimum length cannot exceed maximum length")
    case PatternInvalid => Issue("invalid-field-pattern", path + ".validation.pattern", "field pattern is invalid")
    case PatternNotPortable => Issue("non-portable-field-pattern", path + ".validation.pattern", "field pattern must use the portable Go and ECMAScript subset")
    case Format => Issue("unsupported-field-format", path + ".format", "field format is not supported")
    case NumberBound(bound) => Issue("invalid-field-number-bound", path + ".validation." + bound, "numeric bound must be a finite decimal string")
    case NumberRange => Issue("invalid-field-number-range", path + ".validation", "minimum cannot exceed maximum")
    case Precision => Issue("invalid-field-precision", path + ".validation.precision", "precision must be 1 to 38")
    case Scale => Issue("invalid-field-scale", path + ".validation.scale", "scale must be 0 to 38")
    case ScaleBeyondPrecision => Issue("invalid-field-scale", path + ".validation.scale", "scale cannot exceed precision")
    case EnumValue => Issue("invalid-enum-value", path + ".value", "enum value must be a stable lower-case token")
    case EnumValueRepeated => Issue("duplicate-enum-value", path + ".value", "enum value is duplicated")
    case EnumValuesMissing => Issue("missing-enum-values", path + ".enumValues", "enum field needs values")
    case EnumValuesUnexpected => Issue("unexpected-enum-values", path + ".enumValues", "enum values require enum value type")
    case SurfacesMissing => Issue("missing-field-surface", path + ".surfaces", "field needs at least one surface")
    case SurfaceInvalid => Issue("invalid-field-surface", path, "surface is not supported")
    case SurfaceRepeated => Issue("duplicate-field-surface", path, "surface is duplicated")
    case ComponentsMissing => Issue("missing-field-component", path + ".components", "field needs at least one component")
    case ComponentUnknown => Issue("unknown-field-component", path, "field references an unknown component")
    case ComponentRepeated => Issue("duplicate-field-component", path, "field component is duplicated")
    case MappingsMissing => Issue("missing-surface-components", path, "version 2 field needs component choices for every surface")
    case MappingSurfaceInvalid => Issue("invalid-field-surface", path + ".surface", "surface is not supported")
    case MappingSurfaceUndeclared => Issue("unexpected-surface-components", path + ".surface", "surface components reference an undeclared field surface")
    case MappingSurfaceRepeated => Issue("duplicate-surface-components", path + ".surface", "surface component mapping is duplicated")
    case MappingEmpty => Issue("missing-surface-component", path + ".components", "surface needs at least one component")
    case MappingComponentUnknown => Issue("unknown-field-component", path, "surface references an unknown component")
    case MappingComponentUndeclared => Issue("surface-component-mismatch", path, "surface component is missing from the field component inventory")
    case MappingComponentRepeated => Issue("duplicate-field-component", path, "surface component is duplicated")
    case SurfaceUnmapped(surface) => Issue("missing-surface-components", path, "surface component mapping is missing for " + surface)
    case ComponentUnused(component) => Issue("surface-component-mismatch", path, "field component is not available on any surface: " + component)
    case PermissionsMissing => Issue("missing-permission", path, "at least one trusted permission is required")
    case PermissionInvalid => Issue("invalid-permission", path, "trusted permission must be non-empty and bounded")
    case PermissionRepeated => Issue("duplicate-permission", path, "trusted permission is duplicated")
    case SourcePageSize => Issue("invalid-max-page-size", path + ".maxPageSize", "maximum page size must be 1 to 200")
    case SourceOptionsMissing => Issue("missing-page-size-options", path + ".pageSizeOptions", "version 2 data source needs page size options")
    case SourceOptionInvalid => Issue("invalid-page-size-option", path, "page size option must be within the data source maximum")
    case SourceOptionRepeated => Issue("duplicate-page-size-option", path, "page size option is duplicated")
    case SourceOptionUnsorted => Issue("unsorted-page-size-options", path, "page size options must be strictly increasing")
    case SourceSortFields => Issue("invalid-max-sort-fields", path + ".maxSortFields", "maximum sort fields must be 0 to 3")
    case PlacementsMissing => Issue("missing-action-placement", path + ".placements", "action needs at least one placement")
    case PlacementInvalid => Issue("invalid-action-placement", path, "action placement is not supported")
    case PlacementRepeated => Issue("duplicate-action-placement", path, "action placement is duplicated")
    // the default presentation of a capability
    case LimitedCondition => Issue("unsupported-limited-condition", path + ".visibleWhen", "visibility conditions are not supported by limited table pages")
    case DefaultDataSource => Issue("unknown-data-source", path, "default presentation references an unknown data source")
    case DefaultFieldRepeated => Issue("duplicate-field", path + ".field", "default field is duplicated")
    case DefaultFieldUnknown => Issue("unknown-field", path + ".field", "default presentation references an unknown field")
    case DefaultFieldSurface => Issue("unsupported-field-surface", path + ".field", "default field is not registered for this surface")
    case DefaultComponentUnknown => Issue("unknown-component", path + ".component", "default presentation references an unknown component")
    case DefaultComponentUnsupported => Issue("unsupported-field-component", path + ".component", "default component is not allowed for the field")
    case DefaultOrder => Issue("invalid-field-order", path + ".order", "default field order must be 0 to 10000")
    case DefaultWidth => Issue("invalid-field-width", path + ".width", "default field width must be 60 to 1200")
    case DefaultSpan => Issue("invalid-field-span", path + ".span", "default field span must be 1 to 24")
    case DefaultFieldMissing(surface) => Issue("missing-default-field", path + "." + surface, "registered field is missing from its default surface")
    case NothingVisible => Issue("empty-list-presentation", path + ".columns", "at least one list column must be visible")
    case DefaultDensity => Issue("invalid-density", path + ".density", "default density is invalid")
    case DefaultPageSize => Issue("invalid-page-size", path + ".pageSize", "default page size must be 1 to 200")
    case DefaultFormColumns => Issue("invalid-layout-columns", path + ".form.columns", "default form columns must be 1 to 4")
    case DefaultDetailColumns => Issue("invalid-layout-columns", path + ".detail.columns", "default detail columns must be 1 to 4")
    case DefaultActionRepeated => Issue("duplicate-action", path + ".action", "default action is duplicated")
    case DefaultActionUnknown => Issue("unknown-action", path + ".action", "default presentation references an unknown action")
    case DefaultActionPlacement => Issue("unsupported-action-placement", path + ".placement", "default action placement is unsupported")
  }
}
