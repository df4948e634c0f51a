/** Results and the stable error codes shared by every component. */
module Prelude {

  datatype Option<+T> = None | Some(value: T)

  datatype Result<+T> = Ok(value: T) | Err(code: Code)

  /** The machine-readable error classes. `Fault` stands for an error that carries no
      class: an injected fault, a failed identifier allocation or an unreadable revision. */
  datatype Code =
    | InvalidContract
    | UnknownKey
    | SemanticNull
    | Duplicate
    | UnsupportedVersion
    | UnsupportedCapability
    | ToolFunctionUnresolved
    | ParameterInvalid
    | EdgeInvalid
    | GraphCycle
    | Q16Mismatch
    | CardinalityUnsupported
    | ProviderMissing
    | ProviderConflict
    | AssetUnresolved
    | SlotInvalid
    | OperationConflict
    | Integrity
    | NotFound
    | MissingCoordinate
    | RunIDConflict
    | PolicyRetired
    | PolicyStale
    | FrontierInvalid
    | InvalidTransition
    | MissingFrozenInput
    | InvalidFrozenInput
    | RunnableUnresolved
    | AuthorizationUnknown
    | AuthorizationDenied
    | NotRepresentable
    | SameSourceViolation
    | Fault
}
