/** The diagnostics the semantic analyzer records. */
module AnalysisErrors {
  import FsmSyntax

  datatype AnalysisErrorId =
    | NoFsm
    | NoInitial
    | InvalidHeader
    | ExtraHeaderIgnored
    | UndefinedState
    | UndefinedSuperState
    | UnusedState
    | DuplicateTransition
    | AbstractStateUsedAsNextState
    | InconsistentAbstraction
    | StateActionsMultiplyDefined
    | ConflictingSuperstates

  /** The optional second argument of an error: the offending header or a text. */
  datatype Extra = NoExtra | HeaderExtra(header: FsmSyntax.Header) | TextExtra(text: string)

  datatype AnalysisError = AnalysisError(id: AnalysisErrorId, extra: Extra)
}
