/** The early errors reported by the modelled part of the analyzer. */
module ParseErrors {
  import opened Ast

  datatype DuplicateParametersReason = StrictMode | ArrowFunction | MethodParameters | NonSimpleParameters

  datatype Error =
    | DuplicateLabel
    | LabelNotFound
    | InvalidLabeledFunction(always: bool)
    | UnlabeledBreakOutsideBreakable
    | ContinueOutsideIterable
    | ReturnOutsideFunction
    | WithInStrictMode
    | DeleteIdentifierInStrictMode
    | DeletePrivateProperty
    | AssignEvalInStrictMode
    | AssignArgumentsInStrictMode
    | ArgumentsInClassInitializer
    | SuperPropertyOutsideMethod
    | SuperCallOutsideDerivedConstructor
    | NewTargetOutsideFunction
    | AwaitInParameters
    | AwaitInStaticInitializer
    | YieldInParameters
    | UseStrictFunctionNonSimpleParameterList
    | InvalidDuplicateParameters(reason: DuplicateParametersReason)
    | DuplicatePrivateName(name: Name)
    | PrivateNameConstructor
    | PrivateNameOutsideClass
    | PrivateNameNotDefined(name: Name)
}
