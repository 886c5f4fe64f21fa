/** The configuration choices that more than one layer looks at. */
module Config {
  datatype ClientQos = QosEnabled | QosDisabled
  datatype ServerQos = AutomaticRetry | Propagate429And503ToCaller
  datatype ServiceError = WrapInNewError | PropagateToCaller
  datatype Idempotency = Always | ByMethod | Never
  datatype NodeSelectionStrategy = PinUntilError | PinUntilErrorWithoutReshuffle | Balanced
  datatype ErrorParameterFormat = Legacy | Json
}
