/** The ways an analysis run can fail. Each is raised (thrown) by the analysis
    routine and turned into a status message by the session. */
module Errors {

  datatype AnalysisError =
    | UnidentifiedReportPair      // the two root `Name` attributes are not one of each report
    | AuthRegisterMalformed       // a `parsererror` element in the authorization register
    | CompilationSheetMalformed   // a `parsererror` element in the compilation sheet
    | MissingDdoName              // `toUpperCase` called on a null office name (V8's wording)

  /** The `message` of the error object the analysis routine catches. */
  function Message(e: AnalysisError): (m: string)
    ensures m != ""
  {
    match e
    case UnidentifiedReportPair => "Could not identify report types. Please upload one of each."
    case AuthRegisterMalformed => "Failed to parse E-Payment Authorization Register."
    case CompilationSheetMalformed => "Failed to parse Voucher Compilation Sheet."
    case MissingDdoName => "Cannot read properties of null (reading 'toUpperCase')"
  }
}
