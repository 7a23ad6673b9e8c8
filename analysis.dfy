/** The analysis run of `analyzeFiles`: tell the two documents apart by the
    `Name` of their root elements, parse both, pick the report date and
    reconcile. Every error the run throws is a `Failure`. */
module Analysis {
  import opened Wrappers
  import opened Xml
  import opened Errors
  import opened AuthRegister
  import opened CompilationSheet
  import opened ReportDate
  import opened Reconcile

  const AuthReportName := "RptSancDig_EPaymentAuthorizationIssueRegister"
  const CompilationReportName := "RptSancDig_VoucherCompilationSheet"

  /** The authorization register and the compilation sheet, in that order,
      whichever order the two documents came in. */
  function IdentifyPair(d1: Document, d2: Document): Result<(Document, Document), AnalysisError> {
    if RootName(d1) == Some(AuthReportName) && RootName(d2) == Some(CompilationReportName) then
      Success((d1, d2))
    else if RootName(d2) == Some(AuthReportName) && RootName(d1) == Some(CompilationReportName) then
      Success((d2, d1))
    else
      Failure(UnidentifiedReportPair)
  }

  /** The pair is identified exactly when one document is each report; the
      register comes first, and the order of upload does not matter. */
  lemma IdentifyPairSpec(d1: Document, d2: Document)
    ensures var r := IdentifyPair(d1, d2);
      && (r.Success? <==>
            (RootName(d1) == Some(AuthReportName) && RootName(d2) == Some(CompilationReportName))
            || (RootName(d2) == Some(AuthReportName) && RootName(d1) == Some(CompilationReportName)))
      && (r.Failure? ==> r.error == UnidentifiedReportPair)
      && (r.Success? ==>
            RootName(r.value.0) == Some(AuthReportName) && RootName(r.value.1) == Some(CompilationReportName)
            && (r.value == (d1, d2) || r.value == (d2, d1)))
    ensures IdentifyPair(d1, d2) == IdentifyPair(d2, d1)
  {
    assert AuthReportName != CompilationReportName by {
      assert AuthReportName[11] != CompilationReportName[11];
    }
  }

  /** The outcome of a run on two documents: the first error in the order
      the source meets them, or the reconciliation of the sheet's vouchers
      against the register, dated by the sheet's date or else the
      register's. */
  function AnalysisSpec(d1: Document, d2: Document): Result<Reconciled, AnalysisError> {
    match IdentifyPair(d1, d2)
    case Failure(e) => Failure(e)
    case Success((auth, compilation)) =>
      if HasParseError(auth) then Failure(AuthRegisterMalformed)
      else if HasParseError(compilation) then Failure(CompilationSheetMalformed)
      else
        ReconcileSpec(
          AllVouchers(DocElementsByTag(compilation, DdoTag)),
          AuthMap(DocElementsByTag(auth, AuthRegister.VoucherTag)),
          ResolveReportDate(CompilationDate(compilation), IssueDate(auth)))
  }

  /** The body of the `try` block of `analyzeFiles`. */
  method AnalyzeDocuments(d1: Document, d2: Document) returns (r: Result<Reconciled, AnalysisError>)
    ensures r == AnalysisSpec(d1, d2)
  {
    var pair := IdentifyPair(d1, d2);
    if pair.Failure? {
      return Failure(pair.error);
    }
    var (auth, compilation) := pair.value;
    var authData := ParsePaymentAuth(auth);
    if authData.Failure? {
      return Failure(authData.error);
    }
    var compilationData := ParseCompilationSheet(compilation);
    if compilationData.Failure? {
      return Failure(compilationData.error);
    }
    var reportDate := ResolveReportDate(compilationData.value.reportDate, authData.value.issueDate);
    r := ReconcileData(compilationData.value.vouchers, authData.value.voucherDetailsMap, reportDate);
  }

  /** Which documents were uploaded first does not change the outcome; a
      successful run is dated without dashes and accounts for every voucher
      of the sheet once. */
  lemma AnalysisSpecProperties(d1: Document, d2: Document)
    ensures AnalysisSpec(d1, d2) == AnalysisSpec(d2, d1)
    ensures AnalysisSpec(d1, d2).Success? ==>
      var r := AnalysisSpec(d1, d2).value;
      var (auth, compilation) := IdentifyPair(d1, d2).value;
      && '-' !in r.issueDate
      && |r.ncddoNormalBills| + |r.ncddoEBills| + |r.cddoNormalBills| + |r.cddoEBills|
         == |AllVouchers(DocElementsByTag(compilation, DdoTag))|
  {
    IdentifyPairSpec(d1, d2);
    if AnalysisSpec(d1, d2).Success? {
      var (auth, compilation) := IdentifyPair(d1, d2).value;
      var vouchers := AllVouchers(DocElementsByTag(compilation, DdoTag));
      var date := ResolveReportDate(CompilationDate(compilation), IssueDate(auth));
      ReportDateShape(auth, compilation);
      ReconcileAccountsForAll(vouchers, AuthMap(DocElementsByTag(auth, AuthRegister.VoucherTag)), date);
    }
  }

  /** The errors come in the source's order: an unidentified pair before
      anything is parsed, a malformed register before the sheet is looked
      at, a malformed sheet before reconciling. */
  lemma AnalysisErrorOrder(d1: Document, d2: Document)
    ensures AnalysisSpec(d1, d2) == Failure(UnidentifiedReportPair) <==> IdentifyPair(d1, d2).Failure?
    ensures IdentifyPair(d1, d2).Success? ==>
      (AnalysisSpec(d1, d2) == Failure(AuthRegisterMalformed) <==> HasParseError(IdentifyPair(d1, d2).value.0))
    ensures IdentifyPair(d1, d2).Success? && !HasParseError(IdentifyPair(d1, d2).value.0) ==>
      (AnalysisSpec(d1, d2) == Failure(CompilationSheetMalformed) <==> HasParseError(IdentifyPair(d1, d2).value.1))
  {
    IdentifyPairSpec(d1, d2);
  }
}
