/** The parser of the voucher compilation sheet. For every `DDOName` element
    it reads the office name and, for each `VoucherNumber` element below it
    that carries a non-empty `VoucherNumber1`, the de-duplicated object and
    function heads of its `Details` elements. */
module CompilationSheet {
  import opened Wrappers
  import opened Text
  import opened Xml
  import opened Errors
  import opened OrderedSet
  import opened Heads
  import ReportDate

  const DdoTag := "DDOName"
  const DdoNameTag := "Textbox11"
  const DdoNameAttr := "DDOName"
  const VoucherTag := "VoucherNumber"
  const VoucherNumberAttr := "VoucherNumber1"
  const DetailsTag := "Details"
  const ObjectHeadAttr := "ObjectHead"
  const FuncHeadAttr := "FuncHead"

  /** One voucher of the sheet. The office name is null when the office's
      `Textbox11` element has no `DDOName` attribute. */
  datatype Voucher = Voucher(voucherNumber: string, ddoName: Option<string>, objectHeads: seq<string>, funcHeads: seq<string>)

  datatype CompilationData = CompilationData(vouchers: seq<Voucher>, reportDate: string)

  /** The office name: the `DDOName` attribute of the first `Textbox11`
      below the office element, or '' when there is no such element. */
  function DdoNameOf(ddo: Element): Option<string> {
    match ElementQuery(ddo, DdoNameTag)
    case None => Some("")
    case Some(el) => Attr(el, DdoNameAttr)
  }

  /** The head a detail yields for the attribute, if it survives. */
  function HeadOf(detail: Element, attrName: string): Option<string> {
    ProcessHead(Attr(detail, attrName))
  }

  /** What each detail yields for the attribute, in order. */
  function HeadOptions(details: seq<Element>, attrName: string): (r: seq<Option<string>>)
    ensures |r| == |details|
    ensures forall i :: 0 <= i < |details| ==> r[i] == HeadOf(details[i], attrName)
  {
    seq(|details|, i requires 0 <= i < |details| => HeadOf(details[i], attrName))
  }

  /** The present values, in order, repetitions included. */
  function Present<T>(xs: seq<Option<T>>): seq<T>
    decreases |xs|
  {
    if xs == [] then []
    else
      var prev := Present(xs[..|xs| - 1]);
      match xs[|xs| - 1]
      case None => prev
      case Some(x) => prev + [x]
  }

  /** A value is present exactly when some entry holds it. */
  lemma {:induction false} PresentMembers<T>(xs: seq<Option<T>>)
    ensures forall x :: x in Present(xs) ==> Some(x) in xs
    ensures forall i :: 0 <= i < |xs| && xs[i].Some? ==> xs[i].value in Present(xs)
    decreases |xs|
  {
    if xs != [] {
      var init := xs[..|xs| - 1];
      PresentMembers(init);
      assert xs == init + [xs[|xs| - 1]];
    }
  }

  /** The set of heads of one voucher, in first-seen order. */
  function HeadSet(details: seq<Element>, attrName: string): seq<string> {
    Distinct(Present(HeadOptions(details, attrName)))
  }

  /** The heads of a voucher are duplicate-free, non-empty, trimmed and not
      generic, and are exactly the heads its details yield. */
  lemma HeadSetWellFormed(details: seq<Element>, attrName: string)
    ensures NoDuplicates(HeadSet(details, attrName))
    ensures forall h :: h in HeadSet(details, attrName) ==> h != "" && IsTrimmed(h) && !IsGeneric(h)
    ensures forall h :: h in HeadSet(details, attrName) <==>
      exists i :: 0 <= i < |details| && HeadOf(details[i], attrName) == Some(h)
  {
    var opts := HeadOptions(details, attrName);
    DistinctMembers(Present(opts));
    PresentMembers(opts);
    forall h | h in HeadSet(details, attrName)
      ensures exists i :: 0 <= i < |details| && HeadOf(details[i], attrName) == Some(h)
    {
      var i :| 0 <= i < |opts| && opts[i] == Some(h);
    }
    forall h | h in HeadSet(details, attrName)
      ensures h != "" && IsTrimmed(h) && !IsGeneric(h)
    {
      var i :| 0 <= i < |details| && HeadOf(details[i], attrName) == Some(h);
      ProcessHeadKept(Attr(details[i], attrName));
    }
  }

  /** The voucher a `VoucherNumber` element yields; none when its
      `VoucherNumber1` attribute is missing or empty. */
  function VoucherOf(ddoName: Option<string>, node: Element): Option<Voucher> {
    match Attr(node, VoucherNumberAttr)
    case None => None
    case Some(n) =>
      if n == "" then None
      else
        var details := ElementsByTag(node, DetailsTag);
        Some(Voucher(n, ddoName, HeadSet(details, ObjectHeadAttr), HeadSet(details, FuncHeadAttr)))
  }

  /** A `VoucherNumber` element is skipped exactly when its `VoucherNumber1`
      is missing or empty; otherwise the voucher keeps that number as it is
      and the office's name. */
  lemma VoucherOfSkips(ddoName: Option<string>, node: Element)
    ensures VoucherOf(ddoName, node).None? <==>
      Attr(node, VoucherNumberAttr).None? || Attr(node, VoucherNumberAttr) == Some("")
    ensures VoucherOf(ddoName, node).Some? ==>
      VoucherOf(ddoName, node).value.voucherNumber == node.attrs[VoucherNumberAttr]
      && VoucherOf(ddoName, node).value.ddoName == ddoName
  {
  }

  /** The vouchers of one office, in document order. */
  function OfficeVouchers(ddoName: Option<string>, nodes: seq<Element>): seq<Voucher>
    decreases |nodes|
  {
    if nodes == [] then []
    else
      var prev := OfficeVouchers(ddoName, nodes[..|nodes| - 1]);
      match VoucherOf(ddoName, nodes[|nodes| - 1])
      case None => prev
      case Some(v) => prev + [v]
  }

  /** The vouchers of the offices `ddos`, office by office. */
  function AllVouchers(ddos: seq<Element>): seq<Voucher>
    decreases |ddos|
  {
    if ddos == [] then []
    else
      var last := ddos[|ddos| - 1];
      AllVouchers(ddos[..|ddos| - 1]) + OfficeVouchers(DdoNameOf(last), ElementsByTag(last, VoucherTag))
  }

  /** A voucher as the sheet promises it: a non-empty number and clean,
      duplicate-free head lists. */
  predicate WellFormed(v: Voucher) {
    && v.voucherNumber != ""
    && NoDuplicates(v.objectHeads) && NoDuplicates(v.funcHeads)
    && (forall h :: h in v.objectHeads ==> h != "" && IsTrimmed(h) && !IsGeneric(h))
    && (forall h :: h in v.funcHeads ==> h != "" && IsTrimmed(h) && !IsGeneric(h))
  }

  lemma VoucherOfWellFormed(ddoName: Option<string>, node: Element)
    requires VoucherOf(ddoName, node).Some?
    ensures WellFormed(VoucherOf(ddoName, node).value)
  {
    var details := ElementsByTag(node, DetailsTag);
    HeadSetWellFormed(details, ObjectHeadAttr);
    HeadSetWellFormed(details, FuncHeadAttr);
  }

  /** Every voucher of an office is well formed and carries the office name;
      there is at most one per `VoucherNumber` element. */
  lemma {:induction false} OfficeVouchersWellFormed(ddoName: Option<string>, nodes: seq<Element>)
    ensures |OfficeVouchers(ddoName, nodes)| <= |nodes|
    ensures forall v :: v in OfficeVouchers(ddoName, nodes) ==> WellFormed(v) && v.ddoName == ddoName
    decreases |nodes|
  {
    if nodes != [] {
      var last := nodes[|nodes| - 1];
      OfficeVouchersWellFormed(ddoName, nodes[..|nodes| - 1]);
      if VoucherOf(ddoName, last).Some? {
        VoucherOfWellFormed(ddoName, last);
      }
    }
  }

  /** Every voucher of the sheet is well formed. */
  lemma {:induction false} AllVouchersWellFormed(ddos: seq<Element>)
    ensures forall v :: v in AllVouchers(ddos) ==> WellFormed(v)
    decreases |ddos|
  {
    if ddos != [] {
      var last := ddos[|ddos| - 1];
      AllVouchersWellFormed(ddos[..|ddos| - 1]);
      OfficeVouchersWellFormed(DdoNameOf(last), ElementsByTag(last, VoucherTag));
    }
  }

  /** Adds the head a detail yields for the attribute, if any, to a set. */
  method AddHead(heads: seq<string>, detail: Element, attrName: string) returns (r: seq<string>)
    ensures HeadOf(detail, attrName).None? ==> r == heads
    ensures HeadOf(detail, attrName).Some? ==> r == Add(heads, HeadOf(detail, attrName).value)
  {
    var head := ProcessHead(Attr(detail, attrName));
    r := heads;
    if head.Some? {
      r := Add(r, head.value);
    }
  }

  /** One more entry adds its value, if present, to the set of the present
      values. */
  lemma DistinctPresentSnoc<T>(xs: seq<Option<T>>, i: nat)
    requires i < |xs|
    ensures Distinct(Present(xs[..i + 1])) ==
      if xs[i].None? then Distinct(Present(xs[..i])) else Add(Distinct(Present(xs[..i])), xs[i].value)
  {
    assert xs[..i + 1][..i] == xs[..i];
  }

  /** The detail loop of one voucher: each detail's object head and then its
      function head are added to their sets. */
  method CollectHeads(details: seq<Element>) returns (objectHeads: seq<string>, funcHeads: seq<string>)
    ensures objectHeads == HeadSet(details, ObjectHeadAttr)
    ensures funcHeads == HeadSet(details, FuncHeadAttr)
  {
    objectHeads, funcHeads := [], [];
    ghost var objOpts := HeadOptions(details, ObjectHeadAttr);
    ghost var funcOpts := HeadOptions(details, FuncHeadAttr);
    var i := 0;
    while i < |details|
      invariant 0 <= i <= |details|
      invariant objectHeads == Distinct(Present(objOpts[..i]))
      invariant funcHeads == Distinct(Present(funcOpts[..i]))
    {
      var detail := details[i];
      DistinctPresentSnoc(objOpts, i);
      DistinctPresentSnoc(funcOpts, i);
      objectHeads := AddHead(objectHeads, detail, ObjectHeadAttr);
      funcHeads := AddHead(funcHeads, detail, FuncHeadAttr);
      i := i + 1;
    }
    assert objOpts[..i] == objOpts;
    assert funcOpts[..i] == funcOpts;
  }

  /** The body of the voucher loop: a voucher without a number is skipped,
      otherwise its details are read. */
  method ParseVoucher(ddoName: Option<string>, voucherNode: Element) returns (v: Option<Voucher>)
    ensures v == VoucherOf(ddoName, voucherNode)
  {
    var voucherNumber := Attr(voucherNode, VoucherNumberAttr);
    if voucherNumber.None? || voucherNumber.value == "" {
      return None;
    }
    var objectHeads, funcHeads := CollectHeads(ElementsByTag(voucherNode, DetailsTag));
    v := Some(Voucher(voucherNumber.value, ddoName, objectHeads, funcHeads));
  }

  /** One more voucher element adds the voucher it yields, if any. */
  lemma OfficeVouchersSnoc(ddoName: Option<string>, nodes: seq<Element>, i: nat)
    requires i < |nodes|
    ensures OfficeVouchers(ddoName, nodes[..i + 1]) ==
      match VoucherOf(ddoName, nodes[i])
      case None => OfficeVouchers(ddoName, nodes[..i])
      case Some(v) => OfficeVouchers(ddoName, nodes[..i]) + [v]
  {
    assert nodes[..i + 1][..i] == nodes[..i];
  }

  /** The voucher loop of one office. */
  method CollectOfficeVouchers(ddoName: Option<string>, voucherNodes: seq<Element>) returns (vouchers: seq<Voucher>)
    ensures vouchers == OfficeVouchers(ddoName, voucherNodes)
  {
    vouchers := [];
    var i := 0;
    while i < |voucherNodes|
      invariant 0 <= i <= |voucherNodes|
      invariant vouchers == OfficeVouchers(ddoName, voucherNodes[..i])
    {
      OfficeVouchersSnoc(ddoName, voucherNodes, i);
      var voucher := ParseVoucher(ddoName, voucherNodes[i]);
      if voucher.Some? {
        vouchers := vouchers + [voucher.value];
      }
      i := i + 1;
    }
    assert voucherNodes[..i] == voucherNodes;
  }

  /** `parseCompilationSheetXML`: fails on a parse error before reading
      anything; otherwise the vouchers of every office, in document order,
      and the compilation date. */
  method ParseCompilationSheet(doc: Document) returns (r: Result<CompilationData, AnalysisError>)
    ensures r.Failure? <==> HasParseError(doc)
    ensures r.Failure? ==> r.error == CompilationSheetMalformed
    ensures r.Success? ==> r.value.vouchers == AllVouchers(DocElementsByTag(doc, DdoTag))
    ensures r.Success? ==> r.value.reportDate == ReportDate.CompilationDate(doc)
  {
    if |DocElementsByTag(doc, "parsererror")| > 0 {
      return Failure(CompilationSheetMalformed);
    }
    var allVouchers: seq<Voucher> := [];
    var ddoNodes := DocElementsByTag(doc, DdoTag);
    var i := 0;
    while i < |ddoNodes|
      invariant 0 <= i <= |ddoNodes|
      invariant allVouchers == AllVouchers(ddoNodes[..i])
    {
      var ddoNode := ddoNodes[i];
      assert ddoNodes[..i + 1][..i] == ddoNodes[..i];
      var ddoName := DdoNameOf(ddoNode);
      var officeVouchers := CollectOfficeVouchers(ddoName, ElementsByTag(ddoNode, VoucherTag));
      allVouchers := allVouchers + officeVouchers;
      i := i + 1;
    }
    assert ddoNodes[..i] == ddoNodes;
    r := Success(CompilationData(allVouchers, ReportDate.CompilationDate(doc)));
  }
}
