/** The parser of the e-payment authorization register. It builds the lookup
    map from a normalized voucher number to the voucher's bill type, user name
    and token number. */
module AuthRegister {
  import opened Wrappers
  import opened Text
  import opened Xml
  import opened Identifier
  import opened Errors
  import ReportDate
  import opened MapFold

  const VoucherTag := "VoucherNumber"
  const VoucherAttr := "VoucherNumber"
  const DetailsTag := "Details"
  const BillTypeAttr := "billType"
  const UserNmAttr := "UserNm"
  const TokenTag := "TokenNumber"
  const TokenAttr := "TokenNumber"
  const NormalBill := "Normal"

  /** What the register says about one voucher. */
  datatype AuthEntry = AuthEntry(billType: string, userNm: Option<string>, token: Option<string>)

  datatype AuthData = AuthData(voucherDetailsMap: map<string, AuthEntry>, issueDate: string)

  /** `value || fallback` for an attribute that may be null. */
  function OrDefault(a: Option<string>, fallback: string): (r: string)
    ensures a.Some? && a.value != "" ==> r == a.value
    ensures a.None? || a == Some("") ==> r == fallback
  {
    if a.Some? && a.value != "" then a.value else fallback
  }

  /** `value || null` for an attribute that may be null. */
  function NonEmpty(a: Option<string>): (r: Option<string>)
    ensures r.Some? <==> a.Some? && a.value != ""
    ensures r.Some? ==> r == a
  {
    if a.Some? && a.value != "" then a else None
  }

  /** The key a `VoucherNumber` element is stored under. */
  function VoucherKey(v: Element): string {
    NormalizeId(AttrText(v, VoucherAttr))
  }

  /** The token attribute of the voucher's first `TokenNumber` element, or
      '' when there is none. */
  function RawToken(v: Element): Option<string> {
    match FirstWithTag(Descendants(v), TokenTag)
    case None => Some("")
    case Some(t) => Attr(t, TokenAttr)
  }

  /** A present, non-empty token attribute is normalized; otherwise null. */
  function TokenOf(v: Element): (r: Option<string>)
    ensures r.None? <==> RawToken(v).None? || RawToken(v) == Some("")
    ensures r.Some? ==> r.value == NormalizeId(RawToken(v).value)
  {
    var raw := RawToken(v);
    if raw.Some? && raw.value != "" then Some(NormalizeId(raw.value)) else None
  }

  /** The entry a voucher element yields, read from its first `Details`
      descendant; none when it has no `Details` descendant. */
  function EntryOf(v: Element): Option<AuthEntry> {
    var details := ElementsByTag(v, DetailsTag);
    if details == [] then None
    else
      var first := details[0];
      Some(AuthEntry(OrDefault(Attr(first, BillTypeAttr), NormalBill), NonEmpty(Attr(first, UserNmAttr)), TokenOf(v)))
  }

  /** A voucher yields an entry exactly when it has a `Details` descendant;
      the bill type then defaults to "Normal", the user name to null, and the
      token is null unless a non-empty token attribute is present. */
  lemma EntryDefaults(v: Element)
    ensures EntryOf(v).Some? <==> ElementsByTag(v, DetailsTag) != []
    ensures EntryOf(v).Some? ==>
      var e := EntryOf(v).value;
      var first := ElementsByTag(v, DetailsTag)[0];
      && e.billType != ""
      && (Attr(first, BillTypeAttr).None? || Attr(first, BillTypeAttr) == Some("") ==> e.billType == NormalBill)
      && (Attr(first, BillTypeAttr).Some? && Attr(first, BillTypeAttr) != Some("") ==> e.billType == Attr(first, BillTypeAttr).value)
      && (e.userNm.None? <==> Attr(first, UserNmAttr).None? || Attr(first, UserNmAttr) == Some(""))
      && (e.userNm.Some? ==> e.userNm == Attr(first, UserNmAttr))
      && (e.token.None? <==> RawToken(v).None? || RawToken(v) == Some(""))
      && (e.token.Some? ==> NoSpace(e.token.value))
  {
    if RawToken(v).Some? {
      NormalizeIdIsFirstToken(RawToken(v).value);
    }
  }

  /** A voucher element that writes an entry into the map. */
  predicate Contributes(v: Element) {
    EntryOf(v).Some? && VoucherKey(v) != ""
  }

  /** The `set` a voucher element performs, if any. */
  function Write(v: Element): (w: Option<(string, AuthEntry)>)
    ensures w.Some? <==> Contributes(v)
    ensures w.Some? ==> w.value == (VoucherKey(v), EntryOf(v).value)
  {
    if Contributes(v) then Some((VoucherKey(v), EntryOf(v).value)) else None
  }

  function WriteList(nodes: seq<Element>): (ws: seq<Option<(string, AuthEntry)>>)
    ensures |ws| == |nodes|
    ensures forall i :: 0 <= i < |nodes| ==> ws[i] == Write(nodes[i])
  {
    seq(|nodes|, i requires 0 <= i < |nodes| => Write(nodes[i]))
  }

  /** The map after processing `nodes` in order. */
  function AuthMap(nodes: seq<Element>): map<string, AuthEntry> {
    Fold(WriteList(nodes))
  }

  /** A key is in the map exactly when some voucher with a `Details`
      descendant normalizes to it; the empty key is never stored. */
  lemma AuthMapKeys(nodes: seq<Element>, k: string)
    ensures k in AuthMap(nodes) <==>
      exists i :: 0 <= i < |nodes| && Contributes(nodes[i]) && VoucherKey(nodes[i]) == k
    ensures "" !in AuthMap(nodes)
  {
    var ws := WriteList(nodes);
    FoldKeys(ws, k);
    FoldKeys(ws, "");
    assert forall i :: 0 <= i < |nodes| ==> (WritesKey(ws[i], k) <==> Contributes(nodes[i]) && VoucherKey(nodes[i]) == k);
  }

  /** A repeated voucher number keeps the entry of its last voucher. */
  lemma AuthMapLastWins(nodes: seq<Element>, i: nat)
    requires i < |nodes| && Contributes(nodes[i])
    requires forall j :: i < j < |nodes| ==> !(Contributes(nodes[j]) && VoucherKey(nodes[j]) == VoucherKey(nodes[i]))
    ensures VoucherKey(nodes[i]) in AuthMap(nodes)
    ensures AuthMap(nodes)[VoucherKey(nodes[i])] == EntryOf(nodes[i]).value
  {
    var ws := WriteList(nodes);
    assert forall j :: i < j < |nodes| ==> !WritesKey(ws[j], ws[i].value.0);
    FoldLastWins(ws, i);
  }

  /** Every stored entry is the entry of some voucher with that key. */
  lemma AuthMapEntries(nodes: seq<Element>, k: string)
    requires k in AuthMap(nodes)
    ensures exists i :: (0 <= i < |nodes| && Contributes(nodes[i]) && VoucherKey(nodes[i]) == k
      && AuthMap(nodes)[k] == EntryOf(nodes[i]).value)
    ensures AuthMap(nodes)[k].billType != ""
    ensures AuthMap(nodes)[k].userNm.Some? ==> AuthMap(nodes)[k].userNm.value != ""
    ensures AuthMap(nodes)[k].token.Some? ==> NoSpace(AuthMap(nodes)[k].token.value)
  {
    var ws := WriteList(nodes);
    FoldValueWritten(ws, k);
    var i :| 0 <= i < |ws| && ws[i] == Some((k, Fold(ws)[k]));
    EntryDefaults(nodes[i]);
  }

  /** A voucher element without a `VoucherNumber` attribute is stored under
      the key "null", since `String(null)` is "null". */
  lemma MissingVoucherNumberKey(v: Element)
    requires VoucherAttr !in v.attrs && ElementsByTag(v, DetailsTag) != []
    ensures Contributes(v) && VoucherKey(v) == "null"
    ensures "null" in AuthMap([v])
  {
    EntryDefaults(v);
    assert AttrText(v, VoucherAttr) == "null";
    assert Trim("null") == "null";
    assert FirstToken("null") == "null";
    var ws := WriteList([v]);
    assert ws == [Some(("null", EntryOf(v).value))];
    assert ws[..0] == [];
  }

  /** The loop of `parsePaymentAuthXML` over the `VoucherNumber` elements:
      each voucher with a `Details` descendant and a non-empty normalized
      number is `set` into the map, later vouchers overwriting earlier ones. */
  method BuildVoucherDetailsMap(voucherNodes: seq<Element>) returns (voucherDetailsMap: map<string, AuthEntry>)
    ensures voucherDetailsMap == AuthMap(voucherNodes)
  {
    voucherDetailsMap := map[];
    ghost var writes := WriteList(voucherNodes);
    var i := 0;
    while i < |voucherNodes|
      invariant 0 <= i <= |voucherNodes|
      invariant voucherDetailsMap == Fold(writes[..i])
    {
      var voucher := voucherNodes[i];
      FoldSnoc(writes, i);
      var voucherNumberStr := NormalizeId(AttrText(voucher, VoucherAttr));
      var detailsList := ElementsByTag(voucher, DetailsTag);
      if |detailsList| > 0 {
        var firstDetail := detailsList[0];
        var billType := OrDefault(Attr(firstDetail, BillTypeAttr), NormalBill);
        var userNm := NonEmpty(Attr(firstDetail, UserNmAttr));
        var token := TokenOf(voucher);
        assert EntryOf(voucher) == Some(AuthEntry(billType, userNm, token));
        if voucherNumberStr != "" {
          voucherDetailsMap := voucherDetailsMap[voucherNumberStr := AuthEntry(billType, userNm, token)];
        }
      }
      i := i + 1;
    }
    assert writes[..i] == writes;
  }

  /** `parsePaymentAuthXML`: fails on a parse error before reading anything;
      otherwise the map of every `VoucherNumber` element, in document order,
      and the issue date. */
  method ParsePaymentAuth(doc: Document) returns (r: Result<AuthData, AnalysisError>)
    ensures r.Failure? <==> HasParseError(doc)
    ensures r.Failure? ==> r.error == AuthRegisterMalformed
    ensures r.Success? ==> r.value.voucherDetailsMap == AuthMap(DocElementsByTag(doc, VoucherTag))
    ensures r.Success? ==> r.value.issueDate == ReportDate.IssueDate(doc)
  {
    if |DocElementsByTag(doc, "parsererror")| > 0 {
      return Failure(AuthRegisterMalformed);
    }
    var voucherDetailsMap := BuildVoucherDetailsMap(DocElementsByTag(doc, VoucherTag));
    var issueDate := ReportDate.IssueDate(doc);
    r := Success(AuthData(voucherDetailsMap, issueDate));
  }
}
