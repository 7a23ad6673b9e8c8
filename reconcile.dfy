/** `reconcileData`: every voucher of the compilation sheet is overlaid with
    what the authorization register says about its number, then sorted into
    four buckets by office (NCDDO when the office name mentions "LUCKNOW")
    and by bill type (normal or e-bill). The two normal buckets are then
    sorted by token number with a stable sort. */
module Reconcile {
  import opened Wrappers
  import opened Text
  import opened Errors
  import opened Identifier
  import opened AuthRegister
  import opened CompilationSheet
  import opened Xml
  import opened StableSort
  import opened Filtering

  const NcddoMarker := "LUCKNOW"

  /** A voucher with the register's bill type, user name and token. */
  datatype Bill = Bill(voucher: Voucher, billType: string, userNm: Option<string>, token: Option<string>)

  datatype Reconciled = Reconciled(
    ncddoNormalBills: seq<Bill>, ncddoEBills: seq<Bill>,
    cddoNormalBills: seq<Bill>, cddoEBills: seq<Bill>,
    issueDate: string)

  /** The register entry looked up by the voucher's number as the sheet
      writes it; a voucher the register does not know is a normal bill with
      neither user name nor token. */
  function Overlay(v: Voucher, auth: map<string, AuthEntry>): Bill {
    if v.voucherNumber in auth then
      var e := auth[v.voucherNumber];
      Bill(v, e.billType, e.userNm, e.token)
    else
      Bill(v, NormalBill, None, None)
  }

  /** The vouchers after the overlay, in order. */
  function Bills(vouchers: seq<Voucher>, auth: map<string, AuthEntry>): seq<Bill>
    decreases |vouchers|
  {
    if vouchers == [] then []
    else Bills(vouchers[..|vouchers| - 1], auth) + [Overlay(vouchers[|vouchers| - 1], auth)]
  }

  /** `voucher.ddoName.toUpperCase().includes('LUCKNOW')`. */
  predicate IsNcddo(b: Bill) {
    b.voucher.ddoName.Some? && Contains(ToUpper(b.voucher.ddoName.value), NcddoMarker)
  }

  predicate IsNormal(b: Bill) {
    b.billType == NormalBill
  }

  /** The four buckets of `reconcileData`. */
  datatype Bucket = NcddoNormal | NcddoE | CddoNormal | CddoE

  /** Which bucket a bill goes to: by its office, then by its bill type. */
  function Kind(b: Bill): Bucket {
    if IsNcddo(b) then (if IsNormal(b) then NcddoNormal else NcddoE)
    else (if IsNormal(b) then CddoNormal else CddoE)
  }

  /** `(a.token || 0)`, read as a number: a token of digits is its decimal
      value; a missing or empty token is 0. */
  function TokenKey(b: Bill): nat {
    match b.token
    case None => 0
    case Some(t) => if AllDigits(t) then DecimalValue(t) else 0
  }

  /** `bills.sort(sortByToken)`. */
  function SortByToken(bills: seq<Bill>): seq<Bill> {
    SortBy(bills, TokenKey)
  }

  lemma BillsSnoc(vouchers: seq<Voucher>, i: nat, auth: map<string, AuthEntry>)
    requires i < |vouchers|
    ensures Bills(vouchers[..i + 1], auth) == Bills(vouchers[..i], auth) + [Overlay(vouchers[i], auth)]
  {
    assert vouchers[..i + 1][..i] == vouchers[..i];
  }

  /** No voucher lacks an office name. */
  predicate AllNamed(vouchers: seq<Voucher>) {
    forall i :: 0 <= i < |vouchers| ==> vouchers[i].ddoName.Some?
  }

  /** The result of `reconcileData`: it throws on a voucher whose office name
      is null; otherwise it returns the four buckets, the normal ones sorted
      by token. */
  function ReconcileSpec(vouchers: seq<Voucher>, auth: map<string, AuthEntry>, issueDate: string): Result<Reconciled, AnalysisError> {
    if !AllNamed(vouchers) then Failure(MissingDdoName)
    else
      var bills := Bills(vouchers, auth);
      Success(Reconciled(
        SortByToken(Select(bills, Kind, NcddoNormal)), Select(bills, Kind, NcddoE),
        SortByToken(Select(bills, Kind, CddoNormal)), Select(bills, Kind, CddoE),
        issueDate))
  }

  lemma {:induction false} BillsSpec(vouchers: seq<Voucher>, auth: map<string, AuthEntry>)
    ensures |Bills(vouchers, auth)| == |vouchers|
    ensures forall i :: 0 <= i < |vouchers| ==> Bills(vouchers, auth)[i] == Overlay(vouchers[i], auth)
    decreases |vouchers|
  {
    if vouchers != [] {
      BillsSpec(vouchers[..|vouchers| - 1], auth);
    }
  }

  /** A voucher the register knows takes the register's bill type, user name
      and token; any other voucher is a normal bill without them. A sheet
      number with white space in it is never found, since the register only
      stores normalized numbers. */
  lemma OverlayLookup(v: Voucher, nodes: seq<Element>)
    ensures var b := Overlay(v, AuthMap(nodes));
      && b.voucher == v
      && (v.voucherNumber in AuthMap(nodes) ==>
            (b.billType, b.userNm, b.token) == (AuthMap(nodes)[v.voucherNumber].billType,
              AuthMap(nodes)[v.voucherNumber].userNm, AuthMap(nodes)[v.voucherNumber].token))
      && (v.voucherNumber !in AuthMap(nodes) ==> IsNormal(b) && b.userNm.None? && b.token.None?)
      && (!NoSpace(v.voucherNumber) ==> IsNormal(b) && b.userNm.None? && b.token.None?)
  {
    if v.voucherNumber in AuthMap(nodes) {
      AuthMapKeys(nodes, v.voucherNumber);
      var i :| 0 <= i < |nodes| && Contributes(nodes[i]) && VoucherKey(nodes[i]) == v.voucherNumber;
      NormalizeIdIsFirstToken(AttrText(nodes[i], VoucherAttr));
    }
  }

  /** The four buckets together hold every element exactly as often as the
      input does. */
  lemma {:induction false} SelectPartition<T>(xs: seq<T>, kind: T -> Bucket)
    ensures multiset(Select(xs, kind, NcddoNormal)) + multiset(Select(xs, kind, NcddoE))
      + multiset(Select(xs, kind, CddoNormal)) + multiset(Select(xs, kind, CddoE)) == multiset(xs)
    decreases |xs|
  {
    if xs != [] {
      var init, last := xs[..|xs| - 1], xs[|xs| - 1];
      SelectPartition(init, kind);
      assert xs == init + [last];
      SelectSnoc(init, last, kind, NcddoNormal);
      SelectSnoc(init, last, kind, NcddoE);
      SelectSnoc(init, last, kind, CddoNormal);
      SelectSnoc(init, last, kind, CddoE);
      match kind(last)
      case NcddoNormal =>
      case NcddoE =>
      case CddoNormal =>
      case CddoE =>
    }
  }

  /** The four buckets' sizes add up to the input's. */
  lemma SelectPartitionSizes<T>(xs: seq<T>, kind: T -> Bucket)
    ensures |Select(xs, kind, NcddoNormal)| + |Select(xs, kind, NcddoE)|
      + |Select(xs, kind, CddoNormal)| + |Select(xs, kind, CddoE)| == |xs|
  {
    SelectPartition(xs, kind);
    assert |multiset(xs)| == |xs|;
  }

  /** A normal bucket after its sort: ordered by token, holding exactly the
      bills of its kind, and keeping the input order among bills with the
      same token. */
  lemma NormalBucket(bills: seq<Bill>, which: Bucket)
    ensures var s := SortByToken(Select(bills, Kind, which));
      && SortedBy(s, TokenKey)
      && (forall b :: b in s <==> b in bills && Kind(b) == which)
      && (forall k :: WithKey(s, TokenKey, k) == WithKey(Select(bills, Kind, which), TokenKey, k))
  {
    var sel := Select(bills, Kind, which);
    SortByCorrect(sel, TokenKey);
    SelectMembers(bills, Kind, which);
    forall b
      ensures b in SortByToken(sel) <==> b in sel
    {
      assert b in SortByToken(sel) <==> b in multiset(SortByToken(sel));
      assert b in sel <==> b in multiset(sel);
    }
  }

  /** A reconciliation that succeeds accounts for every voucher once: the
      sizes of the four buckets add up to the number of vouchers; every
      bucket holds exactly the bills of its office and bill type; the normal
      buckets are sorted by token and keep the input order among equal
      tokens; and the e-bill buckets keep the input order. */
  lemma ReconcileAccountsForAll(vouchers: seq<Voucher>, auth: map<string, AuthEntry>, issueDate: string)
    requires AllNamed(vouchers)
    ensures var r := ReconcileSpec(vouchers, auth, issueDate).value;
      && |r.ncddoNormalBills| + |r.ncddoEBills| + |r.cddoNormalBills| + |r.cddoEBills| == |vouchers|
      && multiset(r.ncddoNormalBills) + multiset(r.ncddoEBills) + multiset(r.cddoNormalBills)
         + multiset(r.cddoEBills) == multiset(Bills(vouchers, auth))
      && SortedBy(r.ncddoNormalBills, TokenKey) && SortedBy(r.cddoNormalBills, TokenKey)
      && (forall b :: b in r.ncddoNormalBills <==> b in Bills(vouchers, auth) && IsNcddo(b) && IsNormal(b))
      && (forall b :: b in r.cddoNormalBills <==> b in Bills(vouchers, auth) && !IsNcddo(b) && IsNormal(b))
      && (forall b :: b in r.ncddoEBills <==> b in Bills(vouchers, auth) && IsNcddo(b) && !IsNormal(b))
      && (forall b :: b in r.cddoEBills <==> b in Bills(vouchers, auth) && !IsNcddo(b) && !IsNormal(b))
      && (forall k :: WithKey(r.ncddoNormalBills, TokenKey, k)
                      == WithKey(Select(Bills(vouchers, auth), Kind, NcddoNormal), TokenKey, k))
      && (forall k :: WithKey(r.cddoNormalBills, TokenKey, k)
                      == WithKey(Select(Bills(vouchers, auth), Kind, CddoNormal), TokenKey, k))
      && r.ncddoEBills == Select(Bills(vouchers, auth), Kind, NcddoE)
      && r.cddoEBills == Select(Bills(vouchers, auth), Kind, CddoE)
  {
    var bills := Bills(vouchers, auth);
    var r := ReconcileSpec(vouchers, auth, issueDate).value;
    assert r.ncddoNormalBills == SortBy(Select(bills, Kind, NcddoNormal), TokenKey);
    assert r.cddoNormalBills == SortBy(Select(bills, Kind, CddoNormal), TokenKey);
    assert r.ncddoEBills == Select(bills, Kind, NcddoE);
    assert r.cddoEBills == Select(bills, Kind, CddoE);
    BillsSpec(vouchers, auth);
    SelectPartition(bills, Kind);
    SelectPartitionSizes(bills, Kind);
    NormalBucket(bills, NcddoNormal);
    NormalBucket(bills, CddoNormal);
    SortByCorrect(Select(bills, Kind, NcddoNormal), TokenKey);
    SortByCorrect(Select(bills, Kind, CddoNormal), TokenKey);
    SelectMembers(bills, Kind, NcddoE);
    SelectMembers(bills, Kind, CddoE);
  }

  /** `bills.sort(sortByToken)` on the bucket built by the loop. */
  method SortBucket(bills: seq<Bill>) returns (r: seq<Bill>)
    ensures r == SortByToken(bills)
  {
    var a := new Bill[|bills|](k requires 0 <= k < |bills| => bills[k]);
    assert a[..] == bills;
    Sort(a, TokenKey);
    r := a[..];
  }

  /** The `push` of one bill onto the bucket of its office and bill type:
      the buckets of `bills` become the buckets of `bills + [bill]`. */
  method Push(ghost bills: seq<Bill>, bill: Bill,
              ncddoNormalBills: seq<Bill>, ncddoEBills: seq<Bill>, cddoNormalBills: seq<Bill>, cddoEBills: seq<Bill>)
    returns (ncddoNormal: seq<Bill>, ncddoE: seq<Bill>, cddoNormal: seq<Bill>, cddoE: seq<Bill>)
    requires ncddoNormalBills == Select(bills, Kind, NcddoNormal) && ncddoEBills == Select(bills, Kind, NcddoE)
    requires cddoNormalBills == Select(bills, Kind, CddoNormal) && cddoEBills == Select(bills, Kind, CddoE)
    ensures ncddoNormal == Select(bills + [bill], Kind, NcddoNormal) && ncddoE == Select(bills + [bill], Kind, NcddoE)
    ensures cddoNormal == Select(bills + [bill], Kind, CddoNormal) && cddoE == Select(bills + [bill], Kind, CddoE)
  {
    SelectSnoc(bills, bill, Kind, NcddoNormal);
    SelectSnoc(bills, bill, Kind, NcddoE);
    SelectSnoc(bills, bill, Kind, CddoNormal);
    SelectSnoc(bills, bill, Kind, CddoE);
    ncddoNormal, ncddoE, cddoNormal, cddoE := ncddoNormalBills, ncddoEBills, cddoNormalBills, cddoEBills;
    if IsNcddo(bill) {
      if bill.billType == NormalBill {
        ncddoNormal := ncddoNormal + [bill];
      } else {
        ncddoE := ncddoE + [bill];
      }
    } else {
      if bill.billType == NormalBill {
        cddoNormal := cddoNormal + [bill];
      } else {
        cddoE := cddoE + [bill];
      }
    }
  }

  /** The loop of `reconcileData` over the vouchers, then the two sorts. */
  method ReconcileData(vouchers: seq<Voucher>, auth: map<string, AuthEntry>, issueDate: string)
    returns (r: Result<Reconciled, AnalysisError>)
    ensures r == ReconcileSpec(vouchers, auth, issueDate)
  {
    var ncddoNormalBills, ncddoEBills, cddoNormalBills, cddoEBills := [], [], [], [];
    ghost var bills := [];
    var i := 0;
    while i < |vouchers|
      invariant 0 <= i <= |vouchers|
      invariant forall k :: 0 <= k < i ==> vouchers[k].ddoName.Some?
      invariant bills == Bills(vouchers[..i], auth)
      invariant ncddoNormalBills == Select(bills, Kind, NcddoNormal)
      invariant ncddoEBills == Select(bills, Kind, NcddoE)
      invariant cddoNormalBills == Select(bills, Kind, CddoNormal)
      invariant cddoEBills == Select(bills, Kind, CddoE)
    {
      var voucher := vouchers[i];
      if voucher.ddoName.None? {
        assert !AllNamed(vouchers);
        return Failure(MissingDdoName);
      }
      var bill := Overlay(voucher, auth);
      BillsSnoc(vouchers, i, auth);
      ncddoNormalBills, ncddoEBills, cddoNormalBills, cddoEBills :=
        Push(bills, bill, ncddoNormalBills, ncddoEBills, cddoNormalBills, cddoEBills);
      bills := bills + [bill];
      i := i + 1;
    }
    assert vouchers[..i] == vouchers;
    ncddoNormalBills := SortBucket(ncddoNormalBills);
    cddoNormalBills := SortBucket(cddoNormalBills);
    r := Success(Reconciled(ncddoNormalBills, ncddoEBills, cddoNormalBills, cddoEBills, issueDate));
  }
}
