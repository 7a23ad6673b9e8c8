/** The figures of the ready-made status report: the per-category remarks of
    the two normal buckets (`getRemarks`), the share of e-bills among the
    passed bills, the four table rows, the row heights and the name of the
    saved file. */
module Aggregate {
  import opened Wrappers
  import opened Text
  import opened StableSort
  import opened Filtering
  import opened CompilationSheet
  import opened Reconcile
  import opened Category
  import opened AuthRegister

  /** The bullet as the source file writes it: the UTF-8 bytes of U+2022
      read as Windows-1252. */
  const Bullet := "\U{00E2}\U{20AC}\U{00A2}"
  const LineBreak := "\n"

  /** One property of the counts object: a category and its count. */
  type Entry = (string, nat)

  predicate DistinctKeys(t: seq<Entry>) {
    forall i, j :: 0 <= i < j < |t| ==> t[i].0 != t[j].0
  }

  /** Where category `c` sits in the counts object, if it is there. */
  function KeyIndex(t: seq<Entry>, c: string): (r: Option<nat>)
    ensures r.Some? ==> r.value < |t| && t[r.value].0 == c
    ensures r.None? ==> forall i :: 0 <= i < |t| ==> t[i].0 != c
    decreases |t|
  {
    if t == [] then None
    else if t[|t| - 1].0 == c then Some(|t| - 1)
    else KeyIndex(t[..|t| - 1], c)
  }

  /** `acc[c] || 0`: the count the object holds for `c`. */
  function CountIn(t: seq<Entry>, c: string): nat {
    match KeyIndex(t, c)
    case Some(i) => t[i].1
    case None => 0
  }

  /** `acc[category] = (acc[category] || 0) + 1`: an existing property keeps
      its place; a new one is added last. */
  function Bump(t: seq<Entry>, c: string): seq<Entry> {
    match KeyIndex(t, c)
    case Some(i) => t[i := (c, t[i].1 + 1)]
    case None => t + [(c, 1)]
  }

  /** The counts object after the `reduce` over the categories. */
  function Tally(cats: seq<string>): seq<Entry>
    decreases |cats|
  {
    if cats == [] then [] else Bump(Tally(cats[..|cats| - 1]), cats[|cats| - 1])
  }

  /** How often `c` occurs in `cats`. */
  function Count(cats: seq<string>, c: string): nat
    decreases |cats|
  {
    if cats == [] then 0
    else Count(cats[..|cats| - 1], c) + (if cats[|cats| - 1] == c then 1 else 0)
  }

  function SumCounts(t: seq<Entry>): nat
    decreases |t|
  {
    if t == [] then 0 else SumCounts(t[..|t| - 1]) + t[|t| - 1].1
  }

  lemma {:induction false} SumCountsConcat(a: seq<Entry>, b: seq<Entry>)
    ensures SumCounts(a + b) == SumCounts(a) + SumCounts(b)
    decreases |b|
  {
    if b == [] {
      assert a + b == a;
    } else {
      SumCountsConcat(a, b[..|b| - 1]);
      assert (a + b)[..|a + b| - 1] == a + b[..|b| - 1];
    }
  }

  lemma {:induction false} SumCountsUpdate(t: seq<Entry>, i: nat, e: Entry)
    requires i < |t|
    ensures SumCounts(t[i := e]) + t[i].1 == SumCounts(t) + e.1
    decreases |t|
  {
    if i < |t| - 1 {
      SumCountsUpdate(t[..|t| - 1], i, e);
      assert t[i := e][..|t| - 1] == t[..|t| - 1][i := e];
    } else {
      assert t[i := e][..|t| - 1] == t[..|t| - 1];
    }
  }

  lemma {:induction false} SumCountsInsert(s: seq<Entry>, x: Entry, key: Entry -> nat)
    ensures SumCounts(Insert(s, x, key)) == SumCounts(s) + x.1
    decreases |s|
  {
    if s == [] || key(s[|s| - 1]) <= key(x) {
      assert (s + [x])[..|s|] == s;
    } else {
      var init := s[..|s| - 1];
      SumCountsInsert(init, x, key);
      var u := Insert(init, x, key) + [s[|s| - 1]];
      assert u[..|u| - 1] == Insert(init, x, key);
    }
  }

  lemma {:induction false} SumCountsSortBy(s: seq<Entry>, key: Entry -> nat)
    ensures SumCounts(SortBy(s, key)) == SumCounts(s)
    decreases |s|
  {
    if s != [] {
      SumCountsSortBy(s[..|s| - 1], key);
      SumCountsInsert(SortBy(s[..|s| - 1], key), s[|s| - 1], key);
    }
  }

  lemma {:induction false} SumCountsSplit(t: seq<Entry>, test: Entry -> bool)
    ensures SumCounts(Select(t, test, true)) + SumCounts(Select(t, test, false)) == SumCounts(t)
    decreases |t|
  {
    if t != [] {
      var init, last := t[..|t| - 1], t[|t| - 1];
      SumCountsSplit(init, test);
      SumCountsConcat(Select(init, test, test(last)), [last]);
      assert [last][..0] == t[..0];
    }
  }

  lemma CountSnoc(cats: seq<string>, x: string, c: string)
    ensures Count(cats + [x], c) == Count(cats, c) + (if x == c then 1 else 0)
  {
    assert (cats + [x])[..|cats|] == cats;
  }

  /** `KeyIndex` looks at the keys only. */
  lemma {:induction false} KeyIndexKeys(t: seq<Entry>, u: seq<Entry>, c: string)
    requires |t| == |u| && forall i :: 0 <= i < |t| ==> t[i].0 == u[i].0
    ensures KeyIndex(t, c) == KeyIndex(u, c)
    decreases |t|
  {
    if t != [] {
      KeyIndexKeys(t[..|t| - 1], u[..|u| - 1], c);
    }
  }

  /** The counts object has one property per distinct category. */
  lemma {:induction false} TallyKeys(cats: seq<string>)
    ensures DistinctKeys(Tally(cats))
    ensures forall c :: KeyIndex(Tally(cats), c).Some? <==> c in cats
    decreases |cats|
  {
    if cats != [] {
      var init, x := cats[..|cats| - 1], cats[|cats| - 1];
      TallyKeys(init);
      var t := Tally(init);
      assert cats == init + [x];
      match KeyIndex(t, x)
      case Some(i) =>
        forall c
          ensures KeyIndex(Tally(cats), c) == KeyIndex(t, c)
        {
          KeyIndexKeys(Tally(cats), t, c);
        }
      case None =>
        forall c | c != x
          ensures KeyIndex(Tally(cats), c) == KeyIndex(t, c)
        {
          assert (t + [(x, 1)])[..|t|] == t;
        }
    }
  }

  /** Every category's count in the object is the number of times it
      occurs. */
  lemma {:induction false} TallyCounts(cats: seq<string>)
    ensures forall c :: CountIn(Tally(cats), c) == Count(cats, c)
    decreases |cats|
  {
    if cats != [] {
      var init, x := cats[..|cats| - 1], cats[|cats| - 1];
      TallyCounts(init);
      var t := Tally(init);
      assert cats == init + [x];
      forall c
        ensures CountIn(Tally(cats), c) == Count(cats, c)
      {
        CountSnoc(init, x, c);
        match KeyIndex(t, x)
        case Some(i) =>
          KeyIndexKeys(Tally(cats), t, c);
        case None =>
          assert (t + [(x, 1)])[..|t|] == t;
      }
    }
  }

  lemma {:induction false} TallyPositive(cats: seq<string>)
    ensures forall i :: 0 <= i < |Tally(cats)| ==> Tally(cats)[i].1 >= 1
    decreases |cats|
  {
    if cats != [] {
      TallyPositive(cats[..|cats| - 1]);
    }
  }

  /** The counts add up to the number of categories counted. */
  lemma {:induction false} TallySum(cats: seq<string>)
    ensures SumCounts(Tally(cats)) == |cats|
    decreases |cats|
  {
    if cats != [] {
      var init, x := cats[..|cats| - 1], cats[|cats| - 1];
      TallySum(init);
      var t := Tally(init);
      match KeyIndex(t, x)
      case Some(i) =>
        SumCountsUpdate(t, i, (x, t[i].1 + 1));
      case None =>
        assert (t + [(x, 1)])[..|t|] == t;
    }
  }

  /** Property keys that are array indices: the canonical decimal numerals
      below 2^32 - 1. */
  predicate IsIndexKey(s: string) {
    s != [] && AllDigits(s) && (s[0] != '0' || |s| == 1) && DecimalValue(s) < 0xFFFF_FFFF
  }

  predicate IsIndexEntry(e: Entry) {
    IsIndexKey(e.0)
  }

  function EntryIndex(e: Entry): nat {
    if AllDigits(e.0) then DecimalValue(e.0) else 0
  }

  /** `Object.entries`: the array-index keys first, ascending, then the
      other keys in the order they were added. */
  function ObjectEntries(t: seq<Entry>): seq<Entry> {
    SortBy(Select(t, IsIndexEntry, true), EntryIndex) + Select(t, IsIndexEntry, false)
  }

  /** The entries are those of the object, each as often as it occurs. */
  lemma ObjectEntriesPermutes(t: seq<Entry>)
    ensures multiset(ObjectEntries(t)) == multiset(t)
    ensures SumCounts(ObjectEntries(t)) == SumCounts(t)
  {
    var ints := Select(t, IsIndexEntry, true);
    var others := Select(t, IsIndexEntry, false);
    SelectSplit(t, IsIndexEntry);
    SortByCorrect(ints, EntryIndex);
    SumCountsSplit(t, IsIndexEntry);
    SumCountsSortBy(ints, EntryIndex);
    SumCountsConcat(SortBy(ints, EntryIndex), others);
  }

  /** The index keys come first, in ascending order. */
  lemma ObjectEntriesOrder(t: seq<Entry>)
    ensures forall i, j :: 0 <= i < j < |ObjectEntries(t)| && IsIndexEntry(ObjectEntries(t)[j]) ==>
      IsIndexEntry(ObjectEntries(t)[i]) && EntryIndex(ObjectEntries(t)[i]) <= EntryIndex(ObjectEntries(t)[j])
  {
    var oe := ObjectEntries(t);
    assert oe == SortBy(Select(t, IsIndexEntry, true), EntryIndex) + Select(t, IsIndexEntry, false);
    SortedThenRest(t, IsIndexEntry, EntryIndex);
    forall i, j | 0 <= i < j < |oe| && IsIndexEntry(oe[j])
      ensures IsIndexEntry(oe[i]) && EntryIndex(oe[i]) <= EntryIndex(oe[j])
    {
      var test: Entry -> bool := IsIndexEntry;
      assert test(oe[j]);
    }
  }

  /** The selected elements, sorted, followed by the rest: an element that
      passes the test has only passing elements before it, with keys no
      larger than its own. */
  lemma SortedThenRest<T>(t: seq<T>, test: T -> bool, key: T -> nat)
    ensures var all := SortBy(Select(t, test, true), key) + Select(t, test, false);
      forall i, j :: 0 <= i < j < |all| && test(all[j]) ==> test(all[i]) && key(all[i]) <= key(all[j])
  {
    var ints := Select(t, test, true);
    var others := Select(t, test, false);
    var sorted := SortBy(ints, key);
    SortByCorrect(ints, key);
    SelectMembers(t, test, true);
    SelectKinds(t, test, false);
    var all := sorted + others;
    forall k | 0 <= k < |sorted|
      ensures all[k] == sorted[k] && test(all[k])
    {
      assert sorted[k] in multiset(ints);
    }
    forall k | |sorted| <= k < |all|
      ensures !test(all[k])
    {
      assert all[k] == others[k - |sorted|];
    }
    forall i, j | 0 <= i < j < |all| && test(all[j])
      ensures test(all[i]) && key(all[i]) <= key(all[j])
    {
      assert j < |sorted|;
    }
  }

  /** Each element of a sequence without repeated keys occurs once. */
  lemma OccursOnce(t: seq<Entry>, p: nat)
    requires DistinctKeys(t) && p < |t|
    ensures multiset(t)[t[p]] == 1
  {
    assert t == t[..p] + [t[p]] + t[p + 1..];
    assert t[p] !in multiset(t[..p]);
    assert t[p] !in multiset(t[p + 1..]);
  }

  lemma OccursTwice(s: seq<Entry>, i: nat, j: nat)
    requires i < j < |s| && s[i] == s[j]
    ensures multiset(s)[s[i]] >= 2
  {
    assert s == s[..i] + [s[i]] + s[i + 1..j] + [s[j]] + s[j + 1..];
  }

  /** Reordering entries with distinct keys keeps the keys distinct. */
  lemma DistinctAfterPermutation(t: seq<Entry>, oe: seq<Entry>, i: nat, j: nat)
    requires DistinctKeys(t) && multiset(oe) == multiset(t)
    requires i < j < |oe|
    ensures oe[i].0 != oe[j].0
  {
    assert oe[i] in multiset(t) && oe[j] in multiset(t);
    var p :| 0 <= p < |t| && t[p] == oe[i];
    var q :| 0 <= q < |t| && t[q] == oe[j];
    OccursOnce(t, p);
    if p == q {
      OccursTwice(oe, i, j);
    }
  }

  /** Reordering entries with distinct keys keeps the count of every key. */
  lemma CountInAfterPermutation(t: seq<Entry>, oe: seq<Entry>, c: string)
    requires DistinctKeys(t) && multiset(oe) == multiset(t)
    ensures CountIn(oe, c) == CountIn(t, c)
    ensures KeyIndex(oe, c).Some? <==> KeyIndex(t, c).Some?
  {
    KeyAfterPermutation(t, oe, c);
    match KeyIndex(oe, c)
    case Some(i) =>
      assert oe[i] in multiset(t);
      var p :| 0 <= p < |t| && t[p] == oe[i];
    case None =>
  }

  /** Reordering entries keeps the keys present. */
  lemma KeyAfterPermutation(t: seq<Entry>, oe: seq<Entry>, c: string)
    requires multiset(oe) == multiset(t)
    ensures (exists i :: 0 <= i < |oe| && oe[i].0 == c) <==> (exists k :: 0 <= k < |t| && t[k].0 == c)
  {
    if exists i :: 0 <= i < |oe| && oe[i].0 == c {
      var i :| 0 <= i < |oe| && oe[i].0 == c;
      assert oe[i] in multiset(t);
    }
    if exists k :: 0 <= k < |t| && t[k].0 == c {
      var k :| 0 <= k < |t| && t[k].0 == c;
      assert t[k] in multiset(oe);
    }
  }

  /** One remark line: the bullet, the category, its count and "Bill" or
      "Bills". */
  function RemarkLine(e: Entry): string {
    Bullet + " " + e.0 + "- " + NatToString(e.1) + " " + (if e.1 > 1 then "Bills" else "Bill")
  }

  function Lines(entries: seq<Entry>): (r: seq<string>)
    ensures |r| == |entries|
    ensures forall i :: 0 <= i < |entries| ==> r[i] == RemarkLine(entries[i])
  {
    seq(|entries|, i requires 0 <= i < |entries| => RemarkLine(entries[i]))
  }

  /** A remark line as a reader takes it apart: the bullet, the category and
      "- ", then a numeral that reads back as `count`, then " Bill" for one
      bill and " Bills" for more. */
  predicate ReadsAs(line: string, cat: string, count: nat) {
    var prefix := Bullet + " " + cat + "- ";
    && |prefix| < |line| && line[..|prefix|] == prefix
    && var rest := line[|prefix|..];
       var n := SkipDigits(rest, 0);
       && 0 < n && AllDigits(rest[..n]) && DecimalValue(rest[..n]) == count
       && (count == 1 ==> rest[n..] == " Bill")
       && (count > 1 ==> rest[n..] == " Bills")
  }

  /** A line printed for a count of at least one reads back as its
      category and count, with the singular exactly for one bill. */
  lemma RemarkLineSpec(e: Entry)
    requires e.1 >= 1
    ensures ReadsAs(RemarkLine(e), e.0, e.1)
  {
    var prefix := Bullet + " " + e.0 + "- ";
    var digits := NatToString(e.1);
    var suffix := " " + (if e.1 > 1 then "Bills" else "Bill");
    var line := RemarkLine(e);
    assert line == prefix + digits + suffix;
    var rest := line[|prefix|..];
    assert rest == digits + suffix;
    assert rest[|digits|] == ' ';
    SkipDigitsTo(rest, 0, |digits|);
    assert rest[..|digits|] == digits;
    assert rest[|digits|..] == suffix;
    DecimalValueOfNatToString(e.1);
  }

  /** The label of each bill, in order. */
  function Labels(bills: seq<Bill>): (r: seq<string>)
    ensures |r| == |bills|
    ensures forall i :: 0 <= i < |bills| ==> r[i] == DisplayCategory(bills[i])
  {
    seq(|bills|, i requires 0 <= i < |bills| => DisplayCategory(bills[i]))
  }

  /** The entries that `getRemarks` prints, in printing order. */
  function RemarkEntries(bills: seq<Bill>): seq<Entry> {
    ObjectEntries(Tally(Labels(bills)))
  }

  /** `getRemarks`. */
  function Remarks(bills: seq<Bill>): string {
    if bills == [] then "" else Join(Lines(RemarkEntries(bills)), LineBreak)
  }

  /** The printed entries are one per distinct label, each carrying the
      number of bills with that label (at least one), and the counts add up
      to the number of bills. */
  lemma RemarkEntriesSpec(bills: seq<Bill>)
    ensures DistinctKeys(RemarkEntries(bills))
    ensures forall c :: CountIn(RemarkEntries(bills), c) == Count(Labels(bills), c)
    ensures forall c :: KeyIndex(RemarkEntries(bills), c).Some? <==> c in Labels(bills)
    ensures forall i :: 0 <= i < |RemarkEntries(bills)| ==> RemarkEntries(bills)[i].1 >= 1
    ensures SumCounts(RemarkEntries(bills)) == |bills|
  {
    var cats := Labels(bills);
    var t := Tally(cats);
    TallyKeys(cats);
    TallyCounts(cats);
    TallyPositive(cats);
    TallySum(cats);
    ObjectEntriesPermutes(t);
    var oe := RemarkEntries(bills);
    PermutedEntries(t, oe);
    forall i | 0 <= i < |oe|
      ensures oe[i].1 >= 1
    {
      assert oe[i] in multiset(t);
    }
  }

  /** Every line of the remarks names a distinct category and reads back as
      the number of bills in the bucket carrying it, with "Bill" exactly
      when that number is one. */
  lemma RemarkLinesSpec(bills: seq<Bill>)
    ensures var oe := RemarkEntries(bills);
      forall i :: 0 <= i < |oe| ==>
        oe[i].0 in Labels(bills) && ReadsAs(Lines(oe)[i], oe[i].0, Count(Labels(bills), oe[i].0))
  {
    var oe := RemarkEntries(bills);
    var cats := Labels(bills);
    RemarkEntriesSpec(bills);
    forall i | 0 <= i < |oe|
      ensures oe[i].0 in cats
      ensures ReadsAs(Lines(oe)[i], oe[i].0, Count(cats, oe[i].0))
    {
      assert KeyIndex(oe, oe[i].0).Some?;
      EntryReadsBack(oe, i, Count(cats, oe[i].0));
    }
  }

  /** The line of an entry whose key is unique reads back as the count the
      entries hold for that key. */
  lemma EntryReadsBack(oe: seq<Entry>, i: nat, count: nat)
    requires i < |oe| && DistinctKeys(oe) && oe[i].1 >= 1
    requires CountIn(oe, oe[i].0) == count
    ensures ReadsAs(Lines(oe)[i], oe[i].0, count)
  {
    assert KeyIndex(oe, oe[i].0) == Some(i);
    RemarkLineSpec(oe[i]);
  }

  /** Reordering entries with distinct keys keeps the keys distinct and
      every key's count. */
  lemma PermutedEntries(t: seq<Entry>, oe: seq<Entry>)
    requires multiset(oe) == multiset(t) && DistinctKeys(t)
    ensures DistinctKeys(oe)
    ensures forall c :: CountIn(oe, c) == CountIn(t, c)
    ensures forall c :: KeyIndex(oe, c).Some? <==> KeyIndex(t, c).Some?
  {
    forall i, j | 0 <= i < j < |oe|
      ensures oe[i].0 != oe[j].0
    {
      DistinctAfterPermutation(t, oe, i, j);
    }
    forall c
      ensures CountIn(oe, c) == CountIn(t, c)
      ensures KeyIndex(oe, c).Some? <==> KeyIndex(t, c).Some?
    {
      CountInAfterPermutation(t, oe, c);
    }
  }

  /** The remarks are empty exactly when the bucket is. */
  lemma RemarksEmpty(bills: seq<Bill>)
    ensures Remarks(bills) == "" <==> bills == []
  {
    if bills != [] {
      var cats := Labels(bills);
      TallyKeys(cats);
      assert cats[0] in cats;
      ObjectEntriesPermutes(Tally(cats));
      var oe := RemarkEntries(bills);
      assert |oe| > 0 by {
        assert |multiset(oe)| == |multiset(Tally(cats))|;
      }
      assert Lines(oe)[0][0] == Bullet[0];
    }
  }

  /** The share of e-bills in hundredths of a percent, rounded to nearest
      with halves up; 0 when nothing passed. */
  function PercentHundredths(eBills: nat, total: nat): nat {
    if total == 0 then 0 else (20000 * eBills + total) / (2 * total)
  }

  /** The rounded value is the nearest hundredth of `100 * eBills / total`,
      and no more than 100% when the e-bills are among the total. */
  lemma PercentNearest(eBills: nat, total: nat)
    requires total > 0
    ensures var h := PercentHundredths(eBills, total);
      2 * total * h <= 20000 * eBills + total < 2 * total * h + 2 * total
    ensures eBills <= total ==> PercentHundredths(eBills, total) <= 10000
  {
    var a, d := 20000 * eBills + total, 2 * total;
    var h := a / d;
    DivBounds(a, d);
    if eBills <= total && h > 10000 {
      MulMonotone(d, 10001, h);
      assert false;
    }
  }

  lemma DivBounds(a: nat, d: nat)
    requires d > 0
    ensures d * (a / d) <= a < d * (a / d) + d
  {
  }

  lemma MulMonotone(d: nat, x: nat, y: nat)
    requires x <= y
    ensures d * x <= d * y
  {
  }

  /** Hundredths written with two decimals. */
  function Fixed2(h: nat): (r: string)
    ensures |r| >= 4 && r[|r| - 3] == '.'
  {
    NatToString(h / 100) + "." + [DigitChar(h % 100 / 10), DigitChar(h % 10)]
  }

  /** Reading the two-decimal text back gives the hundredths. */
  lemma Fixed2Value(h: nat)
    ensures var r := Fixed2(h);
      AllDigits(r[..|r| - 3]) && IsDigit(r[|r| - 2]) && IsDigit(r[|r| - 1])
      && 100 * DecimalValue(r[..|r| - 3]) + 10 * (r[|r| - 2] as int - '0' as int) + (r[|r| - 1] as int - '0' as int) == h
  {
    var r := Fixed2(h);
    assert r[..|r| - 3] == NatToString(h / 100);
    DecimalValueOfNatToString(h / 100);
  }

  /** The percentage text of the report. */
  function PercentText(eBills: nat, total: nat): string {
    if total > 0 then Fixed2(PercentHundredths(eBills, total)) + "%" else "0.00%"
  }

  lemma PercentTextWhenNothingPassed(eBills: nat)
    ensures PercentText(eBills, 0) == "0.00%"
  {
  }

  /** One line of the report table as the report data holds it. */
  datatype Figure = Figure(passed: int, returned: int, remarks: string)

  datatype ReportData = ReportData(eBillsNcddo: Figure, eBillsCddo: Figure, normalBillsNcddo: Figure, normalBillsCddo: Figure)

  datatype Row = Row(title: string, passed: int, returned: int, total: int, remarks: string)

  /** The data of the ready-made report: the bucket sizes as passed counts,
      nothing returned, remarks for the normal buckets only. */
  function ReadymadeData(r: Reconciled): ReportData {
    ReportData(
      Figure(|r.ncddoEBills|, 0, ""), Figure(|r.cddoEBills|, 0, ""),
      Figure(|r.ncddoNormalBills|, 0, Remarks(r.ncddoNormalBills)),
      Figure(|r.cddoNormalBills|, 0, Remarks(r.cddoNormalBills)))
  }

  /** The percentage of the ready-made report. */
  function ReadymadePercentage(r: Reconciled): string {
    var eBills := |r.ncddoEBills| + |r.cddoEBills|;
    PercentText(eBills, eBills + |r.ncddoNormalBills| + |r.cddoNormalBills|)
  }

  function MakeRow(title: string, f: Figure, remarks: string): Row {
    Row(title, f.passed, f.returned, f.passed + f.returned, remarks)
  }

  /** The four rows of the table, in their fixed order; the e-bill rows
      carry no remarks. */
  function Rows(d: ReportData): (rows: seq<Row>)
    ensures |rows| == 4
    ensures forall i :: 0 <= i < 4 ==> rows[i].total == rows[i].passed + rows[i].returned
  {
    [MakeRow("E. Bills- NCDDO", d.eBillsNcddo, ""),
     MakeRow("E. Bills- CDDO", d.eBillsCddo, ""),
     MakeRow("Normal Bills- NCDDO", d.normalBillsNcddo, d.normalBillsNcddo.remarks),
     MakeRow("Normal Bills- CDDO", d.normalBillsCddo, d.normalBillsCddo.remarks)]
  }

  /** In the ready-made report every bill is counted once: the row totals
      add up to the number of bills and nothing is returned. */
  lemma ReadymadeRowsCountEveryBill(r: Reconciled)
    ensures var rows := Rows(ReadymadeData(r));
      && rows[0].total + rows[1].total + rows[2].total + rows[3].total ==
           |r.ncddoEBills| + |r.cddoEBills| + |r.ncddoNormalBills| + |r.cddoNormalBills|
      && rows[0].returned == 0 && rows[1].returned == 0 && rows[2].returned == 0 && rows[3].returned == 0
  {
    var d := ReadymadeData(r);
    assert d.eBillsNcddo.passed == |r.ncddoEBills| && d.eBillsCddo.passed == |r.cddoEBills|;
    assert d.normalBillsNcddo.passed == |r.ncddoNormalBills| && d.normalBillsCddo.passed == |r.cddoNormalBills|;
  }

  /** The percentage of e-bills is at most 100%. */
  lemma ReadymadePercentAtMost100(r: Reconciled)
    ensures var eBills := |r.ncddoEBills| + |r.cddoEBills|;
      var total := eBills + |r.ncddoNormalBills| + |r.cddoNormalBills|;
      PercentHundredths(eBills, total) <= 10000
  {
    var eBills := |r.ncddoEBills| + |r.cddoEBills|;
    var total := eBills + |r.ncddoNormalBills| + |r.cddoNormalBills|;
    if total > 0 {
      PercentNearest(eBills, total);
    }
  }

  /** Applied to a reconciliation, the row totals add up to the number of
      vouchers of the compilation sheet. */
  lemma ReadymadeRowsCountEveryVoucher(vouchers: seq<Voucher>, auth: map<string, AuthEntry>, issueDate: string)
    requires AllNamed(vouchers)
    ensures var rows := Rows(ReadymadeData(ReconcileSpec(vouchers, auth, issueDate).value));
      rows[0].total + rows[1].total + rows[2].total + rows[3].total == |vouchers|
  {
    var r := ReconcileSpec(vouchers, auth, issueDate).value;
    ReconcileAccountsForAll(vouchers, auth, issueDate);
    ReadymadeRowsCountEveryBill(r);
  }

  /** The height of a table row, given how many lines its remarks wrap to. */
  function RowHeight(remarks: string, lineCount: nat): (h: nat)
    ensures h >= 10
  {
    if remarks == "" then 10 else if 5 * lineCount + 4 > 10 then 5 * lineCount + 4 else 10
  }

  /** A row is the minimum height unless its remarks wrap to two lines or
      more, and it grows by five for every further line. */
  lemma RowHeightGrowth(remarks: string, lineCount: nat)
    ensures lineCount <= 1 ==> RowHeight(remarks, lineCount) == 10
    ensures remarks != "" && lineCount >= 2 ==> RowHeight(remarks, lineCount + 1) == RowHeight(remarks, lineCount) + 5
    ensures RowHeight(remarks, lineCount) <= RowHeight(remarks, lineCount + 1)
  {
  }

  /** `issueDate || today`. */
  function ReportDateOr(issueDate: string, today: string): (d: string)
    ensures issueDate != "" ==> d == issueDate
  {
    if issueDate != "" then issueDate else today
  }

  const FilePrefix := "Daily_Status_Report_"
  const FileSuffix := ".pdf"

  /** The name the report is saved under: slashes of the date become dashes. */
  function PdfFileName(reportDate: string): string {
    FilePrefix + ReplaceChar(reportDate, '/', '-') + FileSuffix
  }

  /** The file name has no slash; dates that do not use dashes get different
      names. */
  lemma PdfFileNameSpec(a: string, b: string)
    ensures '/' !in PdfFileName(a)
    ensures '-' !in a && '-' !in b && PdfFileName(a) == PdfFileName(b) ==> a == b
  {
    var ra, rb := ReplaceChar(a, '/', '-'), ReplaceChar(b, '/', '-');
    assert PdfFileName(a) == FilePrefix + ra + FileSuffix;
    forall k | 0 <= k < |PdfFileName(a)|
      ensures PdfFileName(a)[k] != '/'
    {
      if k < |FilePrefix| {
      } else if k < |FilePrefix| + |ra| {
        assert PdfFileName(a)[k] == ra[k - |FilePrefix|];
      }
    }
    if '-' !in a && '-' !in b && PdfFileName(a) == PdfFileName(b) {
      assert |ra| == |rb|;
      assert ra == PdfFileName(a)[|FilePrefix|..|FilePrefix| + |ra|];
      assert rb == PdfFileName(b)[|FilePrefix|..|FilePrefix| + |rb|];
      forall k | 0 <= k < |a|
        ensures a[k] == b[k]
      {
        assert ra[k] == rb[k];
      }
    }
  }

  /** The report date with the normal slashes gives the dashed file name. */
  lemma PdfFileNameExample()
    ensures PdfFileName("01/04/2024") == "Daily_Status_Report_01-04-2024.pdf"
  {
  }
}
