/** `getDisplayCategory`: the label of a bill in the report. Every marker
    present in the user name contributes its category, in a fixed order;
    only when none is present are the object heads used, or failing those
    the function heads. */
module Category {
  import opened Wrappers
  import opened Text
  import opened CompilationSheet
  import opened Reconcile

  const Separator := ", "
  const Uncategorized := "Uncategorized"

  /** The user-name markers and their categories, in the order they are
      looked for. */
  const Markers: seq<(string, string)> :=
    [("[GPFEIS]", "Gpf"), ("[EIS]", "Salary(eis)"), ("[GEM]", "Gem"), ("[Pension]", "Pension")]

  /** The categories of the markers among `markers` that occur in `userNm`,
      in the order of `markers`. */
  function MarkersIn(userNm: string, markers: seq<(string, string)>): seq<string>
    decreases |markers|
  {
    if markers == [] then []
    else
      var rest := MarkersIn(userNm, markers[1..]);
      if Contains(userNm, markers[0].0) then [markers[0].1] + rest else rest
  }

  /** The categories the user name contributes; none when it is null or
      empty. */
  function UserNmCategories(userNm: Option<string>): seq<string> {
    if userNm.Some? && userNm.value != "" then MarkersIn(userNm.value, Markers) else []
  }

  /** The `categories` array at the end of `getDisplayCategory`. */
  function Categories(b: Bill): seq<string> {
    var marked := UserNmCategories(b.userNm);
    if marked != [] then marked
    else if |b.voucher.objectHeads| > 0 then b.voucher.objectHeads
    else b.voucher.funcHeads
  }

  function DisplayCategory(b: Bill): string {
    var categories := Categories(b);
    if categories == [] then Uncategorized else Join(categories, Separator)
  }

  /** A marker occurs in the user name. */
  predicate HasMarker(userNm: Option<string>) {
    exists i :: 0 <= i < |Markers| && userNm.Some? && Contains(userNm.value, Markers[i].0)
  }

  /** The category of the marker at position `i` is listed exactly when the
      marker occurs, and nothing else is listed. */
  lemma {:induction false} MarkersInSpec(userNm: string, markers: seq<(string, string)>)
    ensures |MarkersIn(userNm, markers)| <= |markers|
    ensures MarkersIn(userNm, markers) == [] <==>
      forall i :: 0 <= i < |markers| ==> !Contains(userNm, markers[i].0)
    ensures forall i :: 0 <= i < |markers| && Contains(userNm, markers[i].0) ==>
      markers[i].1 in MarkersIn(userNm, markers)
    ensures forall c :: c in MarkersIn(userNm, markers) ==>
      exists i :: 0 <= i < |markers| && Contains(userNm, markers[i].0) && markers[i].1 == c
    decreases |markers|
  {
    if markers != [] {
      MarkersInSpec(userNm, markers[1..]);
      forall i | 1 <= i < |markers|
        ensures markers[i] == markers[1..][i - 1]
      {
      }
    }
  }

  /** When a marker occurs, the label is exactly the categories of the
      markers that occur, in the fixed order, comma-joined; the heads play
      no part. */
  lemma MarkersWin(b: Bill, objectHeads: seq<string>, funcHeads: seq<string>)
    requires HasMarker(b.userNm)
    ensures DisplayCategory(b) == Join(MarkersIn(b.userNm.value, Markers), Separator)
    ensures DisplayCategory(b) ==
      DisplayCategory(b.(voucher := b.voucher.(objectHeads := objectHeads, funcHeads := funcHeads)))
  {
    var i :| 0 <= i < |Markers| && b.userNm.Some? && Contains(b.userNm.value, Markers[i].0);
    MarkersInSpec(b.userNm.value, Markers);
  }

  /** Without a marker, the label is the object heads if there are any, else
      the function heads if there are any, else "Uncategorized". */
  lemma HeadsWhenUnmarked(b: Bill)
    requires !HasMarker(b.userNm)
    ensures |b.voucher.objectHeads| > 0 ==> DisplayCategory(b) == Join(b.voucher.objectHeads, Separator)
    ensures |b.voucher.objectHeads| == 0 && |b.voucher.funcHeads| > 0 ==>
      DisplayCategory(b) == Join(b.voucher.funcHeads, Separator)
    ensures |b.voucher.objectHeads| == 0 && |b.voucher.funcHeads| == 0 ==> DisplayCategory(b) == Uncategorized
  {
    if b.userNm.Some? {
      MarkersInSpec(b.userNm.value, Markers);
    }
  }

  /** A bill labelled "Uncategorized" has no marker and no heads, unless one
      of its heads is itself the text "Uncategorized". */
  lemma UncategorizedMeansNothingApplies(b: Bill)
    requires DisplayCategory(b) == Uncategorized
    requires Uncategorized !in b.voucher.objectHeads && Uncategorized !in b.voucher.funcHeads
    ensures !HasMarker(b.userNm)
    ensures b.voucher.objectHeads == [] && b.voucher.funcHeads == []
  {
    if b.userNm.Some? {
      MarkersInSpec(b.userNm.value, Markers);
    }
    var categories := Categories(b);
    if categories != [] {
      assert Uncategorized !in categories;
      JoinIsNotUncategorized(categories);
      assert false;
    }
  }

  /** A joined list of labels none of which is "Uncategorized" is not
      "Uncategorized": a single label is itself, and two or more are
      separated by a comma, which "Uncategorized" does not contain. */
  lemma JoinIsNotUncategorized(parts: seq<string>)
    requires parts != [] && Uncategorized !in parts
    ensures Join(parts, Separator) != Uncategorized
  {
    if |parts| > 1 {
      var joined := Join(parts, Separator);
      assert joined[|parts[0]|] == ',';
      assert forall k :: 0 <= k < |Uncategorized| ==> Uncategorized[k] != ',';
    } else {
      assert parts[0] in parts;
    }
  }
}
