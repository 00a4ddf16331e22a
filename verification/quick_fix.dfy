/** Quick fixes attached to a diagnostic location: a quick fix is a message
    and a non-empty list of fixes; a fix is a file name and a non-empty
    list of edits; an edit is a range and its replacement text. The
    constructors refuse empty lists; edits are stored as given, with no
    range check. */
module QuickFixes {
  import opened Wrappers

  datatype Edit = Edit(startLine: int, endLine: int, startColumn: int, endColumn: int, newText: Option<string>)

  datatype Fix = Fix(fileName: Option<string>, edits: seq<Edit>)

  datatype QuickFix = QuickFix(message: Option<string>, fixes: seq<Fix>)

  const NoFixes := ArgumentNullException("fixes", "A quick fix should have at least one fix.")
  const NoEdits := ArgumentNullException("edits", "A fix should have at least one edit.")

  /** The shape every constructed value has. */
  predicate ValidFix(f: Fix) {
    |f.edits| > 0
  }

  predicate ValidQuickFix(q: QuickFix) {
    |q.fixes| > 0 && forall i :: 0 <= i < |q.fixes| ==> ValidFix(q.fixes[i])
  }

  /** `new Edit(startLine, endLine, startColumn, endColumn, newText)`. */
  function NewEdit(startLine: int, endLine: int, startColumn: int, endColumn: int, newText: Option<string>): (e: Edit)
    ensures e.startLine == startLine && e.endLine == endLine
    ensures e.startColumn == startColumn && e.endColumn == endColumn
    ensures e.newText == newText
  {
    Edit(startLine, endLine, startColumn, endColumn, newText)
  }

  /** `new Fix(fileName, edits)`: a null or empty list is refused. */
  function NewFix(fileName: Option<string>, edits: Option<seq<Edit>>): (r: Result<Fix>)
    ensures r.Failure? <==> edits.None? || edits.value == []
    ensures r.Failure? ==> r.error == NoEdits
    ensures r.Success? ==> r.value.fileName == fileName && r.value.edits == edits.value && ValidFix(r.value)
  {
    if edits.None? || |edits.value| == 0 then Failure(NoEdits)
    else Success(Fix(fileName, edits.value))
  }

  /** `new QuickFix(message, fixes)`: a null or empty list is refused. */
  function NewQuickFix(message: Option<string>, fixes: Option<seq<Fix>>): (r: Result<QuickFix>)
    ensures r.Failure? <==> fixes.None? || fixes.value == []
    ensures r.Failure? ==> r.error == NoFixes
    ensures r.Success? ==> r.value.message == message && r.value.fixes == fixes.value
  {
    if fixes.None? || |fixes.value| == 0 then Failure(NoFixes)
    else Success(QuickFix(message, fixes.value))
  }

  /** The `Fix` constructor rebuilds exactly the fixes of the valid shape
      from their parts. */
  lemma NewFixRoundTrip(f: Fix)
    ensures NewFix(f.fileName, Some(f.edits)) == Success(f) <==> ValidFix(f)
  {
  }

  /** The `QuickFix` constructor rebuilds a quick fix from its parts
      exactly when it has a fix; it does not look inside the fixes. */
  lemma NewQuickFixRoundTrip(q: QuickFix)
    ensures NewQuickFix(q.message, Some(q.fixes)) == Success(q) <==> |q.fixes| > 0
    ensures ValidQuickFix(q) ==> NewQuickFix(q.message, Some(q.fixes)) == Success(q)
  {
  }

  /** Building a quick fix only from fixes the `Fix` constructor accepted
      yields a quick fix with at least one fix, each with at least one
      edit. */
  lemma NewQuickFixOfNewFixes(message: Option<string>, fileNames: seq<Option<string>>, edits: seq<Option<seq<Edit>>>, fixes: seq<Fix>)
    requires |fileNames| == |edits| == |fixes|
    requires forall i :: 0 <= i < |fixes| ==> NewFix(fileNames[i], edits[i]) == Success(fixes[i])
    ensures var q := NewQuickFix(message, Some(fixes));
      q.Success? <==> |fixes| > 0
    ensures NewQuickFix(message, Some(fixes)).Success? ==> ValidQuickFix(NewQuickFix(message, Some(fixes)).value)
  {
  }
}
