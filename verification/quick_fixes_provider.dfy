/** `DiagnosticQuickFixesProvider.GetDiagnosticQuickFixes`: for a diagnostic
    in a file, one quick fix per code action the code-actions provider
    returns. For each action, every apply-changes operation is diffed
    against the solution before it (the workspace's current solution for
    the first, the previous operation's changed solution afterwards); each
    modified file becomes a fix whose edits copy the text changes
    verbatim. The workspace lookup, the code actions, their operations and
    the diffing are host capabilities. */
module QuickFixesProvider {
  import opened Wrappers
  import opened Roslyn
  import opened QuickFixes
  import Strings
  import Seqs

  /** A `LinePositionSpanTextChange` of the diff. */
  datatype TextChange = TextChange(newText: Option<string>, startLine: int, startColumn: int, endLine: int, endColumn: int)

  /** A `ModifiedFileResponse` of the diff. */
  datatype ModifiedFileResponse = ModifiedFileResponse(fileName: Option<string>, changes: seq<TextChange>)

  /** The arguments of one `GetFileChangesAsync` call. The callee belongs
      to OmniSharp's `BaseCodeActionService`, which is not part of this
      model: its two trailing flags are kept as the values passed, under
      the names of OmniSharp's parameters. */
  datatype FileChangesRequest = FileChangesRequest(
    changedSolution: Solution,
    baseSolution: Solution,
    directory: Option<string>,
    wantTextChanges: bool,
    wantsAllCodeActionOperations: bool)

  /** The changed solutions of the apply-changes operations, in order;
      other operations are skipped. */
  function ChangedSolutions(operations: seq<Operation>): (r: seq<Solution>)
    ensures |r| <= |operations|
    ensures forall s :: s in r <==> ApplyChanges(s) in operations
    ensures (forall i :: 0 <= i < |operations| ==> operations[i].OtherOperation?) ==> r == []
  {
    if |operations| == 0 then []
    else if operations[0].ApplyChanges? then [operations[0].changedSolution] + ChangedSolutions(operations[1..])
    else ChangedSolutions(operations[1..])
  }

  lemma {:induction false} ChangedSolutionsAppend(a: seq<Operation>, b: seq<Operation>)
    ensures ChangedSolutions(a + b) == ChangedSolutions(a) + ChangedSolutions(b)
  {
    if |a| == 0 {
      assert a + b == b;
    } else {
      assert (a + b)[1..] == a[1..] + b;
      ChangedSolutionsAppend(a[1..], b);
    }
  }

  /** Operations that do not apply changes leave no trace: inserting one
      anywhere changes nothing. */
  lemma OtherOperationIgnored(before: seq<Operation>, handle: nat, after: seq<Operation>)
    ensures ChangedSolutions(before + [OtherOperation(handle)] + after) == ChangedSolutions(before + after)
  {
    var other := [OtherOperation(handle)];
    assert ChangedSolutions(other) == [] by {
      assert other[1..] == [];
    }
    ChangedSolutionsAppend(before + other, after);
    ChangedSolutionsAppend(before, other);
    ChangedSolutionsAppend(before, after);
    assert ChangedSolutions(before + other) == ChangedSolutions(before);
  }

  /** The diff calls of one action: each changed solution against the one
      before it, starting from `current`, always with `true, false` as the
      two trailing flags. */
  function DiffRequests(changed: seq<Solution>, current: Solution, directory: Option<string>): (r: seq<FileChangesRequest>)
    ensures |r| == |changed|
    ensures forall i :: 0 <= i < |r| ==>
      && r[i].changedSolution == changed[i]
      && r[i].directory == directory
      && r[i].wantTextChanges && !r[i].wantsAllCodeActionOperations
    ensures |r| > 0 ==> r[0].baseSolution == current
    ensures forall i :: 0 < i < |r| ==> r[i].baseSolution == changed[i - 1]
  {
    if |changed| == 0 then []
    else [FileChangesRequest(changed[0], current, directory, true, false)] + DiffRequests(changed[1..], changed[0], directory)
  }

  /** `ToEdit`: the coordinates and the text are copied, not shifted. */
  function ToEdit(change: TextChange): (e: Edit)
    ensures e.startLine == change.startLine && e.startColumn == change.startColumn
    ensures e.endLine == change.endLine && e.endColumn == change.endColumn
    ensures e.newText == change.newText
  {
    NewEdit(change.startLine, change.endLine, change.startColumn, change.endColumn, change.newText)
  }

  /** `ToFix`: one fix per modified file; a file without changes makes the
      `Fix` constructor throw. */
  function ToFix(response: ModifiedFileResponse): (r: Result<Fix>)
    ensures r.Failure? <==> response.changes == []
    ensures r.Failure? ==> r.error == NoEdits
    ensures r.Success? ==>
      && r.value.fileName == response.fileName
      && |r.value.edits| == |response.changes|
      && forall j :: 0 <= j < |response.changes| ==> r.value.edits[j] == ToEdit(response.changes[j])
  {
    NewFix(response.fileName, Some(Seqs.Map(response.changes, ToEdit)))
  }

  /** The fixes of a list of responses, in order; the first response
      without changes aborts. */
  function ToFixes(responses: seq<ModifiedFileResponse>): (r: Result<seq<Fix>>)
    ensures r.Failure? <==> exists i :: 0 <= i < |responses| && responses[i].changes == []
    ensures r.Failure? ==> r.error == NoEdits
    ensures r.Success? ==>
      && |r.value| == |responses|
      && forall i :: 0 <= i < |responses| ==> ToFix(responses[i]) == Success(r.value[i])
  {
    if |responses| == 0 then Success([])
    else
      var first :- ToFix(responses[0]);
      var rest :- ToFixes(responses[1..]);
      assert forall i :: 1 <= i < |responses| ==> responses[i] == responses[1..][i - 1];
      Success([first] + rest)
  }

  /** The quick fix of one code action: the fixes of every modified file of
      every apply-changes operation, in operation order then file order,
      with the action's title as message. */
  function ActionQuickFix(
    action: CodeAction,
    operations: seq<Operation>,
    current: Solution,
    directory: Option<string>,
    getFileChanges: FileChangesRequest -> seq<ModifiedFileResponse>): (r: Result<QuickFix>)
    ensures var responses := Seqs.Flatten(Seqs.Map(DiffRequests(ChangedSolutions(operations), current, directory), getFileChanges));
      && (r.Success? <==> |responses| > 0 && forall i :: 0 <= i < |responses| ==> responses[i].changes != [])
      && (r.Success? ==>
            && r.value.message == Some(action.title)
            && ValidQuickFix(r.value)
            && |r.value.fixes| == |responses|
            && forall i :: 0 <= i < |responses| ==> ToFix(responses[i]) == Success(r.value.fixes[i]))
  {
    var responses := Seqs.Flatten(Seqs.Map(DiffRequests(ChangedSolutions(operations), current, directory), getFileChanges));
    var fixes :- ToFixes(responses);
    NewQuickFix(Some(action.title), Some(fixes))
  }

  /** One quick fix per action, in action order; the first failure
      aborts. */
  function ActionsQuickFixes(
    actions: seq<CodeAction>,
    getOperations: CodeAction -> seq<Operation>,
    current: Solution,
    directory: Option<string>,
    getFileChanges: FileChangesRequest -> seq<ModifiedFileResponse>): (r: Result<seq<QuickFix>>)
    ensures r.Failure? <==> exists i :: 0 <= i < |actions| && ActionQuickFix(actions[i], getOperations(actions[i]), current, directory, getFileChanges).Failure?
    ensures r.Success? ==>
      && |r.value| == |actions|
      && forall i :: 0 <= i < |actions| ==>
           && ActionQuickFix(actions[i], getOperations(actions[i]), current, directory, getFileChanges) == Success(r.value[i])
           && r.value[i].message == Some(actions[i].title)
  {
    if |actions| == 0 then Success([])
    else
      var first :- ActionQuickFix(actions[0], getOperations(actions[0]), current, directory, getFileChanges);
      var rest :- ActionsQuickFixes(actions[1..], getOperations, current, directory, getFileChanges);
      assert forall i :: 1 <= i < |actions| ==> actions[i] == actions[1..][i - 1];
      Success([first] + rest)
  }

  /** `Path.GetDirectoryName`, null for a null path. */
  function DirectoryOf(filePath: Option<string>): Option<string> {
    match filePath
    case None => None
    case Some(p) => Some(Strings.DirectoryName(p))
  }

  /** `GetDiagnosticQuickFixes(diagnostic, filePath)`. */
  function GetDiagnosticQuickFixes(
    diagnostic: Diagnostic,
    filePath: Option<string>,
    getDocument: Option<string> -> Option<Document>,
    getCodeActions: (Diagnostic, Document) -> seq<CodeAction>,
    getOperations: CodeAction -> seq<Operation>,
    currentSolution: Solution,
    getFileChanges: FileChangesRequest -> seq<ModifiedFileResponse>): (r: Result<seq<QuickFix>>)
    ensures getDocument(filePath).None? ==> r == Success([])
    ensures getDocument(filePath).Some? ==>
      var actions := getCodeActions(diagnostic, getDocument(filePath).value);
      && (r.Success? ==> |r.value| == |actions| && forall i :: 0 <= i < |actions| ==> r.value[i].message == Some(actions[i].title))
      && (r.Success? ==> forall i :: 0 <= i < |r.value| ==> ValidQuickFix(r.value[i]))
      && (r.Success? ==> forall i :: 0 <= i < |actions| ==>
            ActionQuickFix(actions[i], getOperations(actions[i]), currentSolution, DirectoryOf(filePath), getFileChanges)
            == Success(r.value[i]))
      && (r.Failure? <==>
            exists i :: 0 <= i < |actions| && ActionQuickFix(actions[i], getOperations(actions[i]), currentSolution, DirectoryOf(filePath), getFileChanges).Failure?)
  {
    match getDocument(filePath)
    case None => Success([])
    case Some(document) =>
      ActionsQuickFixes(getCodeActions(diagnostic, document), getOperations, currentSolution, DirectoryOf(filePath), getFileChanges)
  }

  /** A path the workspace does not know gives no quick fix, whatever the
      code-actions provider would answer: it is not consulted. */
  lemma UnknownDocumentSkipsCodeActions(
    diagnostic: Diagnostic,
    filePath: Option<string>,
    getDocument: Option<string> -> Option<Document>,
    getCodeActions1: (Diagnostic, Document) -> seq<CodeAction>,
    getCodeActions2: (Diagnostic, Document) -> seq<CodeAction>,
    getOperations: CodeAction -> seq<Operation>,
    currentSolution: Solution,
    getFileChanges: FileChangesRequest -> seq<ModifiedFileResponse>)
    requires getDocument(filePath).None?
    ensures GetDiagnosticQuickFixes(diagnostic, filePath, getDocument, getCodeActions1, getOperations, currentSolution, getFileChanges)
         == GetDiagnosticQuickFixes(diagnostic, filePath, getDocument, getCodeActions2, getOperations, currentSolution, getFileChanges)
         == Success([])
  {
  }

  /** An action whose operations change no file cannot become a quick fix:
      the `QuickFix` constructor refuses the empty fix list. */
  lemma ActionWithoutApplyChangesFails(
    action: CodeAction,
    operations: seq<Operation>,
    current: Solution,
    directory: Option<string>,
    getFileChanges: FileChangesRequest -> seq<ModifiedFileResponse>)
    requires forall i :: 0 <= i < |operations| ==> operations[i].OtherOperation?
    ensures ActionQuickFix(action, operations, current, directory, getFileChanges) == Failure(NoFixes)
  {
    assert Seqs.Map(DiffRequests([], current, directory), getFileChanges) == [];
  }
}
