/** The code-actions provider used for quick fixes (both the current
    `SonarLintDiagnosticCodeActionsProvider` and the older, identical
    `DiagnosticCodeActionsProvider`). At construction it pools the code-fix
    providers of every SonarAnalyzer code-action provider; for a diagnostic
    it asks each applicable fix provider, in pool order, to register its
    fixes, and returns the registered actions in that order. Registration
    is a host capability. */
module CodeActions {
  import opened Roslyn
  import Seqs

  /** The fix-provider pool. */
  function FixProviderPool(codeActionProviders: seq<CodeActionProvider>): (pool: seq<CodeFixProvider>)
    ensures forall p :: p in pool <==> exists i :: 0 <= i < |codeActionProviders| && p in codeActionProviders[i].codeFixProviders
  {
    var lists := Seqs.Map(codeActionProviders, FixProvidersOf());
    Seqs.FlattenMembershipAll(lists);
    Seqs.Flatten(lists)
  }

  function FixProvidersOf(): CodeActionProvider -> seq<CodeFixProvider> {
    (c: CodeActionProvider) => c.codeFixProviders
  }

  /** Pooling concatenates: the pool of two provider lists is the first
      list's pool followed by the second's, duplicates included. */
  lemma FixProviderPoolAppend(a: seq<CodeActionProvider>, b: seq<CodeActionProvider>)
    ensures FixProviderPool(a + b) == FixProviderPool(a) + FixProviderPool(b)
  {
    var f := FixProvidersOf();
    assert Seqs.Map(a + b, f) == Seqs.Map(a, f) + Seqs.Map(b, f);
    Seqs.FlattenAppend(Seqs.Map(a, f), Seqs.Map(b, f));
  }

  /** One code-action provider contributes its fix providers, in their
      order. */
  lemma FixProviderPoolSingle(c: CodeActionProvider)
    ensures FixProviderPool([c]) == c.codeFixProviders
  {
    var f := FixProvidersOf();
    assert Seqs.Map([c], f) == [c.codeFixProviders];
    assert Seqs.Flatten([c.codeFixProviders]) == c.codeFixProviders + Seqs.Flatten([]);
  }

  predicate IsApplicable(provider: CodeFixProvider, diagnostic: Diagnostic) {
    diagnostic.id in provider.fixableDiagnosticIds
  }

  function AppliesTo(diagnostic: Diagnostic): CodeFixProvider -> bool {
    (p: CodeFixProvider) => IsApplicable(p, diagnostic)
  }

  /** The fix providers asked to register fixes, in the order asked. */
  function AskedProviders(pool: seq<CodeFixProvider>, diagnostic: Diagnostic): (asked: seq<CodeFixProvider>)
    ensures Seqs.IsSubsequence(asked, pool)
    ensures forall p :: p in asked <==> p in pool && IsApplicable(p, diagnostic)
  {
    if |pool| == 0 then []
    else if IsApplicable(pool[0], diagnostic) then [pool[0]] + AskedProviders(pool[1..], diagnostic)
    else AskedProviders(pool[1..], diagnostic)
  }

  /** The asked providers are the pool's `Where(IsApplicable)`: each
      applicable entry as often as it is pooled. */
  lemma {:induction false} AskedProvidersFilterPool(pool: seq<CodeFixProvider>, diagnostic: Diagnostic)
    ensures AskedProviders(pool, diagnostic) == Seqs.Filter(pool, AppliesTo(diagnostic))
    ensures forall p ::
      multiset(AskedProviders(pool, diagnostic))[p] ==
      if IsApplicable(p, diagnostic) then multiset(pool)[p] else 0
  {
    Seqs.FilterCounts(pool, AppliesTo(diagnostic));
    if |pool| > 0 {
      AskedProvidersFilterPool(pool[1..], diagnostic);
    }
  }

  /** `GetCodeActions(diagnostic, document)`: what each asked provider
      registers, concatenated; nothing is deduplicated. */
  function GetCodeActions(
    pool: seq<CodeFixProvider>,
    diagnostic: Diagnostic,
    document: Document,
    registerCodeFixes: (CodeFixProvider, Diagnostic, Document) -> seq<CodeAction>): (actions: seq<CodeAction>)
    ensures |pool| == 0 ==> actions == []
    ensures (forall i :: 0 <= i < |pool| ==> !IsApplicable(pool[i], diagnostic)) ==> actions == []
  {
    if |pool| == 0 then []
    else if IsApplicable(pool[0], diagnostic)
    then registerCodeFixes(pool[0], diagnostic, document) + GetCodeActions(pool[1..], diagnostic, document, registerCodeFixes)
    else GetCodeActions(pool[1..], diagnostic, document, registerCodeFixes)
  }

  /** The actions are exactly those registered by the asked providers, in
      the order they were asked, each provider's actions kept in
      registration order. */
  lemma {:induction false} GetCodeActionsAreRegistrations(
    pool: seq<CodeFixProvider>,
    diagnostic: Diagnostic,
    document: Document,
    registerCodeFixes: (CodeFixProvider, Diagnostic, Document) -> seq<CodeAction>)
    ensures var asked := AskedProviders(pool, diagnostic);
      GetCodeActions(pool, diagnostic, document, registerCodeFixes)
        == Seqs.Flatten(Seqs.Map(asked, (p: CodeFixProvider) => registerCodeFixes(p, diagnostic, document)))
  {
    var f := (p: CodeFixProvider) => registerCodeFixes(p, diagnostic, document);
    if |pool| > 0 {
      GetCodeActionsAreRegistrations(pool[1..], diagnostic, document, registerCodeFixes);
      var rest := AskedProviders(pool[1..], diagnostic);
      if IsApplicable(pool[0], diagnostic) {
        assert Seqs.Map([pool[0]] + rest, f) == [f(pool[0])] + Seqs.Map(rest, f);
        Seqs.FlattenAppend([f(pool[0])], Seqs.Map(rest, f));
        assert Seqs.Flatten([f(pool[0])]) == f(pool[0]) + Seqs.Flatten([]);
      }
    } else {
      assert Seqs.Map([], f) == [];
    }
  }

  /** Providers contribute in pool order: splitting the pool splits the
      actions. */
  lemma {:induction false} GetCodeActionsAppend(
    a: seq<CodeFixProvider>, b: seq<CodeFixProvider>,
    diagnostic: Diagnostic,
    document: Document,
    registerCodeFixes: (CodeFixProvider, Diagnostic, Document) -> seq<CodeAction>)
    ensures GetCodeActions(a + b, diagnostic, document, registerCodeFixes)
         == GetCodeActions(a, diagnostic, document, registerCodeFixes) + GetCodeActions(b, diagnostic, document, registerCodeFixes)
  {
    if |a| == 0 {
      assert a + b == b;
    } else {
      assert (a + b)[1..] == a[1..] + b;
      GetCodeActionsAppend(a[1..], b, diagnostic, document, registerCodeFixes);
    }
  }
}
