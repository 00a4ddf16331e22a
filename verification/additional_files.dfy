/** Replacing a project's `SonarLint.xml` additional file by the one built
    from the active rules. Two matching rules exist in the source: the
    analysis-config providers remove files whose file name equals the new
    file's name ignoring case; the older Plugin worker removes files whose
    full path ends with that name, case-sensitively. */
module AdditionalFiles {
  import opened Strings
  import opened Roslyn
  import Seqs

  /** Config providers' `IsSonarLintAdditionalFile`. */
  predicate SameFileName(existing: AdditionalText, sonarLintFileName: string) {
    EqualsIgnoreCase(FileName(existing.path), sonarLintFileName)
  }

  /** Plugin worker's filter: `existing.Path.EndsWith(name)`. */
  predicate PathEndsWithName(existing: AdditionalText, sonarLintFileName: string) {
    EndsWith(existing.path, sonarLintFileName)
  }

  /** The two ways of recognising an existing `SonarLint.xml`. */
  datatype Matching = FileNameIgnoringCase | PathSuffix

  predicate IsSonarLintFile(matching: Matching, existing: AdditionalText, sonarLintFileName: string) {
    match matching
    case FileNameIgnoringCase => SameFileName(existing, sonarLintFileName)
    case PathSuffix => PathEndsWithName(existing, sonarLintFileName)
  }

  function NotRecognised(matching: Matching, sonarLintFileName: string): AdditionalText -> bool {
    (existing: AdditionalText) => !IsSonarLintFile(matching, existing, sonarLintFileName)
  }

  /** The existing files that are not recognised, in their order, each as
      often as it occurs. */
  function Kept(files: seq<AdditionalText>, matching: Matching, sonarLintFileName: string): (r: seq<AdditionalText>)
    ensures |r| <= |files|
    ensures forall f :: f in r <==> f in files && !IsSonarLintFile(matching, f, sonarLintFileName)
    ensures Seqs.IsSubsequence(r, files)
    ensures r == Seqs.Filter(files, NotRecognised(matching, sonarLintFileName))
    ensures forall f :: multiset(r)[f] == if IsSonarLintFile(matching, f, sonarLintFileName) then 0 else multiset(files)[f]
  {
    Seqs.FilterCounts(files, NotRecognised(matching, sonarLintFileName));
    if |files| == 0 then []
    else if IsSonarLintFile(matching, files[0], sonarLintFileName) then Kept(files[1..], matching, sonarLintFileName)
    else [files[0]] + Kept(files[1..], matching, sonarLintFileName)
  }

  /** Drop the recognised files, then append the new one; the config-options
      provider is carried over. */
  function Replace(options: AnalyzerOptions, sonarLintFile: AdditionalText, matching: Matching): (r: AnalyzerOptions)
    ensures r.configOptionsProvider == options.configOptionsProvider
    ensures |r.additionalFiles| > 0 && r.additionalFiles[|r.additionalFiles| - 1] == sonarLintFile
    ensures Seqs.IsSubsequence(r.additionalFiles[..|r.additionalFiles| - 1], options.additionalFiles)
    ensures forall f :: f in r.additionalFiles[..|r.additionalFiles| - 1] <==>
      f in options.additionalFiles && !IsSonarLintFile(matching, f, FileName(sonarLintFile.path))
    ensures forall f ::
      multiset(r.additionalFiles[..|r.additionalFiles| - 1])[f] ==
      if IsSonarLintFile(matching, f, FileName(sonarLintFile.path)) then 0 else multiset(options.additionalFiles)[f]
  {
    var kept := Kept(options.additionalFiles, matching, FileName(sonarLintFile.path));
    assert (kept + [sonarLintFile])[..|kept|] == kept;
    AnalyzerOptions(kept + [sonarLintFile], options.configOptionsProvider)
  }

  /** `GetWithSonarLintAdditionalFiles` of both config providers. */
  function ReplaceByFileName(options: AnalyzerOptions, sonarLintFile: AdditionalText): (r: AnalyzerOptions)
    ensures r.configOptionsProvider == options.configOptionsProvider
    ensures |r.additionalFiles| > 0 && r.additionalFiles[|r.additionalFiles| - 1] == sonarLintFile
    ensures forall f :: f in r.additionalFiles[..|r.additionalFiles| - 1] <==>
      f in options.additionalFiles && !EqualsIgnoreCase(FileName(f.path), FileName(sonarLintFile.path))
  {
    Replace(options, sonarLintFile, FileNameIgnoringCase)
  }

  /** `ForceSonarLintAdditionalFiles` of the Plugin worker. */
  function ReplaceByPathSuffix(options: AnalyzerOptions, sonarLintFile: AdditionalText): (r: AnalyzerOptions)
    ensures r.configOptionsProvider == options.configOptionsProvider
    ensures |r.additionalFiles| > 0 && r.additionalFiles[|r.additionalFiles| - 1] == sonarLintFile
    ensures forall f :: f in r.additionalFiles[..|r.additionalFiles| - 1] <==>
      f in options.additionalFiles && !EndsWith(f.path, FileName(sonarLintFile.path))
  {
    Replace(options, sonarLintFile, PathSuffix)
  }

  /** Replacement by file name keeps the other files in their order, each
      as often as it occurs. */
  lemma ReplaceByFileNameKeepsOthers(options: AnalyzerOptions, sonarLintFile: AdditionalText)
    ensures var files := ReplaceByFileName(options, sonarLintFile).additionalFiles;
      && Seqs.IsSubsequence(files[..|files| - 1], options.additionalFiles)
      && forall f ::
           multiset(files[..|files| - 1])[f] ==
           if EqualsIgnoreCase(FileName(f.path), FileName(sonarLintFile.path)) then 0 else multiset(options.additionalFiles)[f]
  {
  }

  /** Replacement by path suffix keeps the other files in their order, each
      as often as it occurs. */
  lemma ReplaceByPathSuffixKeepsOthers(options: AnalyzerOptions, sonarLintFile: AdditionalText)
    ensures var files := ReplaceByPathSuffix(options, sonarLintFile).additionalFiles;
      && Seqs.IsSubsequence(files[..|files| - 1], options.additionalFiles)
      && forall f ::
           multiset(files[..|files| - 1])[f] ==
           if EndsWith(f.path, FileName(sonarLintFile.path)) then 0 else multiset(options.additionalFiles)[f]
  {
  }

  /** After replacement by file name, the new file is the only one whose
      name matches, ignoring case. */
  lemma ReplaceByFileNameLeavesOne(options: AnalyzerOptions, sonarLintFile: AdditionalText)
    ensures var files := ReplaceByFileName(options, sonarLintFile).additionalFiles;
      forall i :: 0 <= i < |files| ==>
        (EqualsIgnoreCase(FileName(files[i].path), FileName(sonarLintFile.path)) <==> i == |files| - 1)
  {
    var files := ReplaceByFileName(options, sonarLintFile).additionalFiles;
    forall i | 0 <= i < |files|
      ensures EqualsIgnoreCase(FileName(files[i].path), FileName(sonarLintFile.path)) <==> i == |files| - 1
    {
      if i < |files| - 1 {
        assert files[i] in files[..|files| - 1];
      }
    }
  }

  /** After replacement by path suffix, the new file is the only one whose
      path ends with its name. */
  lemma ReplaceByPathSuffixLeavesOne(options: AnalyzerOptions, sonarLintFile: AdditionalText)
    ensures var files := ReplaceByPathSuffix(options, sonarLintFile).additionalFiles;
      forall i :: 0 <= i < |files| ==>
        (EndsWith(files[i].path, FileName(sonarLintFile.path)) <==> i == |files| - 1)
  {
    var files := ReplaceByPathSuffix(options, sonarLintFile).additionalFiles;
    forall i | 0 <= i < |files|
      ensures EndsWith(files[i].path, FileName(sonarLintFile.path)) <==> i == |files| - 1
    {
      if i < |files| - 1 {
        assert files[i] in files[..|files| - 1];
      }
    }
  }

  /** A bare name is its own file name. */
  lemma BareFileName(p: string)
    requires HasNoSeparator(p)
    ensures FileName(p) == p
  {
  }

  /** An existing file in another directory whose name differs from the new
      one only in letter case is removed. */
  lemma ReplaceByFileNameIgnoresDirectoryAndCase(
    existingDirectory: string, existingSeparator: char, existingName: string, existingContent: string,
    directory: string, separator: char, name: string, content: string, provider: nat)
    requires IsSeparator(existingSeparator) && HasNoSeparator(existingName)
    requires IsSeparator(separator) && HasNoSeparator(name)
    requires EqualsIgnoreCase(existingName, name)
    ensures var existing := AdditionalText(existingDirectory + [existingSeparator] + existingName, existingContent);
      var sonarLintFile := AdditionalText(directory + [separator] + name, content);
      ReplaceByFileName(AnalyzerOptions([existing], provider), sonarLintFile).additionalFiles == [sonarLintFile]
  {
    FileNameOfJoin(existingDirectory, existingSeparator, existingName);
    FileNameOfJoin(directory, separator, name);
    var existing := AdditionalText(existingDirectory + [existingSeparator] + existingName, existingContent);
    assert [existing][1..] == [];
  }

  /** The two rules differ: a bare file whose name only ends with the new
      file's name (`MySonarLint.xml` next to `SonarLint.xml`) is removed by
      the path-suffix rule and kept by the file-name rule. */
  lemma SuffixMatchRemovesMore(
    prefix: string, existingContent: string,
    directory: string, separator: char, name: string, content: string, provider: nat)
    requires |prefix| > 0 && HasNoSeparator(prefix + name)
    requires IsSeparator(separator)
    ensures var existing := AdditionalText(prefix + name, existingContent);
      var sonarLintFile := AdditionalText(directory + [separator] + name, content);
      var options := AnalyzerOptions([existing], provider);
      && ReplaceByPathSuffix(options, sonarLintFile).additionalFiles == [sonarLintFile]
      && ReplaceByFileName(options, sonarLintFile).additionalFiles == [existing, sonarLintFile]
  {
    assert HasNoSeparator(name) by {
      forall i | 0 <= i < |name| ensures !IsSeparator(name[i]) {
        assert name[i] == (prefix + name)[|prefix| + i];
      }
    }
    FileNameOfJoin(directory, separator, name);
    var existing := AdditionalText(prefix + name, existingContent);
    assert FileName(existing.path) == existing.path;
    assert (prefix + name)[|prefix + name| - |name|..] == name;
    assert PathEndsWithName(existing, name);
    assert !SameFileName(existing, name);
    assert [existing][1..] == [];
  }
}
