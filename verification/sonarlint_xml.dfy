/** The `SonarLint.xml` additional file handed to the analyzers: the rule
    list converted to a `SonarLintConfiguration`, serialised, and wrapped
    in an additional text named `SonarLint.xml` under the temp directory. */
module SonarLintXml {
  import opened Wrappers
  import opened Strings
  import opened Roslyn
  import opened Rules
  import Seqs

  datatype SonarLintKeyValuePair = SonarLintKeyValuePair(key: string, value: string)

  /** `parameters` is `None` when the rule's parameter dictionary is null. */
  datatype SonarLintRule = SonarLintRule(key: string, parameters: Option<seq<SonarLintKeyValuePair>>)

  /** `settings` and `rules` may be null in the source type; the converter
      always sets `settings` to null and `rules` to a list. */
  datatype SonarLintConfiguration = SonarLintConfiguration(
    settings: Option<seq<SonarLintKeyValuePair>>,
    rules: Option<seq<SonarLintRule>>)

  function ToPair(p: (string, string)): SonarLintKeyValuePair {
    SonarLintKeyValuePair(p.0, p.1)
  }

  function ConvertParameters(ps: Option<seq<(string, string)>>): (r: Option<seq<SonarLintKeyValuePair>>)
    ensures r.None? <==> ps.None?
    ensures r.Some? ==>
      && |r.value| == |ps.value|
      && (forall j :: 0 <= j < |ps.value| ==> r.value[j].key == ps.value[j].0 && r.value[j].value == ps.value[j].1)
  {
    match ps
    case None => None
    case Some(s) => Some(Seqs.Map(s, ToPair))
  }

  function ConvertRule(rule: RuleDefinition): SonarLintRule {
    SonarLintRule(rule.ruleId, ConvertParameters(rule.parameters))
  }

  /** `RulesToSonarLintConfigurationConverter.Convert`: one rule per input
      rule, in order, keyed by the rule id, with the parameters copied
      pair by pair (null stays null); no settings. Rules without
      parameters are kept. */
  function ConvertToConfiguration(rules: seq<RuleDefinition>): (c: SonarLintConfiguration)
    ensures c.settings.None? && c.rules.Some?
    ensures |c.rules.value| == |rules|
    ensures forall i :: 0 <= i < |rules| ==>
      && c.rules.value[i].key == rules[i].ruleId
      && (c.rules.value[i].parameters.None? <==> rules[i].parameters.None?)
    ensures rules == [] ==> c.rules.value == []
  {
    SonarLintConfiguration(None, Some(Seqs.Map(rules, ConvertRule)))
  }

  /** Reading a configuration back as rule definitions. */
  function FromPair(p: SonarLintKeyValuePair): (string, string) {
    (p.key, p.value)
  }

  function RuleFromConfiguration(r: SonarLintRule): RuleDefinition {
    RuleDefinition(r.key, match r.parameters case None => None case Some(s) => Some(Seqs.Map(s, FromPair)))
  }

  function RulesFromConfiguration(c: SonarLintConfiguration): seq<RuleDefinition> {
    match c.rules
    case None => []
    case Some(rs) => Seqs.Map(rs, RuleFromConfiguration)
  }

  /** The conversion loses nothing: the rule definitions can be read back
      from the configuration, ids, order and parameters included. */
  lemma ConfigurationRoundTrip(rules: seq<RuleDefinition>)
    ensures RulesFromConfiguration(ConvertToConfiguration(rules)) == rules
  {
    var back := RulesFromConfiguration(ConvertToConfiguration(rules));
    forall i | 0 <= i < |rules|
      ensures back[i] == rules[i]
    {
      var ps := rules[i].parameters;
      if ps.Some? {
        var conv := ConvertParameters(ps).value;
        assert Seqs.Map(conv, FromPair) == ps.value;
      }
    }
  }

  /** The fixed name the analyzers look for. */
  const SonarLintXmlFileName := "SonarLint.xml"

  /** `Path.Combine(directory, name)` for a relative `name`: a separator is
      inserted unless the directory is empty or already ends with one. */
  function CombinePath(directory: string, name: string, separator: char): string
    requires IsSeparator(separator)
  {
    if directory == [] then name
    else if IsSeparator(directory[|directory| - 1]) then directory + name
    else directory + [separator] + name
  }

  /** A name without separators is the file name of any path built from
      it. */
  lemma FileNameOfCombinePath(directory: string, name: string, separator: char)
    requires IsSeparator(separator) && HasNoSeparator(name)
    ensures FileName(CombinePath(directory, name, separator)) == name
  {
    if directory == [] {
      assert LastSeparator(name).None?;
    } else if IsSeparator(directory[|directory| - 1]) {
      var d := directory[..|directory| - 1];
      assert directory == d + [directory[|directory| - 1]];
      FileNameOfJoin(d, directory[|directory| - 1], name);
    } else {
      FileNameOfJoin(directory, separator, name);
    }
  }

  /** `RulesToAdditionalTextConverter.Convert`: the serialised configuration
      under `<temp>/SonarLint.xml`. The XML serialiser is a parameter. */
  function ToAdditionalText(
    rules: seq<RuleDefinition>,
    tempPath: string,
    separator: char,
    serialize: SonarLintConfiguration -> string): (t: AdditionalText)
    requires IsSeparator(separator)
    ensures FileName(t.path) == SonarLintXmlFileName
    ensures t.content == serialize(ConvertToConfiguration(rules))
  {
    FileNameOfCombinePath(tempPath, SonarLintXmlFileName, separator);
    AdditionalText(CombinePath(tempPath, SonarLintXmlFileName, separator), serialize(ConvertToConfiguration(rules)))
  }
}
