/** The rule configuration the Java sensor pushes to OmniSharp: the rule
    keys scraped line by line from the bundled `rules.xml`, memoised per
    sensor, and the `{"rules": [...]}` object built from them and the
    active rules of the `csharpsquid` repository. */
module SensorRules {
  import opened Wrappers
  import opened Strings

  const RepositoryKey := "csharpsquid"

  const KeyOpen := "<key>"
  const KeyClose := "</key>"
  /** Only keys of SonarC# rules are recognised: they start with `S`. */
  const SonarKeyOpen := "<key>S"

  /** A line that starts with `<key>S` and ends with `</key>` holds both
      tags without overlap, so the text between them is non-empty. */
  lemma KeyLineLength(t: string)
    requires StartsWith(t, SonarKeyOpen) && EndsWith(t, KeyClose)
    ensures |t| >= |SonarKeyOpen| + |KeyClose|
  {
    var n := |t|;
    var pre := t[..6];
    var suf := t[n - 6..];
    assert pre == "<key>S" && suf == "</key>";
    // the closing tag's "</" cannot start inside the opening tag
    assert forall i :: 1 <= i < 6 ==> t[i] == pre[i] != '<';
    assert t[1] == pre[1] == 'k';
    assert t[n - 6] == suf[0] == '<' && t[n - 5] == suf[1] == '/';
  }

  /** The key a line of `rules.xml` declares, if any: the trimmed line must
      be `<key>`, a key starting with `S`, and `</key>`. */
  function RuleKeyOfLine(line: string): (key: Option<string>)
    ensures key.Some? <==> StartsWith(Trim(line), SonarKeyOpen) && EndsWith(Trim(line), KeyClose)
    ensures key.Some? ==> Trim(line) == KeyOpen + key.value + KeyClose
    ensures key.Some? ==> |key.value| > 0 && key.value[0] == 'S'
  {
    var t := Trim(line);
    if StartsWith(t, SonarKeyOpen) && EndsWith(t, KeyClose) then
      KeyLineLength(t);
      var k := t[|KeyOpen|..|t| - |KeyClose|];
      assert t == t[..|KeyOpen|] + k + t[|t| - |KeyClose|..];
      assert k[0] == t[..6][5];
      Some(k)
    else
      None
  }

  /** Writing a key between the tags, with any blank indentation or
      trailing blanks, and reading the line back gives the key. */
  lemma RuleKeyOfLineRoundTrip(indent: string, key: string, trailing: string)
    requires forall i :: 0 <= i < |indent| ==> IsBlank(indent[i])
    requires forall i :: 0 <= i < |trailing| ==> IsBlank(trailing[i])
    requires |key| > 0 && key[0] == 'S'
    ensures RuleKeyOfLine(indent + KeyOpen + key + KeyClose + trailing) == Some(key)
  {
    var body := KeyOpen + key + KeyClose;
    assert indent + KeyOpen + key + KeyClose + trailing == indent + body + trailing;
    TrimPadded(indent, body, trailing);
    assert body[..6] == SonarKeyOpen;
    assert body[|body| - 6..] == KeyClose;
  }

  /** A line whose key does not start with `S` declares nothing. */
  lemma NonSonarKeyIgnored(key: string)
    requires |key| > 0 && key[0] != 'S'
    ensures RuleKeyOfLine(KeyOpen + key + KeyClose) == None
  {
    var line := KeyOpen + key + KeyClose;
    TrimNoBlankEnds(line);
    assert line[5] == key[0];
  }

  /** `getAllRulesKeys` without the memo: the keys of the lines, in line
      order. */
  function AllRulesKeys(lines: seq<string>): (keys: seq<string>)
    ensures |keys| <= |lines|
    ensures forall i :: 0 <= i < |lines| && RuleKeyOfLine(lines[i]).Some? ==> RuleKeyOfLine(lines[i]).value in keys
    ensures forall k :: k in keys ==> exists i :: 0 <= i < |lines| && RuleKeyOfLine(lines[i]) == Some(k)
  {
    if |lines| == 0 then []
    else
      var rest := AllRulesKeys(lines[1..]);
      assert forall i :: 1 <= i < |lines| ==> lines[i] == lines[1..][i - 1];
      match RuleKeyOfLine(lines[0])
      case Some(k) => [k] + rest
      case None => rest
  }

  /** Keys come out in line order: the keys of two consecutive blocks of
      lines are those of the first block followed by those of the second. */
  lemma {:induction false} AllRulesKeysAppend(a: seq<string>, b: seq<string>)
    ensures AllRulesKeys(a + b) == AllRulesKeys(a) + AllRulesKeys(b)
  {
    if |a| == 0 {
      assert a + b == b;
    } else {
      assert (a + b)[1..] == a[1..] + b;
      AllRulesKeysAppend(a[1..], b);
    }
  }

  /** The sensor's memo of the rule keys; `None` until first read. */
  datatype KeysMemo = KeysMemo(allRulesKeys: Option<seq<string>>)

  const NewMemo := KeysMemo(None)

  /** The bundled `rules.xml` as the reader delivers it: the lines read,
      and whether reading then failed with an I/O error. */
  datatype RulesXml = RulesXml(lines: seq<string>, readFails: bool)

  const UnableToLoadRules := IllegalStateException("Unable to load rules")

  /** `getAllRulesKeys`: on the first call the memo is set to an empty list
      that collects the keys as the lines are read. A read failure throws,
      but the keys collected so far stay memoised, and later calls return
      them. */
  function GetAllRulesKeys(memo: KeysMemo, rulesXml: RulesXml): (r: (Result<seq<string>>, KeysMemo))
    ensures memo.allRulesKeys.Some? ==> r == (Success(memo.allRulesKeys.value), memo)
    ensures memo.allRulesKeys.None? ==> r.1.allRulesKeys == Some(AllRulesKeys(rulesXml.lines))
    ensures memo.allRulesKeys.None? ==> (r.0.Failure? <==> rulesXml.readFails)
    ensures r.0.Failure? ==> r.0.error == UnableToLoadRules
    ensures r.0.Success? ==> r.1.allRulesKeys == Some(r.0.value)
  {
    match memo.allRulesKeys
    case Some(keys) => (Success(keys), memo)
    case None =>
      var keys := AllRulesKeys(rulesXml.lines);
      (if rulesXml.readFails then Failure(UnableToLoadRules) else Success(keys), KeysMemo(Some(keys)))
  }

  /** Once read, the keys no longer depend on the rules file: a second
      call returns the first call's keys. */
  lemma RulesKeysMemoised(rulesXml1: RulesXml, rulesXml2: RulesXml)
    requires !rulesXml1.readFails
    ensures var (keys1, memo1) := GetAllRulesKeys(NewMemo, rulesXml1);
      && keys1 == Success(AllRulesKeys(rulesXml1.lines))
      && GetAllRulesKeys(memo1, rulesXml2) == (keys1, memo1)
  {
  }

  /** A failed read is not retried: the call after it succeeds with the
      keys of the lines read before the failure. */
  lemma FailedReadKeepsPartialKeys(rulesXml1: RulesXml, rulesXml2: RulesXml)
    requires rulesXml1.readFails
    ensures var (keys1, memo1) := GetAllRulesKeys(NewMemo, rulesXml1);
      && keys1 == Failure(UnableToLoadRules)
      && GetAllRulesKeys(memo1, rulesXml2).0 == Success(AllRulesKeys(rulesXml1.lines))
  {
  }

  /** A rule key of the analysis engine: repository and rule. */
  datatype RuleKey = RuleKey(repository: string, rule: string)

  /** An active rule and the entries of its parameter map, in iteration
      order. */
  datatype ActiveRule = ActiveRule(params: seq<(string, string)>)

  type ActiveRules = map<RuleKey, ActiveRule>

  /** One element of the `rules` array. */
  datatype RuleJson = RuleJson(ruleId: string, isEnabled: bool, params: Option<seq<(string, string)>>)

  /** The object sent to `/sonarlint/config`. */
  datatype ConfigJson = ConfigJson(rules: seq<RuleJson>)

  function RuleJsonOf(rule: string, activeRules: ActiveRules): (r: RuleJson)
    ensures r.ruleId == rule
    ensures r.isEnabled <==> RuleKey(RepositoryKey, rule) in activeRules
    ensures r.params.Some? <==> r.isEnabled && |activeRules[RuleKey(RepositoryKey, rule)].params| > 0
    ensures r.params.Some? ==> r.params.value == activeRules[RuleKey(RepositoryKey, rule)].params
  {
    var key := RuleKey(RepositoryKey, rule);
    if key in activeRules && |activeRules[key].params| > 0 then RuleJson(rule, true, Some(activeRules[key].params))
    else RuleJson(rule, key in activeRules, None)
  }

  /** The config object of `execute`: one entry per known key, in order. */
  function BuildConfig(keys: seq<string>, activeRules: ActiveRules): (c: ConfigJson)
    ensures |c.rules| == |keys|
    ensures forall i :: 0 <= i < |keys| ==> c.rules[i] == RuleJsonOf(keys[i], activeRules)
  {
    ConfigJson(seq(|keys|, i requires 0 <= i < |keys| => RuleJsonOf(keys[i], activeRules)))
  }

  /** The enabled ids of a config object. */
  function EnabledRuleIds(c: ConfigJson): set<string> {
    set i | 0 <= i < |c.rules| && c.rules[i].isEnabled :: c.rules[i].ruleId
  }

  /** Reading the config back: the enabled ids are exactly the known keys
      that are active in the C# repository, and every known key is listed,
      so the server can switch every other rule off. */
  lemma BuildConfigEnablesActive(keys: seq<string>, activeRules: ActiveRules)
    ensures EnabledRuleIds(BuildConfig(keys, activeRules))
         == set k | k in keys && RuleKey(RepositoryKey, k) in activeRules
    ensures forall k :: k in keys <==> exists i :: 0 <= i < |keys| && BuildConfig(keys, activeRules).rules[i].ruleId == k
  {
    var c := BuildConfig(keys, activeRules);
    forall k | k in keys && RuleKey(RepositoryKey, k) in activeRules
      ensures k in EnabledRuleIds(c)
    {
      var i :| 0 <= i < |keys| && keys[i] == k;
      assert c.rules[i].isEnabled && c.rules[i].ruleId == k;
    }
  }
}
