/** Rule definitions pushed by the Java client, the repository that holds
    the latest push, and the `/sonarlint/config` endpoint that fills it. */
module Rules {
  import opened Wrappers

  /** One active rule and its parameters. `parameters` lists the entries of
      the parameter dictionary in enumeration order; `None` is a null
      dictionary. */
  datatype RuleDefinition = RuleDefinition(ruleId: string, parameters: Option<seq<(string, string)>>)

  /** The ids of a rule list, as a set. */
  function RuleIds(rules: seq<RuleDefinition>): (ids: set<string>)
    ensures forall i :: 0 <= i < |rules| ==> rules[i].ruleId in ids
    ensures forall id :: id in ids ==> exists i :: 0 <= i < |rules| && rules[i].ruleId == id
  {
    set i | 0 <= i < |rules| :: rules[i].ruleId
  }

  /** The rule repository: the last value stored, null included. Reading a
      null value yields the empty list. */
  datatype RuleDefinitionsRepository = RuleDefinitionsRepository(stored: Option<seq<RuleDefinition>>) {

    function RuleDefinitions(): seq<RuleDefinition> {
      stored.GetOr([])
    }

    /** Storing replaces the previous content; what is read back is the
        stored list, or the empty list for null. */
    function Store(rules: Option<seq<RuleDefinition>>): (r: RuleDefinitionsRepository)
      ensures r.RuleDefinitions() == (if rules.Some? then rules.value else [])
    {
      RuleDefinitionsRepository(rules)
    }
  }

  /** A repository nobody has written to yet. */
  const NewRepository := RuleDefinitionsRepository(None)

  lemma NewRepositoryIsEmpty()
    ensures NewRepository.RuleDefinitions() == []
  {
  }

  /** The `/sonarlint/config` request: the deserialised `activeRules`
      array, possibly null. */
  datatype ConfigRequest = ConfigRequest(activeRules: Option<seq<RuleDefinition>>)

  /** `ConfigService.Handle`: the request's rules replace the repository's
      content wholesale and the answer is always `true`. */
  function HandleConfig(repository: RuleDefinitionsRepository, request: ConfigRequest): (r: (RuleDefinitionsRepository, bool))
    ensures r.1
    ensures r.0.RuleDefinitions() == (if request.activeRules.Some? then request.activeRules.value else [])
  {
    (repository.Store(request.activeRules), true)
  }

  /** The earlier content plays no part: two repositories that receive the
      same request end up equal, so the last push wins. */
  lemma {:induction false} HandleConfigSupersedes(a: RuleDefinitionsRepository, b: RuleDefinitionsRepository, first: ConfigRequest, second: ConfigRequest)
    ensures HandleConfig(a, second).0 == HandleConfig(b, second).0
    ensures HandleConfig(HandleConfig(a, first).0, second).0.RuleDefinitions()
         == HandleConfig(NewRepository, second).0.RuleDefinitions()
  {
  }
}
