/** What the "Generate Band Names" button does with the inputs, without the
    rendering: validate, collect the rule-based names, add the names parsed
    from the service's reply, and deduplicate the lot. */
module App {
  import opened Strings
  import opened Dedup
  import opened RuleEngine
  import opened SuggestionFetcher

  /** The three things the handler can show. */
  datatype Outcome =
    | MissingRequiredInput           // the "enter both City and Pet Name" error
    | NoSuggestions                  // the "no band names could be generated" warning
    | Suggestions(names: seq<string>)

  /** The final list: the rule-based and the AI names together, with
      duplicates removed. */
  function MergeSuggestions(ruleBasedNames: seq<string>, aiNames: seq<string>): (r: seq<string>)
    ensures NoDuplicates(r)
    ensures Elements(r) == Elements(ruleBasedNames) + Elements(aiNames)
  {
    assert Elements(ruleBasedNames + aiNames) == Elements(ruleBasedNames) + Elements(aiNames);
    Distinct(ruleBasedNames + aiNames)
  }

  /** In this model's order, the duplicate-free rule-based names come first,
      unchanged, and the AI names not already among them follow. */
  lemma RuleBasedNamesFirst(ruleBasedNames: seq<string>, aiNames: seq<string>)
    requires NoDuplicates(ruleBasedNames)
    ensures |ruleBasedNames| <= |MergeSuggestions(ruleBasedNames, aiNames)|
    ensures MergeSuggestions(ruleBasedNames, aiNames)[..|ruleBasedNames|] == ruleBasedNames
  {
    DistinctPrefix(ruleBasedNames, aiNames);
    DistinctOfNoDuplicates(ruleBasedNames);
  }

  /** The button handler, with the random draws and the service's reply
      given. The AI names merged in are those parsed from `reply`. */
  method HandleGenerate(city: string, petName: string, favoriteColor: string, genre: string, draws: Draws, reply: Reply)
    returns (outcome: Outcome)
    requires draws.Valid()
    ensures outcome.MissingRequiredInput? <==> MissingInput(city, petName)
    ensures !outcome.NoSuggestions?
    ensures outcome.Suggestions? ==> NoDuplicates(outcome.names)
    ensures outcome.Suggestions? ==>
      (Elements(outcome.names) == RuleBasedNames(city, petName, favoriteColor, genre, draws) + Elements(AiBandNames(reply)))
  {
    if MissingInput(city, petName) {
      return MissingRequiredInput;
    }
    var ruleBasedNames := GenerateBandNames(city, petName, favoriteColor, genre, draws);
    var allSuggestions := ruleBasedNames;
    var aiNames := AiBandNames(reply);
    var finalSuggestions := MergeSuggestions(allSuggestions, aiNames);
    if finalSuggestions != [] {
      outcome := Suggestions(finalSuggestions);
    } else {
      // unreachable: validation passed, so there are at least three rule-based names
      assert false;
      outcome := NoSuggestions;
    }
  }
}
