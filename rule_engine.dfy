/** The rule-based band name generator (`generate_band_names`): fixed
    templates filled from the user's inputs and from three constant word
    lists. The three random choices are injected as `Draws`. */
module RuleEngine {
  import opened Strings
  import opened Dedup

  const Adjectives: seq<string> :=
    ["Electric", "Mystic", "Silent", "Crimson", "Midnight",
     "Whispering", "Echoing", "Velvet", "Cosmic", "Ancient"]

  const Nouns: seq<string> :=
    ["Riders", "Shadows", "Wolves", "Dreams", "Visions",
     "Outlaws", "Rebels", "Nomads", "Voyagers", "Guardians"]

  const Suffixes: seq<string> :=
    ["Band", "Collective", "Orchestra", "Project", "Crew",
     "Ensemble", "Syndicate", "Vibe", "Machine", "Unit"]

  /** The outcome of the three `random.choice` calls, as indices into the
      adjective, noun and suffix lists. */
  datatype Draws = Draws(adjective: nat, noun: nat, suffix: nat) {
    predicate Valid() {
      adjective < |Adjectives| && noun < |Nouns| && suffix < |Suffixes|
    }
  }

  // The five templates, filled from the raw (unstripped) inputs.

  function PlainName(city: string, petName: string): string {
    city + " " + petName
  }

  function AdjectiveName(adjective: string, petName: string): string {
    adjective + " " + petName + "s"
  }

  function NounName(city: string, noun: string): string {
    city + " " + noun
  }

  function ColorName(favoriteColor: string, petName: string): string {
    favoriteColor + " " + petName
  }

  function SuffixName(city: string, petName: string, suffix: string): string {
    city + " " + petName + " " + suffix
  }

  /** The validation that short-circuits generation: `not city.strip() or
      not pet_name.strip()`, which holds exactly when one of the two is
      made only of whitespace. */
  predicate MissingInput(city: string, petName: string)
    ensures MissingInput(city, petName) <==> AllSpace(city) || AllSpace(petName)
  {
    BlankIffAllSpace(city);
    BlankIffAllSpace(petName);
    IsBlank(city) || IsBlank(petName)
  }

  /** The five templates filled with the given words; the colour one only
      when a colour is given. */
  function Templates(city: string, petName: string, favoriteColor: string, adjective: string, noun: string, suffix: string): set<string> {
    {PlainName(city, petName), AdjectiveName(adjective, petName), NounName(city, noun), SuffixName(city, petName, suffix)}
    + (if IsBlank(favoriteColor) then {} else {ColorName(favoriteColor, petName)})
  }

  /** The set of names one call yields: nothing when a required input is
      blank, otherwise the templates filled with the drawn words. `genre`
      takes no part. */
  function RuleBasedNames(city: string, petName: string, favoriteColor: string, genre: string, draws: Draws): (r: set<string>)
    requires draws.Valid()
    ensures r == {} <==> MissingInput(city, petName)
    ensures !MissingInput(city, petName) ==> 3 <= |r| <= 5
  {
    if MissingInput(city, petName) then {}
    else
      var suffix := Suffixes[draws.suffix];
      SuffixShape(suffix);
      TemplatesCount(city, petName, favoriteColor, Adjectives[draws.adjective], Nouns[draws.noun], suffix);
      Templates(city, petName, favoriteColor, Adjectives[draws.adjective], Nouns[draws.noun], suffix)
  }

  /** `generate_band_names`: appends the filled templates to a list one by
      one, then removes duplicates. */
  method GenerateBandNames(city: string, petName: string, favoriteColor: string, genre: string, draws: Draws)
    returns (names: seq<string>)
    requires draws.Valid()
    ensures NoDuplicates(names)
    ensures Elements(names) == RuleBasedNames(city, petName, favoriteColor, genre, draws)
    ensures MissingInput(city, petName) ==> names == []
    ensures !MissingInput(city, petName) ==> 3 <= |names| <= 5
    ensures forall k :: 0 <= k < |names| ==> !IsBlank(names[k])
  {
    var generated: seq<string> := [];
    if MissingInput(city, petName) {
      return [];
    }
    generated := generated + [PlainName(city, petName)];
    var adjective := Adjectives[draws.adjective];
    generated := generated + [AdjectiveName(adjective, petName)];
    var noun := Nouns[draws.noun];
    generated := generated + [NounName(city, noun)];
    if !IsBlank(favoriteColor) {
      generated := generated + [ColorName(favoriteColor, petName)];
    }
    var suffix := Suffixes[draws.suffix];
    generated := generated + [SuffixName(city, petName, suffix)];
    names := Distinct(generated);
    assert Elements(generated) == Templates(city, petName, favoriteColor, adjective, noun, suffix);
    NoDuplicatesCard(names);
    SuffixShape(suffix);
    TemplatesCount(city, petName, favoriteColor, adjective, noun, suffix);
    TemplatesNonBlank(city, petName, favoriteColor, adjective, noun, suffix);
    assert forall k :: 0 <= k < |names| ==> names[k] in Elements(names);
  }

  /** `[c] + p` and `p + [d]` agree only when `c` and `d` do (and then every
      character of `p` is `c`). */
  lemma {:induction false} RotatedEqual(c: char, d: char, p: string)
    ensures [c] + p == p + [d] ==> c == d
  {
    if [c] + p == p + [d] {
      if p == [] {
        assert ([c] + p)[0] == (p + [d])[0];
      } else {
        assert p[0] == ([c] + p)[1 - 1];
        assert ([c] + p)[1..] == (p + [d])[1..];
        assert p == [c] + p[1..];
        assert (p + [d])[1..] == p[1..] + [d];
        assert [c] + p[1..] == p[1..] + [d];
        RotatedEqual(c, d, p[1..]);
      }
    }
  }

  /** The plain template never coincides with the adjective template,
      whatever the inputs. */
  lemma PlainNotAdjective(city: string, petName: string, adjective: string)
    ensures PlainName(city, petName) != AdjectiveName(adjective, petName)
  {
    var a := PlainName(city, petName);
    var b := AdjectiveName(adjective, petName);
    RotatedEqual(' ', 's', petName);
    if |city| == |adjective| + 1 {
      assert a[|city|..] == " " + petName;
      assert b[|adjective| + 1..] == petName + "s";
    } else {
      assert |a| != |b|;
    }
  }

  /** Every suffix is non-empty and none ends in `'s'`. */
  lemma SuffixShape(suffix: string)
    requires suffix in Suffixes
    ensures suffix != [] && suffix[|suffix| - 1] != 's'
  {
  }

  /** A suffix that does not end in `'s'` keeps the suffix template apart
      from the adjective template, which always ends in `'s'`. */
  lemma AdjectiveNotSuffix(city: string, petName: string, adjective: string, suffix: string)
    requires suffix != [] && suffix[|suffix| - 1] != 's'
    ensures AdjectiveName(adjective, petName) != SuffixName(city, petName, suffix)
  {
    var a := AdjectiveName(adjective, petName);
    var b := SuffixName(city, petName, suffix);
    assert a[|a| - 1] == 's';
    assert b[|b| - 1] == suffix[|suffix| - 1];
  }

  /** Three pairwise different values make a set of three. */
  lemma DistinctTriple<T>(x: T, y: T, z: T)
    requires x != y && y != z && x != z
    ensures |{x, y, z}| == 3
  {
  }

  /** Adding one element grows a set by at most one. */
  lemma AddOneCard<T>(a: set<T>, x: T)
    ensures |a| <= |a + {x}| <= |a| + 1
  {
    if x in a {
      assert a + {x} == a;
    }
  }

  /** With a suffix shaped like the listed ones there are between three and
      five names, and at most four without a colour: the plain, adjective
      and suffix names are always pairwise distinct. */
  lemma TemplatesCount(city: string, petName: string, favoriteColor: string, adjective: string, noun: string, suffix: string)
    requires suffix != [] && suffix[|suffix| - 1] != 's'
    ensures 3 <= |Templates(city, petName, favoriteColor, adjective, noun, suffix)| <= 5
    ensures IsBlank(favoriteColor) ==> |Templates(city, petName, favoriteColor, adjective, noun, suffix)| <= 4
  {
    var plain := PlainName(city, petName);
    var adj := AdjectiveName(adjective, petName);
    var suf := SuffixName(city, petName, suffix);
    PlainNotAdjective(city, petName, adjective);
    AdjectiveNotSuffix(city, petName, adjective, suffix);
    assert |plain| < |suf|;
    DistinctTriple(plain, adj, suf);
    var four := {plain, adj, suf} + {NounName(city, noun)};
    AddOneCard({plain, adj, suf}, NounName(city, noun));
    var color := ColorName(favoriteColor, petName);
    AddOneCard(four, color);
    assert Templates(city, petName, favoriteColor, adjective, noun, suffix) ==
      if IsBlank(favoriteColor) then four else four + {color};
  }

  /** Text appended after a non-blank string keeps it non-blank. */
  lemma NonBlankPrefix(a: string, b: string)
    requires !IsBlank(a)
    ensures !IsBlank(a + b)
  {
    BlankIffAllSpace(a);
    BlankIffAllSpace(a + b);
    var k :| 0 <= k < |a| && !IsSpace(a[k]);
    assert (a + b)[k] == a[k];
  }

  /** Text put before a non-blank string keeps it non-blank. */
  lemma NonBlankSuffix(a: string, b: string)
    requires !IsBlank(b)
    ensures !IsBlank(a + b)
  {
    BlankIffAllSpace(b);
    BlankIffAllSpace(a + b);
    var k :| 0 <= k < |b| && !IsSpace(b[k]);
    assert (a + b)[|a| + k] == b[k];
  }

  /** The plain name contains the pet name, so it is non-blank when that is. */
  lemma PlainNonBlank(city: string, petName: string)
    requires !IsBlank(petName)
    ensures !IsBlank(PlainName(city, petName))
  {
    NonBlankSuffix(city + " ", petName);
  }

  /** The adjective name contains the pet name, so it is non-blank when that is. */
  lemma AdjectiveNonBlank(adjective: string, petName: string)
    requires !IsBlank(petName)
    ensures !IsBlank(AdjectiveName(adjective, petName))
  {
    NonBlankSuffix(adjective + " ", petName);
    NonBlankPrefix(adjective + " " + petName, "s");
  }

  /** The noun name starts with the city, so it is non-blank when that is. */
  lemma NounNonBlank(city: string, noun: string)
    requires !IsBlank(city)
    ensures !IsBlank(NounName(city, noun))
  {
    NonBlankPrefix(city, " ");
    NonBlankPrefix(city + " ", noun);
  }

  /** The suffix name contains the pet name, so it is non-blank when that is. */
  lemma SuffixNonBlank(city: string, petName: string, suffix: string)
    requires !IsBlank(petName)
    ensures !IsBlank(SuffixName(city, petName, suffix))
  {
    PlainNonBlank(city, petName);
    NonBlankPrefix(city + " " + petName, " ");
    NonBlankPrefix(city + " " + petName + " ", suffix);
  }

  /** Once validation passes every name has a non-whitespace character: each
      contains the city or the pet name. */
  lemma TemplatesNonBlank(city: string, petName: string, favoriteColor: string, adjective: string, noun: string, suffix: string)
    requires !MissingInput(city, petName)
    ensures forall name :: name in Templates(city, petName, favoriteColor, adjective, noun, suffix) ==> !IsBlank(name)
  {
    forall name | name in Templates(city, petName, favoriteColor, adjective, noun, suffix)
      ensures !IsBlank(name)
    {
      if name == PlainName(city, petName) {
        PlainNonBlank(city, petName);
      } else if name == AdjectiveName(adjective, petName) {
        AdjectiveNonBlank(adjective, petName);
      } else if name == NounName(city, noun) {
        NounNonBlank(city, noun);
      } else if name == SuffixName(city, petName, suffix) {
        SuffixNonBlank(city, petName, suffix);
      } else {
        PlainNonBlank(favoriteColor, petName);
      }
    }
  }

  /** A blank city or pet name yields no names at all, whatever the other
      inputs are; otherwise the plain name is always among them. */
  lemma NoNamesIffMissingInput(city: string, petName: string, favoriteColor: string, genre: string, draws: Draws)
    requires draws.Valid()
    ensures RuleBasedNames(city, petName, favoriteColor, genre, draws) == {} <==> MissingInput(city, petName)
    ensures !MissingInput(city, petName) ==> PlainName(city, petName) in RuleBasedNames(city, petName, favoriteColor, genre, draws)
  {
  }

  /** The genre is never read: calls differing only in genre agree. */
  lemma GenreIgnored(city: string, petName: string, favoriteColor: string, genre1: string, genre2: string, draws: Draws)
    requires draws.Valid()
    ensures RuleBasedNames(city, petName, favoriteColor, genre1, draws) == RuleBasedNames(city, petName, favoriteColor, genre2, draws)
  {
  }

  /** Once validation passes: the plain, adjective, noun and suffix names,
      filled with words from the lists, are always present; the colour name
      is present whenever a colour is given; with a blank colour the names
      are exactly the other four. */
  lemma RuleBasedNamesContents(city: string, petName: string, favoriteColor: string, genre: string, draws: Draws)
    requires draws.Valid() && !MissingInput(city, petName)
    ensures Adjectives[draws.adjective] in Adjectives && Nouns[draws.noun] in Nouns && Suffixes[draws.suffix] in Suffixes
    ensures PlainName(city, petName) in RuleBasedNames(city, petName, favoriteColor, genre, draws)
    ensures AdjectiveName(Adjectives[draws.adjective], petName) in RuleBasedNames(city, petName, favoriteColor, genre, draws)
    ensures NounName(city, Nouns[draws.noun]) in RuleBasedNames(city, petName, favoriteColor, genre, draws)
    ensures SuffixName(city, petName, Suffixes[draws.suffix]) in RuleBasedNames(city, petName, favoriteColor, genre, draws)
    ensures !IsBlank(favoriteColor) ==> ColorName(favoriteColor, petName) in RuleBasedNames(city, petName, favoriteColor, genre, draws)
    ensures IsBlank(favoriteColor) ==>
      (RuleBasedNames(city, petName, favoriteColor, genre, draws) ==
       {PlainName(city, petName), AdjectiveName(Adjectives[draws.adjective], petName),
        NounName(city, Nouns[draws.noun]), SuffixName(city, petName, Suffixes[draws.suffix])})
  {
  }

  /** A string whose first character is not whitespace is not blank. */
  lemma NonBlankByFirst(s: string)
    requires s != [] && !IsSpace(s[0])
    ensures !IsBlank(s)
  {
    BlankIffAllSpace(s);
  }

  /** The worked example: Kuala Lumpur, Sparky, Blue, no genre, with the
      draws Electric, Wolves and Band. */
  lemma KualaLumpurExample()
    ensures RuleBasedNames("Kuala Lumpur", "Sparky", "Blue", "", Draws(0, 2, 0)) ==
      {"Kuala Lumpur Sparky", "Electric Sparkys", "Kuala Lumpur Wolves", "Blue Sparky", "Kuala Lumpur Sparky Band"}
  {
    NonBlankByFirst("Kuala Lumpur");
    NonBlankByFirst("Sparky");
    NonBlankByFirst("Blue");
    assert PlainName("Kuala Lumpur", "Sparky") == "Kuala Lumpur Sparky";
    assert AdjectiveName(Adjectives[0], "Sparky") == "Electric Sparkys";
    assert NounName("Kuala Lumpur", Nouns[2]) == "Kuala Lumpur Wolves";
    assert ColorName("Blue", "Sparky") == "Blue Sparky";
    assert SuffixName("Kuala Lumpur", "Sparky", Suffixes[0]) == "Kuala Lumpur Sparky Band";
  }
}
